/**
 * What the broadcast server of broadcast_server.cpp is for, said without threads: a log of actions, the handles
 * subscribed at each point of it, and who is sent what.
 */
module BroadcastLog {
  /** A connection handle; the order is the one `owner_less` gives the handles of the connection set. */
  type Hdl = nat

  type Payload = string

  datatype Action =
    | Subscribe(hdl: Hdl)
    | Unsubscribe(hdl: Hdl)
    | Message(hdl: Hdl, msg: Payload)

  /** One call of `m_server.send`: to whom, what, and for which entry of the log. */
  datatype Send = Send(index: nat, to: Hdl, msg: Payload)

  function Apply(s: set<Hdl>, a: Action): set<Hdl> {
    match a
    case Subscribe(h) => s + {h}
    case Unsubscribe(h) => s - {h}
    case Message(_, _) => s
  }

  /** The connection set after a log of actions. */
  function Connections(log: seq<Action>): set<Hdl> {
    if log == [] then {} else Apply(Connections(log[..|log| - 1]), log[|log| - 1])
  }

  /** Some subscription of `h` in the log has not been followed by an unsubscription. */
  ghost predicate Subscribed(log: seq<Action>, h: Hdl) {
    exists i :: 0 <= i < |log| && log[i] == Subscribe(h) && forall j :: i < j < |log| ==> log[j] != Unsubscribe(h)
  }

  ghost predicate IsLeast(h: Hdl, s: set<Hdl>) {
    h in s && forall x :: x in s ==> h <= x
  }

  lemma LeastExists(s: set<Hdl>)
    requires s != {}
    ensures exists h :: IsLeast(h, s)
    decreases |s|
  {
    var x :| x in s;
    if s == {x} {
      assert IsLeast(x, s);
    } else {
      LeastExists(s - {x});
      var y :| IsLeast(y, s - {x});
      var z := if x <= y then x else y;
      assert forall w :: w in s ==> w == x || w in s - {x};
      assert IsLeast(z, s);
    }
  }

  ghost function Least(s: set<Hdl>): (h: Hdl)
    requires s != {}
    ensures IsLeast(h, s)
  {
    LeastExists(s);
    var h :| IsLeast(h, s);
    h
  }

  /** The sends of one message to a set of handles, in the order the set is walked. */
  ghost function SendsTo(index: nat, msg: Payload, s: set<Hdl>): seq<Send>
    decreases |s|
  {
    if s == {} then [] else [Send(index, Least(s), msg)] + SendsTo(index, msg, s - {Least(s)})
  }

  ghost function SendsOf(index: nat, a: Action, s: set<Hdl>): seq<Send> {
    match a
    case Message(_, msg) => SendsTo(index, msg, s)
    case _ => []
  }

  /** What the threads share, and the history of it. */
  datatype Shared = Shared(connections: set<Hdl>, actions: seq<Action>, processed: seq<Action>, sent: seq<Send>)

  /** What a handler does to it. */
  function Queued(s: Shared, a: Action): Shared {
    s.(actions := s.actions + [a])
  }

  /** What one round of the consumer does to it. */
  ghost function Round(s: Shared): Shared
    requires s.actions != []
  {
    var a := s.actions[0];
    Shared(Apply(s.connections, a), s.actions[1..], s.processed + [a],
           s.sent + SendsOf(|s.processed|, a, s.connections))
  }

  /** Every send that a log of actions calls for, in order. */
  ghost function Sends(log: seq<Action>): seq<Send> {
    if log == [] then []
    else
      var n := |log| - 1;
      Sends(log[..n]) + SendsOf(n, log[n], Connections(log[..n]))
  }

  lemma {:induction false} ConnectionsAreSubscribed(log: seq<Action>, h: Hdl)
    ensures h in Connections(log) <==> Subscribed(log, h)
  {
    if log != [] {
      var n := |log| - 1;
      var front := log[..n];
      ConnectionsAreSubscribed(front, h);
      if Subscribed(front, h) && log[n] != Unsubscribe(h) {
        var i :| 0 <= i < n && front[i] == Subscribe(h) && forall j :: i < j < n ==> front[j] != Unsubscribe(h);
        assert log[i] == Subscribe(h);
        assert forall j :: i < j < |log| ==> log[j] != Unsubscribe(h) by {
          forall j | i < j < |log| ensures log[j] != Unsubscribe(h) {
            if j < n { assert log[j] == front[j]; }
          }
        }
      }
      if log[n] == Subscribe(h) {
        assert Subscribed(log, h);
      }
      if Subscribed(log, h) && log[n] != Subscribe(h) {
        var i :| 0 <= i < |log| && log[i] == Subscribe(h) && forall j :: i < j < |log| ==> log[j] != Unsubscribe(h);
        assert front[i] == Subscribe(h) && forall j :: i < j < n ==> front[j] != Unsubscribe(h);
      }
    }
  }

  lemma {:induction false} SendsToCounts(index: nat, msg: Payload, s: set<Hdl>, e: Send)
    ensures multiset(SendsTo(index, msg, s))[e] == if e.index == index && e.msg == msg && e.to in s then 1 else 0
    decreases |s|
  {
    if s != {} {
      SendsToCounts(index, msg, s - {Least(s)}, e);
    }
  }

  /**
   * Exactly once to exactly the right handles: a message of the log is sent once to each handle subscribed before it,
   * and nothing else is ever sent.
   */
  lemma {:induction false} EachMessageSentOnceToSubscribers(log: seq<Action>, e: Send)
    ensures multiset(Sends(log))[e] == if CalledFor(log, e) then 1 else 0
  {
    if log != [] {
      var n := |log| - 1;
      EachMessageSentOnceToSubscribers(log[..n], e);
      SendsOfCounts(n, log[n], log[..n], e);
      CalledForStep(log, e);
      assert multiset(Sends(log)) == multiset(Sends(log[..n])) + multiset(SendsOf(n, log[n], Connections(log[..n])));
    }
  }

  /** The log asks for this send: the entry is that message and the handle was subscribed before it. */
  ghost predicate CalledFor(log: seq<Action>, e: Send) {
    e.index < |log| && log[e.index].Message? && log[e.index].msg == e.msg && Subscribed(log[..e.index], e.to)
  }

  lemma CalledForStep(log: seq<Action>, e: Send)
    requires log != []
    ensures var n := |log| - 1;
            if e.index == n then !CalledFor(log[..n], e) else CalledFor(log, e) == CalledFor(log[..n], e)
  {
    hide Subscribed;
    var n := |log| - 1;
    if e.index < n {
      assert log[..n][..e.index] == log[..e.index];
    }
  }

  lemma SendsOfCounts(index: nat, a: Action, before: seq<Action>, e: Send)
    requires index == |before|
    ensures multiset(SendsOf(index, a, Connections(before)))[e] ==
            if e.index == index && a.Message? && a.msg == e.msg && Subscribed(before, e.to) then 1 else 0
  {
    ConnectionsAreSubscribed(before, e.to);
    hide Connections, Subscribed, SendsTo;
    if a.Message? {
      SendsToCounts(index, a.msg, Connections(before), e);
    }
  }

  predicate Before(a: Send, b: Send) {
    a.index < b.index || (a.index == b.index && a.to < b.to)
  }

  ghost predicate InOrder(t: seq<Send>) {
    forall i, j :: 0 <= i < j < |t| ==> Before(t[i], t[j])
  }

  lemma {:induction false} SendsToInOrder(index: nat, msg: Payload, s: set<Hdl>)
    ensures forall e :: e in SendsTo(index, msg, s) ==> e.index == index && e.to in s
    ensures InOrder(SendsTo(index, msg, s))
    decreases |s|
  {
    if s != {} {
      var rest := s - {Least(s)};
      SendsToInOrder(index, msg, rest);
      var t, u := SendsTo(index, msg, s), SendsTo(index, msg, rest);
      assert forall j :: 1 <= j < |t| ==> t[j] == u[j - 1] && t[j] in u;
    }
  }

  /** Sends follow the order of the log, and within one message the order of the handles. */
  lemma {:induction false} SendsFollowTheLog(log: seq<Action>)
    ensures forall e :: e in Sends(log) ==> e.index < |log|
    ensures InOrder(Sends(log))
  {
    if log != [] {
      var n := |log| - 1;
      SendsFollowTheLog(log[..n]);
      var t, u := Sends(log[..n]), SendsOf(n, log[n], Connections(log[..n]));
      if log[n].Message? {
        SendsToInOrder(n, log[n].msg, Connections(log[..n]));
      }
      assert forall e :: e in u ==> e.index == n;
      InOrderAppend(t, u);
    }
  }

  lemma InOrderAppend(t: seq<Send>, u: seq<Send>)
    requires InOrder(t) && InOrder(u)
    requires forall a, b :: a in t && b in u ==> Before(a, b)
    ensures InOrder(t + u)
  {}

  lemma LogStep(log: seq<Action>, a: Action)
    ensures Connections(log + [a]) == Apply(Connections(log), a)
    ensures Sends(log + [a]) == Sends(log) + SendsOf(|log|, a, Connections(log))
  {}
}

/**
 * The threads of broadcast_server.cpp, interleaved step by step: any number of threads run the handlers `on_open`,
 * `on_close` and `on_message`, one runs `process_messages`.
 */
module BroadcastServer {
  import opened BroadcastLog

  /** Where a handler thread is: outside, about to lock, holding the lock, holding it after the push, about to notify. */
  datatype Producer = Idle | Calling(a: Action) | Holding(a: Action) | Pushed | Notifying

  /**
   * Where the consumer is. `Sleeping` is inside `wait` with the lock released, `Woken` inside `wait` and taking it
   * back; `todo` is what the loop over the connections has not come to yet.
   */
  datatype Consumer =
    | Start
    | Testing
    | Sleeping
    | Woken
    | Popped(a: Action)
    | Unlocked(a: Action)
    | InSection(a: Action)
    | Sending(a: Action, todo: set<Hdl>)
    | Leaving

  datatype Lock = Free | HeldBy(p: nat) | HeldByConsumer

  /** The shared state, the position of every thread, and the history of what happened. */
  datatype State = State(
    producers: seq<Producer>,
    consumer: Consumer,
    actionLock: Lock,
    connectionLock: Lock,
    connections: set<Hdl>,
    actions: seq<Action>,
    enqueued: seq<Action>,
    processed: seq<Action>,
    sent: seq<Send>)

  function Init(threads: nat): State {
    State(seq(threads, _ => Idle), Start, Free, Free, {}, [], [], [], [])
  }

  datatype Event =
    | Call(p: nat, a: Action)
    | LockActions(p: nat)
    | Push(p: nat)
    | UnlockActions(p: nat)
    | Notify(p: nat)
    | ConsumerLock
    | Wait
    | SpuriousWake
    | Pop
    | ConsumerUnlock
    | LockConnections
    | Update
    | SendNext
    | FinishSending
    | UnlockConnections

  predicate At(s: State, p: nat, pc: Producer) {
    p < |s.producers| && s.producers[p] == pc
  }

  predicate Enabled(s: State, e: Event) {
    match e
    case Call(p, _) => At(s, p, Idle)
    case LockActions(p) => p < |s.producers| && s.producers[p].Calling? && s.actionLock == Free
    case Push(p) => p < |s.producers| && s.producers[p].Holding?
    case UnlockActions(p) => At(s, p, Pushed)
    case Notify(p) => At(s, p, Notifying)
    case ConsumerLock => (s.consumer == Start || s.consumer == Woken) && s.actionLock == Free
    case Wait => s.consumer == Testing && s.actions == []
    case SpuriousWake => s.consumer == Sleeping
    case Pop => s.consumer == Testing && s.actions != []
    case ConsumerUnlock => s.consumer.Popped?
    case LockConnections => s.consumer.Unlocked? && s.connectionLock == Free
    case Update => s.consumer.InSection?
    case SendNext => s.consumer.Sending? && s.consumer.todo != {}
    case FinishSending => s.consumer.Sending? && s.consumer.todo == {}
    case UnlockConnections => s.consumer == Leaving
  }

  ghost function After(s: State, e: Event): State
    requires Enabled(s, e)
  {
    match e
    case Call(p, a) => s.(producers := s.producers[p := Calling(a)])
    case LockActions(p) => s.(producers := s.producers[p := Holding(s.producers[p].a)], actionLock := HeldBy(p))
    case Push(p) =>
      var a := s.producers[p].a;
      s.(producers := s.producers[p := Pushed], actions := s.actions + [a], enqueued := s.enqueued + [a])
    case UnlockActions(p) => s.(producers := s.producers[p := Notifying], actionLock := Free)
    case Notify(p) =>
      s.(producers := s.producers[p := Idle], consumer := if s.consumer == Sleeping then Woken else s.consumer)
    case ConsumerLock => s.(consumer := Testing, actionLock := HeldByConsumer)
    case Wait => s.(consumer := Sleeping, actionLock := Free)
    case SpuriousWake => s.(consumer := Woken)
    case Pop => s.(consumer := Popped(s.actions[0]), actions := s.actions[1..])
    case ConsumerUnlock => s.(consumer := Unlocked(s.consumer.a), actionLock := Free)
    case LockConnections => s.(consumer := InSection(s.consumer.a), connectionLock := HeldByConsumer)
    case Update =>
      var a := s.consumer.a;
      if a.Message? then s.(consumer := Sending(a, s.connections))
      else s.(consumer := Leaving, connections := Apply(s.connections, a), processed := s.processed + [a])
    case SendNext =>
      var a, h := s.consumer.a, Least(s.consumer.todo);
      s.(consumer := Sending(a, s.consumer.todo - {h}),
         sent := s.sent + (if a.Message? then [Send(|s.processed|, h, a.msg)] else []))
    case FinishSending => s.(consumer := Leaving, processed := s.processed + [s.consumer.a])
    case UnlockConnections => s.(consumer := Start, connectionLock := Free)
  }

  // ---------------------------------------------------------------------------------------------
  // The invariant
  // ---------------------------------------------------------------------------------------------

  predicate HasActionLock(c: Consumer) {
    c == Testing || c.Popped?
  }

  predicate HasConnectionLock(c: Consumer) {
    c.InSection? || c.Sending? || c == Leaving
  }

  /** Each lock is held by exactly the thread whose position says so. */
  ghost predicate LocksMatch(s: State) {
    && (s.actionLock == HeldByConsumer <==> HasActionLock(s.consumer))
    && (forall p :: 0 <= p < |s.producers| ==>
          (s.actionLock == HeldBy(p) <==> s.producers[p].Holding? || s.producers[p] == Pushed))
    && (s.actionLock.HeldBy? ==> s.actionLock.p < |s.producers|)
    && s.connectionLock == (if HasConnectionLock(s.consumer) then HeldByConsumer else Free)
  }

  function InFlight(c: Consumer): seq<Action> {
    if c.Popped? || c.Unlocked? || c.InSection? || c.Sending? then [c.a] else []
  }

  /** Everything pushed is processed, in flight or queued, in that order; connections and sends are those of the log. */
  ghost predicate HistoryMatches(s: State) {
    && s.enqueued == s.processed + InFlight(s.consumer) + s.actions
    && s.connections == Connections(s.processed)
    && match s.consumer
       case Sending(a, todo) =>
         && a.Message?
         && s.sent + SendsTo(|s.processed|, a.msg, todo)
            == Sends(s.processed) + SendsTo(|s.processed|, a.msg, s.connections)
       case _ => s.sent == Sends(s.processed)
  }

  ghost predicate SomeNotifyPending(s: State) {
    exists p :: 0 <= p < |s.producers| && (s.producers[p] == Pushed || s.producers[p] == Notifying)
  }

  ghost predicate NoLostWakeup(s: State) {
    s.consumer == Sleeping && s.actions != [] ==> SomeNotifyPending(s)
  }

  ghost predicate Inv(s: State) {
    LocksMatch(s) && HistoryMatches(s) && NoLostWakeup(s)
  }

  lemma InitHolds(threads: nat)
    ensures Inv(Init(threads))
  {}

  lemma LocksStep(s: State, e: Event)
    requires LocksMatch(s) && Enabled(s, e)
    ensures LocksMatch(After(s, e))
  {}

  lemma WakeupStep(s: State, e: Event)
    requires LocksMatch(s) && NoLostWakeup(s) && Enabled(s, e)
    ensures NoLostWakeup(After(s, e))
  {
    var t := After(s, e);
    if t.consumer == Sleeping && t.actions != [] {
      if e.Push? {
        assert t.producers[e.p] == Pushed;
      } else {
        var p :| 0 <= p < |s.producers| && (s.producers[p] == Pushed || s.producers[p] == Notifying);
        assert e.UnlockActions? && e.p == p ==> t.producers[p] == Notifying;
        assert t.producers[p] == Pushed || t.producers[p] == Notifying;
      }
    }
  }

  lemma HistoryUpdate(s: State)
    requires HistoryMatches(s) && Enabled(s, Update)
    ensures HistoryMatches(After(s, Update))
  {
    hide Connections, Sends, SendsTo;
    var a := s.consumer.a;
    LogStep(s.processed, a);
    assert s.processed + [a] + [] + s.actions == s.processed + [a] + s.actions;
    assert Sends(s.processed) + [] == Sends(s.processed);
  }

  lemma HistorySendNext(s: State)
    requires HistoryMatches(s) && Enabled(s, SendNext)
    ensures HistoryMatches(After(s, SendNext))
  {
    var n, msg, todo := |s.processed|, s.consumer.a.msg, s.consumer.todo;
    var first, rest := [Send(n, Least(todo), msg)], SendsTo(n, msg, todo - {Least(todo)});
    assert SendsTo(n, msg, todo) == first + rest;
    assert s.sent + (first + rest) == (s.sent + first) + rest;
  }

  lemma FinishedSends(log: seq<Action>, a: Action, sent: seq<Send>)
    requires a.Message?
    requires sent + SendsTo(|log|, a.msg, {}) == Sends(log) + SendsTo(|log|, a.msg, Connections(log))
    ensures sent == Sends(log + [a]) && Connections(log) == Connections(log + [a])
  {}

  lemma HistoryFinish(s: State)
    requires HistoryMatches(s) && Enabled(s, FinishSending)
    ensures HistoryMatches(After(s, FinishSending))
  {
    hide Connections, Sends, SendsTo;
    FinishedSends(s.processed, s.consumer.a, s.sent);
    assert s.enqueued == s.processed + [s.consumer.a] + [] + s.actions;
  }

  lemma HistoryPop(s: State)
    requires HistoryMatches(s) && Enabled(s, Pop)
    ensures HistoryMatches(After(s, Pop))
  {
    hide Connections, Sends, SendsTo;
    assert s.actions == [s.actions[0]] + s.actions[1..];
  }

  lemma HistoryPush(s: State, p: nat)
    requires HistoryMatches(s) && Enabled(s, Push(p))
    ensures HistoryMatches(After(s, Push(p)))
  {
    hide Connections, Sends, SendsTo;
    var a := s.producers[p].a;
    assert s.processed + InFlight(s.consumer) + (s.actions + [a]) == s.processed + InFlight(s.consumer) + s.actions + [a];
  }

  lemma HistoryStep(s: State, e: Event)
    requires HistoryMatches(s) && Enabled(s, e)
    ensures HistoryMatches(After(s, e))
  {
    match e
    case Update => HistoryUpdate(s);
    case SendNext => HistorySendNext(s);
    case FinishSending => HistoryFinish(s);
    case Pop => HistoryPop(s);
    case Push(p) => HistoryPush(s, p);
    case _ => HistoryUntouched(s, e);
  }

  lemma HistoryUntouched(s: State, e: Event)
    requires HistoryMatches(s) && Enabled(s, e)
    requires !e.Update? && !e.SendNext? && !e.FinishSending? && !e.Pop? && !e.Push?
    ensures HistoryMatches(After(s, e))
  {
    hide Connections, Sends, SendsTo, SendsOf;
  }

  lemma Preserved(s: State, e: Event)
    requires Inv(s) && Enabled(s, e)
    ensures Inv(After(s, e))
  {
    LocksStep(s, e);
    HistoryStep(s, e);
    WakeupStep(s, e);
  }

  // ---------------------------------------------------------------------------------------------
  // Every run
  // ---------------------------------------------------------------------------------------------

  /** A run: any interleaving of enabled steps, spurious wake-ups included, from the initial state. */
  ghost predicate IsRun(threads: nat, states: seq<State>, events: seq<Event>) {
    && |states| == |events| + 1
    && states[0] == Init(threads)
    && forall i :: 0 <= i < |events| ==> Enabled(states[i], events[i]) && states[i + 1] == After(states[i], events[i])
  }

  lemma {:induction false} RunKeepsInvariant(threads: nat, states: seq<State>, events: seq<Event>, i: nat)
    requires IsRun(threads, states, events) && i < |states|
    ensures Inv(states[i])
    decreases i
  {
    if i == 0 {
      InitHolds(threads);
    } else {
      RunKeepsInvariant(threads, states, events, i - 1);
      assert Enabled(states[i - 1], events[i - 1]) && states[i - 1 + 1] == After(states[i - 1], events[i - 1]);
      Preserved(states[i - 1], events[i - 1]);
    }
  }

  /** The thread holds some lock; the consumer is the thread after the last producer. */
  predicate HoldsSomeLock(s: State, thread: nat) {
    if thread < |s.producers| then s.actionLock == HeldBy(thread) || s.connectionLock == HeldBy(thread)
    else s.actionLock == HeldByConsumer || s.connectionLock == HeldByConsumer
  }

  /** The thread's next step takes a lock. */
  predicate WantsLock(s: State, thread: nat) {
    if thread < |s.producers| then s.producers[thread].Calling?
    else s.consumer == Start || s.consumer == Woken || s.consumer.Unlocked?
  }

  /** No thread waits for a lock while holding one, so there is no lock cycle; no thread ever holds both. */
  lemma NoLockCycle(threads: nat, states: seq<State>, events: seq<Event>, i: nat, thread: nat)
    requires IsRun(threads, states, events) && i < |states|
    ensures var s := states[i];
            && !(HoldsSomeLock(s, thread) && WantsLock(s, thread))
            && !(s.actionLock == HeldByConsumer && s.connectionLock == HeldByConsumer)
            && !s.connectionLock.HeldBy?
  {
    RunKeepsInvariant(threads, states, events, i);
  }

  /** No lost wake-up: if the consumer sleeps on a non-empty queue, a thread that pushed has still to notify. */
  lemma NoLostWakeupInAnyRun(threads: nat, states: seq<State>, events: seq<Event>, i: nat)
    requires IsRun(threads, states, events) && i < |states|
    requires states[i].consumer == Sleeping && states[i].actions != []
    ensures exists p :: 0 <= p < |states[i].producers| && states[i].producers[p] in {Pushed, Notifying}
  {
    RunKeepsInvariant(threads, states, events, i);
    var s := states[i];
    var p :| 0 <= p < |s.producers| && (s.producers[p] == Pushed || s.producers[p] == Notifying);
    assert s.producers[p] in {Pushed, Notifying};
  }

  lemma {:induction false} SendsOfPrefix(log: seq<Action>, n: nat)
    requires n <= |log|
    ensures Sends(log[..n]) <= Sends(log)
    decreases |log| - n
  {
    if n == |log| {
      assert log[..n] == log;
    } else {
      assert log[..n + 1] == log[..n] + [log[n]];
      LogStep(log[..n], log[n]);
      SendsOfPrefix(log, n + 1);
    }
  }

  /**
   * Refinement: at every point of every run, what has been sent is a prefix of what the threadless fold over the
   * enqueued log sends, and the connection set is the fold over the part of the log processed so far.
   */
  lemma RunRefinesLog(threads: nat, states: seq<State>, events: seq<Event>, i: nat)
    requires IsRun(threads, states, events) && i < |states|
    ensures var s := states[i];
            && s.enqueued == s.processed + InFlight(s.consumer) + s.actions
            && s.connections == Connections(s.processed)
            && s.sent <= Sends(s.enqueued)
  {
    RunKeepsInvariant(threads, states, events, i);
    var s := states[i];
    var n := |s.processed|;
    assert s.enqueued[..n] == s.processed;
    SendsOfPrefix(s.enqueued, n);
    if s.consumer.Sending? {
      var a := s.consumer.a;
      assert s.enqueued[..n + 1] == s.processed + [a];
      LogStep(s.processed, a);
      SendsOfPrefix(s.enqueued, n + 1);
      assert s.sent <= s.sent + SendsTo(n, a.msg, s.consumer.todo);
    }
  }

  /** Hence no message is ever sent twice to a handle, or to a handle that was not subscribed when it was enqueued. */
  lemma NothingSentWrongly(threads: nat, states: seq<State>, events: seq<Event>, i: nat, e: Send)
    requires IsRun(threads, states, events) && i < |states|
    ensures multiset(states[i].sent)[e] <= 1
    ensures e in states[i].sent ==> CalledFor(states[i].enqueued, e)
  {
    var s := states[i];
    RunRefinesLog(threads, states, events, i);
    EachMessageSentOnceToSubscribers(s.enqueued, e);
    var all := Sends(s.enqueued);
    assert all == s.sent + all[|s.sent|..];
  }

  /** And what has been processed has been sent: exactly once to exactly the right handles, at every point of every run. */
  lemma ProcessedSentExactlyOnce(threads: nat, states: seq<State>, events: seq<Event>, i: nat, e: Send)
    requires IsRun(threads, states, events) && i < |states| && e.index < |states[i].processed|
    ensures multiset(states[i].sent)[e] == if CalledFor(states[i].processed, e) then 1 else 0
  {
    RunKeepsInvariant(threads, states, events, i);
    HistorySentExactlyOnce(states[i], e);
  }

  lemma HistorySentExactlyOnce(s: State, e: Send)
    requires HistoryMatches(s) && e.index < |s.processed|
    ensures multiset(s.sent)[e] == if CalledFor(s.processed, e) then 1 else 0
  {
    EachMessageSentOnceToSubscribers(s.processed, e);
    hide Connections, Sends, SendsTo, CalledFor;
    if s.consumer.Sending? {
      var n, msg := |s.processed|, s.consumer.a.msg;
      SendsToCounts(n, msg, s.consumer.todo, e);
      SendsToCounts(n, msg, s.connections, e);
      SameCount(s.sent, SendsTo(n, msg, s.consumer.todo), Sends(s.processed), SendsTo(n, msg, s.connections), e);
    }
  }

  lemma SameCount(a: seq<Send>, b: seq<Send>, c: seq<Send>, d: seq<Send>, e: Send)
    requires a + b == c + d && multiset(b)[e] == multiset(d)[e]
    ensures multiset(a)[e] == multiset(c)[e]
  {
    assert multiset(a + b)[e] == multiset(a)[e] + multiset(b)[e];
    assert multiset(c + d)[e] == multiset(c)[e] + multiset(d)[e];
  }

  // ---------------------------------------------------------------------------------------------
  // What is enqueued is what the handlers were called with
  // ---------------------------------------------------------------------------------------------

  /** The last call of a handler on thread `p` before place `i` of a run is at place `j`, with action `a`. */
  ghost predicate LastCall(events: seq<Event>, p: nat, i: nat, j: nat, a: Action) {
    && j < i <= |events| && events[j] == Call(p, a)
    && forall k :: j < k < i ==> !(events[k].Call? && events[k].p == p)
  }

  /** The action that a thread carries is that of its last call. */
  lemma {:induction false} CarriesLastCall(threads: nat, states: seq<State>, events: seq<Event>, i: nat, p: nat) returns (j: nat)
    requires IsRun(threads, states, events) && i < |states| && p < |states[i].producers|
    requires states[i].producers[p].Calling? || states[i].producers[p].Holding?
    ensures LastCall(events, p, i, j, states[i].producers[p].a)
    decreases i
  {
    var e := events[i - 1];
    assert Enabled(states[i - 1], e) && states[i] == After(states[i - 1], e);
    if e.Call? && e.p == p {
      j := i - 1;
    } else {
      j := CarriesLastCall(threads, states, events, i - 1, p);
    }
  }

  /** A push enqueues the action that the thread's handler was last called with. */
  lemma PushEnqueuesLastCall(threads: nat, states: seq<State>, events: seq<Event>, i: nat, p: nat)
    returns (j: nat, a: Action)
    requires IsRun(threads, states, events) && i < |events| && events[i] == Push(p)
    ensures LastCall(events, p, i, j, a) && states[i + 1].enqueued == states[i].enqueued + [a]
  {
    assert Enabled(states[i], events[i]) && states[i + 1] == After(states[i], events[i]);
    a := states[i].producers[p].a;
    j := CarriesLastCall(threads, states, events, i, p);
  }

  /** Nothing else enqueues anything. */
  lemma OnlyPushEnqueues(s: State, e: Event)
    requires Enabled(s, e) && !e.Push?
    ensures After(s, e).enqueued == s.enqueued
  {}

  /** The threads are those of the start, and any of them that is idle can be called with any action. */
  lemma {:induction false} IdleThreadsCanBeCalled(threads: nat, states: seq<State>, events: seq<Event>, i: nat, p: nat, a: Action)
    requires IsRun(threads, states, events) && i < |states| && p < threads
    ensures p < |states[i].producers|
    ensures i == 0 ==> states[i].producers[p] == Idle
    ensures states[i].producers[p] == Idle ==> Enabled(states[i], Call(p, a))
    decreases i
  {
    if i > 0 {
      IdleThreadsCanBeCalled(threads, states, events, i - 1, p, a);
      assert Enabled(states[i - 1], events[i - 1]) && states[i] == After(states[i - 1], events[i - 1]);
    }
  }

  /** How often handlers were called with an action. */
  function Calls(events: seq<Event>, a: Action): nat {
    if events == [] then 0
    else
      var last := events[|events| - 1];
      Calls(events[..|events| - 1], a) + (if last.Call? && last.a == a then 1 else 0)
  }

  predicate Carries(pc: Producer, a: Action) {
    (pc.Calling? || pc.Holding?) && pc.a == a
  }

  /** How many threads have still to push an action. */
  function Carriers(ps: seq<Producer>, a: Action): nat {
    if ps == [] then 0 else Carriers(ps[..|ps| - 1], a) + (if Carries(ps[|ps| - 1], a) then 1 else 0)
  }

  lemma {:induction false} CarriersUpdate(ps: seq<Producer>, p: nat, pc: Producer, a: Action)
    requires p < |ps|
    ensures Carriers(ps[p := pc], a) ==
            Carriers(ps, a) - (if Carries(ps[p], a) then 1 else 0) + (if Carries(pc, a) then 1 else 0)
    decreases |ps|
  {
    hide Carries;
    var n := |ps| - 1;
    if p == n {
      assert ps[p := pc][..n] == ps[..n];
    } else {
      assert ps[p := pc][..n] == ps[..n][p := pc];
      CarriersUpdate(ps[..n], p, pc, a);
    }
  }

  lemma {:induction false} NobodyCarries(ps: seq<Producer>, a: Action)
    requires forall p :: 0 <= p < |ps| ==> ps[p] == Idle
    ensures Carriers(ps, a) == 0
  {
    if ps != [] {
      NobodyCarries(ps[..|ps| - 1], a);
    }
  }

  lemma CallStep(s: State, e: Event, a: Action)
    requires Enabled(s, e)
    ensures var t := After(s, e);
            multiset(t.enqueued)[a] + Carriers(t.producers, a) ==
            multiset(s.enqueued)[a] + Carriers(s.producers, a) + (if e.Call? && e.a == a then 1 else 0)
  {
    hide Carriers;
    match e
    case Call(p, x) => CarriersUpdate(s.producers, p, Calling(x), a);
    case LockActions(p) => CarriersUpdate(s.producers, p, Holding(s.producers[p].a), a);
    case Push(p) => CarriersUpdate(s.producers, p, Pushed, a);
    case UnlockActions(p) => CarriersUpdate(s.producers, p, Notifying, a);
    case Notify(p) => CarriersUpdate(s.producers, p, Idle, a);
    case _ =>
  }

  /** At every point of every run, an action was called as often as it is enqueued or still carried by a thread. */
  lemma {:induction false} CallsAreEnqueuedOrCarried(threads: nat, states: seq<State>, events: seq<Event>, i: nat, a: Action)
    requires IsRun(threads, states, events) && i < |states|
    ensures multiset(states[i].enqueued)[a] + Carriers(states[i].producers, a) == Calls(events[..i], a)
    decreases i
  {
    if i == 0 {
      NobodyCarries(states[0].producers, a);
    } else {
      CallsAreEnqueuedOrCarried(threads, states, events, i - 1, a);
      assert Enabled(states[i - 1], events[i - 1]) && states[i] == After(states[i - 1], events[i - 1]);
      CallStep(states[i - 1], events[i - 1], a);
      assert events[..i][..i - 1] == events[..i - 1];
    }
  }

  // ---------------------------------------------------------------------------------------------
  // Progress: left alone, the server finishes its work
  // ---------------------------------------------------------------------------------------------

  /** Steps of work already under way: neither a new call nor a spurious wake-up. */
  predicate Internal(e: Event) {
    !e.Call? && !e.SpuriousWake?
  }

  function ProducerRank(p: Producer): nat {
    match p
    case Idle => 0
    case Calling(_) => 24
    case Holding(_) => 23
    case Pushed => 22
    case Notifying => 21
  }

  function ProducersRank(ps: seq<Producer>): nat {
    if ps == [] then 0 else ProducersRank(ps[..|ps| - 1]) + ProducerRank(ps[|ps| - 1])
  }

  function ConsumerRank(c: Consumer): nat {
    match c
    case Leaving => 13
    case Start => 12
    case Woken => 12
    case Testing => 11
    case Popped(_) => 10
    case Unlocked(_) => 9
    case InSection(_) => 8
    case Sending(_, _) => 7
    case Sleeping => 1
  }

  /** How many actions are still to be processed: not yet pushed, queued or in flight. */
  function Unpushed(ps: seq<Producer>): nat {
    if ps == [] then 0
    else
      var last := ps[|ps| - 1];
      Unpushed(ps[..|ps| - 1]) + (if last.Calling? || last.Holding? then 1 else 0)
  }

  function Work(s: State): nat {
    Unpushed(s.producers) + |s.actions| + |InFlight(s.consumer)|
  }

  function Rank(s: State): nat {
    ProducersRank(s.producers) + ConsumerRank(s.consumer)
  }

  function Todo(c: Consumer): nat {
    if c.Sending? then |c.todo| else 0
  }

  /** The measure of a state is the triple of Work, Rank and Todo, compared in that order. */
  ghost predicate Smaller(t: State, s: State) {
    || Work(t) < Work(s)
    || (Work(t) == Work(s) && Rank(t) < Rank(s))
    || (Work(t) == Work(s) && Rank(t) == Rank(s) && Todo(t.consumer) < Todo(s.consumer))
  }

  lemma {:induction false} RankUpdate(ps: seq<Producer>, p: nat, pc: Producer)
    requires p < |ps|
    ensures ProducersRank(ps[p := pc]) == ProducersRank(ps) - ProducerRank(ps[p]) + ProducerRank(pc)
    ensures var before, after := (ps[p].Calling? || ps[p].Holding?), (pc.Calling? || pc.Holding?);
            Unpushed(ps[p := pc]) == Unpushed(ps) - (if before then 1 else 0) + (if after then 1 else 0)
  {
    var n := |ps| - 1;
    if p < n {
      assert ps[p := pc][..n] == ps[..n][p := pc];
      RankUpdate(ps[..n], p, pc);
    } else {
      assert ps[p := pc][..n] == ps[..n];
    }
  }

  lemma ConsumerStepsDecrease(s: State, e: Event)
    requires Enabled(s, e) && Internal(e)
    requires !e.LockActions? && !e.Push? && !e.UnlockActions? && !e.Notify?
    ensures Smaller(After(s, e), s)
  {
    hide ProducersRank, Unpushed;
  }

  /** Every internal step makes the measure smaller, so only finitely many can follow one another. */
  lemma InternalStepsDecrease(s: State, e: Event)
    requires Enabled(s, e) && Internal(e)
    ensures Smaller(After(s, e), s)
  {
    hide ProducersRank, Unpushed;
    match e
    case LockActions(p) => RankUpdate(s.producers, p, Holding(s.producers[p].a));
    case Push(p) => RankUpdate(s.producers, p, Pushed);
    case UnlockActions(p) => RankUpdate(s.producers, p, Notifying);
    case Notify(p) => RankUpdate(s.producers, p, Idle);
    case _ => ConsumerStepsDecrease(s, e);
  }

  /** Nothing of the work under way can move. */
  ghost predicate Quiescent(s: State) {
    forall e :: Internal(e) ==> !Enabled(s, e)
  }

  ghost predicate AtRest(s: State) {
    && s.consumer == Sleeping && s.actions == []
    && forall p :: 0 <= p < |s.producers| ==> s.producers[p] == Idle
  }

  /** No deadlock: unless every handler has returned and the consumer sleeps on an empty queue, some step is possible. */
  lemma SomethingMoves(s: State) returns (e: Event)
    requires LocksMatch(s) && NoLostWakeup(s) && !AtRest(s)
    ensures Internal(e) && Enabled(s, e)
  {
    match s.actionLock
    case HeldBy(p) =>
      e := if s.producers[p].Holding? then Push(p) else UnlockActions(p);
    case HeldByConsumer =>
      e := if s.consumer.Popped? then ConsumerUnlock else if s.actions == [] then Wait else Pop;
    case Free =>
      match s.consumer {
        case Start => e := ConsumerLock;
        case Woken => e := ConsumerLock;
        case Unlocked(_) => e := LockConnections;
        case InSection(_) => e := Update;
        case Sending(_, todo) => e := if todo == {} then FinishSending else SendNext;
        case Leaving => e := UnlockConnections;
        case Sleeping =>
          var p :| 0 <= p < |s.producers| && s.producers[p] != Idle;
          e := if s.producers[p].Calling? then LockActions(p) else Notify(p);
        case _ =>
      }
  }

  /** The thread that takes a step; the consumer is the thread after the last producer. */
  function ThreadOf(s: State, e: Event): nat {
    match e
    case Call(p, _) => p
    case LockActions(p) => p
    case Push(p) => p
    case UnlockActions(p) => p
    case Notify(p) => p
    case _ => |s.producers|
  }

  /**
   * The only thing any thread ever waits for is the lock on the queue while another thread holds it; asleep in `wait` the
   * consumer may wake up at any time, and nobody waits for the lock on the connections.
   */
  lemma BlockedOnlyOnQueueLock(s: State, thread: nat)
    requires LocksMatch(s) && thread <= |s.producers|
    ensures (forall e :: Enabled(s, e) ==> ThreadOf(s, e) != thread) <==>
            WantsLock(s, thread) && s.actionLock != Free && !(thread == |s.producers| && s.consumer.Unlocked?)
  {
    if thread == |s.producers| {
      var e := match s.consumer
        case Start => ConsumerLock
        case Testing => if s.actions == [] then Wait else Pop
        case Sleeping => SpuriousWake
        case Woken => ConsumerLock
        case Popped(_) => ConsumerUnlock
        case Unlocked(_) => LockConnections
        case InSection(_) => Update
        case Sending(_, todo) => if todo == {} then FinishSending else SendNext
        case Leaving => UnlockConnections;
      assert ThreadOf(s, e) == thread;
      assert Enabled(s, e) || (WantsLock(s, thread) && s.actionLock != Free && !s.consumer.Unlocked?);
    } else {
      var e := match s.producers[thread]
        case Idle => Call(thread, Subscribe(0))
        case Calling(_) => LockActions(thread)
        case Holding(_) => Push(thread)
        case Pushed => UnlockActions(thread)
        case Notifying => Notify(thread);
      assert ThreadOf(s, e) == thread;
      assert Enabled(s, e) || (WantsLock(s, thread) && s.actionLock != Free);
    }
  }

  /**
   * When a run comes to rest, every handler has returned, the consumer sleeps, each action was enqueued as often as a
   * handler was called with it, everything enqueued has been processed and exactly the sends the log calls for have been
   * made: nothing is stuck and nothing is lost.
   */
  lemma QuiescentMeansDelivered(threads: nat, states: seq<State>, events: seq<Event>, i: nat)
    requires IsRun(threads, states, events) && i < |states| && Quiescent(states[i])
    ensures var s := states[i];
            && (forall p :: 0 <= p < |s.producers| ==> s.producers[p] == Idle)
            && s.consumer == Sleeping && s.actions == []
            && s.processed == s.enqueued && s.sent == Sends(s.enqueued)
            && forall a :: multiset(s.enqueued)[a] == Calls(events[..i], a)
  {
    RunKeepsInvariant(threads, states, events, i);
    var s := states[i];
    if !AtRest(s) {
      var e := SomethingMoves(s);
    }
    hide Connections, Sends, Enabled, IsRun, Calls, Carriers;
    assert s.processed + [] + [] == s.processed;
    forall a ensures multiset(s.enqueued)[a] == Calls(events[..i], a) {
      CallsAreEnqueuedOrCarried(threads, states, events, i, a);
      NobodyCarries(s.producers, a);
    }
  }

  /** Steps of work already under way, one after the other from `s`. */
  ghost predicate InternalRun(s: State, states: seq<State>, events: seq<Event>) {
    && |states| == |events| + 1
    && states[0] == s
    && forall i :: 0 <= i < |events| ==>
         Internal(events[i]) && Enabled(states[i], events[i]) && states[i + 1] == After(states[i], events[i])
  }

  lemma InternalRunCons(s: State, e: Event, states: seq<State>, events: seq<Event>)
    requires Internal(e) && Enabled(s, e) && InternalRun(After(s, e), states, events)
    ensures InternalRun(s, [s] + states, [e] + events)
  {}

  /** No action is lost or made up between two states: it is enqueued or carried by a thread as often. */
  ghost predicate SameActions(s: State, t: State) {
    forall a ::
      multiset(t.enqueued)[a] + Carriers(t.producers, a) == multiset(s.enqueued)[a] + Carriers(s.producers, a)
  }

  lemma InternalKeepsActions(s: State, e: Event)
    requires Enabled(s, e) && Internal(e)
    ensures SameActions(s, After(s, e))
  {
    forall a
      ensures multiset(After(s, e).enqueued)[a] + Carriers(After(s, e).producers, a) ==
              multiset(s.enqueued)[a] + Carriers(s.producers, a)
    {
      CallStep(s, e, a);
    }
  }

  lemma SameActionsOnward(s: State, t: State, u: State)
    requires SameActions(s, t) && SameActions(t, u)
    ensures SameActions(s, u)
  {}

  /**
   * From every state a run can reach, the work under way can be finished, and then what the handlers had been called with
   * is enqueued, no more and no less, and what that asks for is done.
   */
  lemma {:induction false} FinishesFrom(s: State) returns (states: seq<State>, events: seq<Event>)
    requires Inv(s)
    ensures InternalRun(s, states, events)
    ensures var t := states[|events|];
            AtRest(t) && t.processed == t.enqueued && t.sent == Sends(t.enqueued) && SameActions(s, t)
    decreases Work(s), Rank(s), Todo(s.consumer)
  {
    if AtRest(s) {
      states, events := [s], [];
      assert s.processed + [] + [] == s.processed;
    } else {
      var e := SomethingMoves(s);
      Preserved(s, e);
      InternalStepsDecrease(s, e);
      InternalKeepsActions(s, e);
      hide Inv, InternalRun, Enabled, After, AtRest, Work, Rank, SameActions;
      states, events := FinishesFrom(After(s, e));
      SameActionsOnward(s, After(s, e), states[|events|]);
      InternalRunCons(s, e, states, events);
      states, events := [s] + states, [e] + events;
    }
  }

  // ---------------------------------------------------------------------------------------------
  // The steps of one critical section, taken together
  // ---------------------------------------------------------------------------------------------

  function SharedOf(s: State): Shared {
    Shared(s.connections, s.actions, s.processed, s.sent)
  }

  lemma PushQueues(s: State, p: nat)
    requires Enabled(s, Push(p))
    ensures SharedOf(After(s, Push(p))) == Queued(SharedOf(s), s.producers[p].a)
  {}

  /** A step of the consumer after it found the queue not empty. */
  predicate InRound(e: Event) {
    match e
    case Pop | ConsumerUnlock | LockConnections | Update | SendNext | FinishSending | UnlockConnections => true
    case _ => false
  }

  /** The consumer alone goes from `s` through the steps `events` back to the start of its loop, leaving `t`. */
  ghost predicate RoundEnds(s: State, states: seq<State>, events: seq<Event>, t: State) {
    && InternalRun(s, states, events)
    && (forall e :: e in events ==> InRound(e))
    && states[|events|] == t
    && t.consumer == Start && t.actionLock == s.actionLock && t.connectionLock == Free && t.producers == s.producers
  }

  lemma RoundCons(s: State, e: Event, states: seq<State>, events: seq<Event>, t: State)
    requires Enabled(s, e) && InRound(e) && !e.Pop? && !e.ConsumerUnlock? && RoundEnds(After(s, e), states, events, t)
    ensures RoundEnds(s, [s] + states, [e] + events, t)
  {
    InternalRunCons(s, e, states, events);
    hide InternalRun;
    assert ([s] + states)[|[e] + events|] == states[|events|];
  }

  lemma LeaveSection(s: State) returns (states: seq<State>, events: seq<Event>, t: State)
    requires s.consumer == Leaving
    ensures RoundEnds(s, states, events, t) && SharedOf(t) == SharedOf(s)
  {
    t := After(s, UnlockConnections);
    states, events := [s, t], [UnlockConnections];
  }

  lemma {:induction false} SendRest(s: State) returns (states: seq<State>, events: seq<Event>, t: State)
    requires s.consumer.Sending? && s.consumer.a.Message?
    ensures RoundEnds(s, states, events, t)
    ensures var a := s.consumer.a;
            SharedOf(t) == Shared(s.connections, s.actions, s.processed + [a],
                                  s.sent + SendsTo(|s.processed|, a.msg, s.consumer.todo))
    decreases |s.consumer.todo|
  {
    var e := if s.consumer.todo == {} then FinishSending else SendNext;
    var u := After(s, e);
    hide RoundEnds;
    if s.consumer.todo == {} {
      states, events, t := LeaveSection(u);
      assert s.sent + [] == s.sent;
    } else {
      states, events, t := SendRest(u);
      var first, rest := Least(s.consumer.todo), s.consumer.todo - {Least(s.consumer.todo)};
      var n, msg := |s.processed|, s.consumer.a.msg;
      assert s.sent + ([Send(n, first, msg)] + SendsTo(n, msg, rest)) == (s.sent + [Send(n, first, msg)]) + SendsTo(n, msg, rest);
    }
    RoundCons(s, e, states, events, t);
    states, events := [s] + states, [e] + events;
  }

  lemma InsideSection(s: State) returns (states: seq<State>, events: seq<Event>, t: State)
    requires s.consumer.Unlocked? && s.connectionLock == Free
    ensures RoundEnds(s, states, events, t)
    ensures var a := s.consumer.a;
            SharedOf(t) == Shared(Apply(s.connections, a), s.actions, s.processed + [a],
                                  s.sent + SendsOf(|s.processed|, a, s.connections))
  {
    var u := After(s, LockConnections);
    var v := After(u, Update);
    hide RoundEnds, SendsTo;
    if s.consumer.a.Message? {
      states, events, t := SendRest(v);
    } else {
      states, events, t := LeaveSection(v);
      assert s.sent + [] == s.sent;
    }
    RoundCons(u, Update, states, events, t);
    states, events := [u] + states, [Update] + events;
    RoundCons(s, LockConnections, states, events, t);
    states, events := [s] + states, [LockConnections] + events;
  }

  /** From the moment the consumer finds the queue not empty, its own steps amount to one round and release both locks. */
  lemma RoundOfSteps(s: State) returns (states: seq<State>, events: seq<Event>)
    requires LocksMatch(s) && Enabled(s, Pop)
    ensures InternalRun(s, states, events) && (forall e :: e in events ==> InRound(e))
    ensures var t := states[|events|];
            && SharedOf(t) == Round(SharedOf(s))
            && t.consumer == Start && t.actionLock == Free && t.connectionLock == Free && t.producers == s.producers
  {
    var u := After(s, Pop);
    var v := After(u, ConsumerUnlock);
    var t;
    states, events, t := InsideSection(v);
    hide InternalRun, SendsOf;
    InternalRunCons(u, ConsumerUnlock, states, events);
    states, events := [u] + states, [ConsumerUnlock] + events;
    InternalRunCons(s, Pop, states, events);
    states, events := [s] + states, [Pop] + events;
  }
}

/** The bodies of the critical sections, run one at a time. */
module BroadcastSections {
  import opened BroadcastLog

  class Server {
    var connections: set<Hdl>
    var actions: seq<Action>

    /** The actions taken off the queue so far, and every call of `m_server.send`. */
    ghost var processed: seq<Action>
    ghost var sent: seq<Send>

    ghost function Value(): Shared
      reads this
    {
      Shared(connections, actions, processed, sent)
    }

    ghost predicate Valid()
      reads this
    {
      connections == Connections(processed) && sent == Sends(processed)
    }

    constructor ()
      ensures Valid() && Value() == Shared({}, [], [], [])
    {
      connections, actions, processed, sent := {}, [], [], [];
    }

    method OnOpen(hdl: Hdl)
      modifies this`actions
      ensures Value() == Queued(old(Value()), Subscribe(hdl))
    {
      actions := actions + [Subscribe(hdl)];
    }

    method OnClose(hdl: Hdl)
      modifies this`actions
      ensures Value() == Queued(old(Value()), Unsubscribe(hdl))
    {
      actions := actions + [Unsubscribe(hdl)];
    }

    method OnMessage(hdl: Hdl, msg: Payload)
      modifies this`actions
      ensures Value() == Queued(old(Value()), Message(hdl, msg))
    {
      actions := actions + [Message(hdl, msg)];
    }

    /** One round of `process_messages` once the queue is not empty. */
    method ProcessNext()
      requires actions != []
      modifies this
      ensures Value() == Round(old(Value()))
      ensures old(Valid()) ==> Valid()
    {
      var a := actions[0];
      actions := actions[1..];
      LogStep(processed, a);
      match a {
        case Subscribe(h) => connections := connections + {h};
        case Unsubscribe(h) => connections := connections - {h};
        case Message(_, msg) => Broadcast(msg);
      }
      processed := processed + [a];
    }

    /** The loop over the connections, in the order of the handles. */
    method Broadcast(msg: Payload)
      modifies this`sent
      ensures sent == old(sent) + SendsTo(|processed|, msg, connections)
    {
      var todo := connections;
      assert sent + SendsTo(|processed|, msg, todo) == old(sent) + SendsTo(|processed|, msg, connections);
      while todo != {}
        invariant sent + SendsTo(|processed|, msg, todo) == old(sent) + SendsTo(|processed|, msg, connections)
      {
        LeastExists(todo);
        var it :| it in todo && forall x :: x in todo ==> it <= x;
        assert it == Least(todo);
        var e := Send(|processed|, it, msg);
        assert sent + ([e] + SendsTo(|processed|, msg, todo - {it})) == (sent + [e]) + SendsTo(|processed|, msg, todo - {it});
        sent := sent + [e];
        todo := todo - {it};
      }
      assert sent + [] == sent;
    }
  }
}
