/**
 * The mode controller of the camera server in broadcastTest.cpp: commands switch modes, and a ticking loop sends images
 * while streaming and a bounded number of text messages for each data request.
 */
module CameraServer {
  type Hdl = nat

  datatype Handle = NoHandle | Handle(hdl: Hdl)

  datatype ActionType = SUBSCRIBE | UNSUBSCRIBE | MESSAGE

  /** What a tick sends. */
  datatype Sent = Image(to: Hdl) | Text(to: Hdl)

  /** An action taken off the queue, or one round of the sending loop; `found`: the handle is among the connections. */
  datatype Event =
    | Dequeue(kind: ActionType, hdl: Hdl, payload: string)
    | Tick(found: bool)

  /** The flags and counter of the server and, as history, what it sent and how many requests it took up and finished. */
  datatype State = State(
    b: Handle,
    stopStreaming: bool,
    getData: bool,
    count: nat,
    sent: seq<Sent>,
    accepted: nat,
    episodes: nat)

  const INITIAL: State := State(NoHandle, false, false, 0, [], 0, 0)

  function OnDequeue(s: State, kind: ActionType, hdl: Hdl, payload: string): State {
    var t := s.(b := Handle(hdl));
    if kind != MESSAGE then t
    else if payload == "stop_streaming" then t.(stopStreaming := true)
    else if payload == "start_stream" then t.(stopStreaming := false)
    else if payload == "get_data" then
      t.(stopStreaming := true, getData := true, accepted := s.accepted + (if s.getData then 0 else 1))
    else t
  }

  function OnTick(max: nat, s: State, found: bool): State {
    if s.b == NoHandle || !found then s
    else if !s.stopStreaming && !s.getData then s.(sent := s.sent + [Image(s.b.hdl)])
    else if !s.getData then s
    else if s.count < max then s.(sent := s.sent + [Text(s.b.hdl)], count := s.count + 1)
    else s.(stopStreaming := false, getData := false, count := 0, episodes := s.episodes + 1)
  }

  function Step(max: nat, s: State, e: Event): State {
    match e
    case Dequeue(kind, hdl, payload) => OnDequeue(s, kind, hdl, payload)
    case Tick(found) => OnTick(max, s, found)
  }

  function Run(max: nat, s: State, events: seq<Event>): State {
    if events == [] then s else Step(max, Run(max, s, events[..|events| - 1]), events[|events| - 1])
  }

  /** The code. The handle lookup is an input of each tick; commands and ticks are atomic. */
  class Server {
    const max: nat
    var b: Handle
    var stopStreaming: bool
    var getData: bool
    var client2DataCount: nat
    ghost var sent: seq<Sent>
    ghost var accepted: nat
    ghost var episodes: nat

    ghost function Value(): State
      reads this
    {
      State(b, stopStreaming, getData, client2DataCount, sent, accepted, episodes)
    }

    constructor (max: nat)
      ensures this.max == max && Value() == INITIAL
    {
      this.max := max;
      b, stopStreaming, getData, client2DataCount := NoHandle, false, false, 0;
      sent, accepted, episodes := [], 0, 0;
    }

    /** One round of `process_messages` after the wait. */
    method Process(kind: ActionType, hdl: Hdl, payload: string)
      modifies this
      ensures Value() == Step(max, old(Value()), Dequeue(kind, hdl, payload))
    {
      b := Handle(hdl);
      match kind {
        case SUBSCRIBE =>
        case UNSUBSCRIBE =>
        case MESSAGE =>
          if payload == "stop_streaming" {
            stopStreaming := true;
          } else if payload == "start_stream" {
            stopStreaming := false;
          } else if payload == "get_data" {
            accepted := accepted + (if getData then 0 else 1);
            stopStreaming := true;
            getData := true;
          }
      }
    }

    /** One round of `looping`. */
    method Loop(found: bool)
      modifies this
      ensures Value() == Step(max, old(Value()), Tick(found))
    {
      if b != NoHandle {
        if found {
          if stopStreaming == false && getData == false {
            sent := sent + [Image(b.hdl)];
          } else if getData == true {
            if client2DataCount < max {
              sent := sent + [Text(b.hdl)];
              client2DataCount := client2DataCount + 1;
            } else {
              stopStreaming := false;
              getData := false;
              client2DataCount := 0;
              episodes := episodes + 1;
            }
          }
        }
      }
    }
  }

  // ---------------------------------------------------------------------------------------------
  // Every run
  // ---------------------------------------------------------------------------------------------

  function Texts(sent: seq<Sent>): nat {
    if sent == [] then 0 else Texts(sent[..|sent| - 1]) + (if sent[|sent| - 1].Text? then 1 else 0)
  }

  lemma {:induction false} TextsAppend(sent: seq<Sent>, x: Sent)
    ensures Texts(sent + [x]) == Texts(sent) + (if x.Text? then 1 else 0)
  {}

  ghost predicate Inv(max: nat, s: State) {
    && s.count <= max
    && (!s.getData ==> s.count == 0)
    && (s.getData ==> s.b != NoHandle)
    && Texts(s.sent) == max * s.episodes + s.count
    && s.accepted == s.episodes + (if s.getData then 1 else 0)
  }

  lemma DequeueKeepsInvariant(max: nat, s: State, kind: ActionType, hdl: Hdl, payload: string)
    requires Inv(max, s)
    ensures Inv(max, OnDequeue(s, kind, hdl, payload))
  {
    hide Texts;
  }

  lemma TickKeepsInvariant(max: nat, s: State, found: bool)
    requires Inv(max, s)
    ensures Inv(max, OnTick(max, s, found))
  {
    hide Texts;
    if s.b != NoHandle && found {
      if !s.stopStreaming && !s.getData {
        TextsAppend(s.sent, Image(s.b.hdl));
      } else if s.getData && s.count < max {
        TextsAppend(s.sent, Text(s.b.hdl));
      } else if s.getData {
        assert max * (s.episodes + 1) == max * s.episodes + max;
      }
    }
  }

  lemma StepKeepsInvariant(max: nat, s: State, e: Event)
    requires Inv(max, s)
    ensures Inv(max, Step(max, s, e))
  {
    hide Inv, OnDequeue, OnTick;
    match e
    case Dequeue(kind, hdl, payload) => DequeueKeepsInvariant(max, s, kind, hdl, payload);
    case Tick(found) => TickKeepsInvariant(max, s, found);
  }

  predicate IsGetData(e: Event) {
    e.Dequeue? && e.kind == MESSAGE && e.payload == "get_data"
  }

  /** The get_data commands of a run. */
  function GetDataCommands(events: seq<Event>): nat {
    if events == [] then 0
    else GetDataCommands(events[..|events| - 1]) + (if IsGetData(events[|events| - 1]) then 1 else 0)
  }

  /** Those that found no request pending, each of which starts one. */
  function RequestsStarted(max: nat, events: seq<Event>): nat {
    if events == [] then 0
    else
      var front, e := events[..|events| - 1], events[|events| - 1];
      RequestsStarted(max, front) + (if IsGetData(e) && !Run(max, INITIAL, front).getData then 1 else 0)
  }

  /**
   * Conservation, in every run: texts sent are `max` for each finished episode and the counter for the current one, and
   * finished episodes and the pending one are the requests started, never more than the get_data commands.
   */
  lemma {:induction false} RunKeepsInvariant(max: nat, events: seq<Event>)
    ensures var s := Run(max, INITIAL, events);
            && Inv(max, s)
            && s.episodes + (if s.getData then 1 else 0) == RequestsStarted(max, events) <= GetDataCommands(events)
    decreases |events|
  {
    if events != [] {
      var front, e := events[..|events| - 1], events[|events| - 1];
      RunKeepsInvariant(max, front);
      StepKeepsInvariant(max, Run(max, INITIAL, front), e);
      hide Inv, Texts;
    }
  }

  /** In every run an image goes out only when every request started so far has been answered in full. */
  lemma ImagesOnlyBetweenRequests(max: nat, events: seq<Event>, e: Event, to: Hdl)
    requires Step(max, Run(max, INITIAL, events), e).sent == Run(max, INITIAL, events).sent + [Image(to)]
    ensures var s := Run(max, INITIAL, events);
            s.episodes == RequestsStarted(max, events) && Texts(s.sent) == max * RequestsStarted(max, events)
  {
    RunKeepsInvariant(max, events);
    var s := Run(max, INITIAL, events);
    hide Texts, Run, RequestsStarted;
    assert (s.sent + [Image(to)])[|s.sent|] == Image(to);
  }

  /** The ticks at which the handle was found. */
  function FoundTicks(events: seq<Event>): nat {
    if events == [] then 0
    else FoundTicks(events[..|events| - 1]) + (if events[|events| - 1] == Tick(true) then 1 else 0)
  }

  /**
   * While a request is pending, nothing but ticks that find the handle matters to it: whatever commands come in between,
   * the first max - count of those ticks send one text each and nothing else is sent.
   */
  lemma {:induction false} PendingGoesOn(max: nat, s: State, events: seq<Event>)
    requires Inv(max, s) && s.getData && FoundTicks(events) <= max - s.count
    ensures var t := Run(max, s, events);
            && Inv(max, t) && t.getData && t.count == s.count + FoundTicks(events)
            && t.episodes == s.episodes && t.accepted == s.accepted
            && |t.sent| == |s.sent| + FoundTicks(events) && t.sent[..|s.sent|] == s.sent
            && forall i :: |s.sent| <= i < |t.sent| ==> t.sent[i].Text?
    decreases |events|
  {
    hide Texts;
    if events != [] {
      var front := events[..|events| - 1];
      PendingGoesOn(max, s, front);
      StepKeepsInvariant(max, Run(max, s, front), events[|events| - 1]);
    }
  }

  /** The next such tick ends the request: streaming resumes, even if a stop command came in meanwhile. */
  lemma RequestEndsExactly(max: nat, s: State, events: seq<Event>)
    requires Inv(max, s) && s.getData && FoundTicks(events) == max - s.count
    ensures var t := Run(max, s, events + [Tick(true)]);
            && !t.getData && !t.stopStreaming && t.count == 0
            && t.episodes == s.episodes + 1 && Texts(t.sent) == max * t.episodes
            && |t.sent| == |s.sent| + (max - s.count)
  {
    PendingGoesOn(max, s, events);
    var all := events + [Tick(true)];
    assert all[..|all| - 1] == events;
    StepKeepsInvariant(max, Run(max, s, events), Tick(true));
    hide Texts;
  }

  lemma {:induction false} AllFound(n: nat)
    ensures FoundTicks(seq(n, _ => Tick(true))) == n
  {
    if n > 0 {
      assert seq(n, _ => Tick(true))[..n - 1] == seq(n - 1, _ => Tick(true));
      AllFound(n - 1);
    }
  }

  /** With no further commands and the handle found, a request is pending for exactly max - count + 1 ticks. */
  lemma ReturnsAfterExactlyQuota(max: nat, s: State, n: nat)
    requires Inv(max, s) && s.getData && n <= max - s.count + 1
    ensures var t := Run(max, s, seq(n, _ => Tick(true)));
            t.getData <==> n < max - s.count + 1
    ensures var t := Run(max, s, seq(max - s.count + 1, _ => Tick(true)));
            !t.getData && !t.stopStreaming
  {
    var k := max - s.count;
    AllFound(n);
    AllFound(k);
    if n <= k {
      PendingGoesOn(max, s, seq(n, _ => Tick(true)));
    }
    RequestEndsExactly(max, s, seq(k, _ => Tick(true)));
    assert seq(k + 1, _ => Tick(true)) == seq(k, _ => Tick(true)) + [Tick(true)];
  }

  /** The last action of a run went to `hdl` at place `i`: nothing but ticks follows it. */
  ghost predicate LastDequeued(events: seq<Event>, i: nat, hdl: Hdl) {
    && i < |events| && events[i].Dequeue? && events[i].hdl == hdl
    && forall j :: i < j < |events| ==> events[j].Tick?
  }

  lemma {:induction false} HandleIsLastDequeued(max: nat, events: seq<Event>, hdl: Hdl)
    ensures Run(max, INITIAL, events).b == Handle(hdl) <==> exists i :: LastDequeued(events, i, hdl)
    decreases |events|
  {
    if events != [] {
      var n := |events| - 1;
      var front, e := events[..n], events[n];
      HandleIsLastDequeued(max, front, hdl);
      if e.Dequeue? {
        assert e.hdl == hdl ==> LastDequeued(events, n, hdl);
      } else {
        if i :| LastDequeued(front, i, hdl) {
          assert LastDequeued(events, i, hdl);
        }
        if i :| LastDequeued(events, i, hdl) {
          assert LastDequeued(front, i, hdl);
        }
      }
    }
  }

  /** In every run, a tick sends at most one message, and only to the handle of the last action taken off the queue. */
  lemma TickSendsToLastDequeued(max: nat, events: seq<Event>, found: bool)
    ensures var s, t := Run(max, INITIAL, events), Run(max, INITIAL, events + [Tick(found)]);
            t.sent == s.sent ||
            exists x, i :: t.sent == s.sent + [x] && LastDequeued(events, i, x.to)
  {
    var s, t := Run(max, INITIAL, events), Run(max, INITIAL, events + [Tick(found)]);
    assert (events + [Tick(found)])[..|events|] == events;
    if t.sent != s.sent {
      var x := t.sent[|s.sent|];
      assert t.sent == s.sent + [x];
      HandleIsLastDequeued(max, events, x.to);
      var i :| LastDequeued(events, i, x.to);
    }
  }

  /** Stopped means silent: until a start or a request comes, nothing is sent, whatever else happens. */
  lemma {:induction false} StopHolds(max: nat, s: State, events: seq<Event>)
    requires s.stopStreaming && !s.getData
    requires forall e :: e in events && e.Dequeue? && e.kind == MESSAGE ==> e.payload != "start_stream" && e.payload != "get_data"
    ensures var t := Run(max, s, events); t.stopStreaming && !t.getData && t.sent == s.sent
    decreases |events|
  {
    if events != [] {
      StopHolds(max, s, events[..|events| - 1]);
      assert events[|events| - 1] in events;
    }
  }

  // ---------------------------------------------------------------------------------------------
  // What is sent, read off the events alone
  // ---------------------------------------------------------------------------------------------

  function HandleAfter(before: Handle, e: Event): Handle {
    if e.Dequeue? then Handle(e.hdl) else before
  }

  /** The handle of the last action taken off the queue. */
  function LastHandle(before: Handle, events: seq<Event>): Handle {
    if events == [] then before else HandleAfter(LastHandle(before, events[..|events| - 1]), events[|events| - 1])
  }

  function StoppedAfter(before: bool, e: Event): bool {
    if e.Dequeue? && e.kind == MESSAGE && (e.payload == "stop_streaming" || e.payload == "get_data") then true
    else if e.Dequeue? && e.kind == MESSAGE && e.payload == "start_stream" then false
    else before
  }

  /** Whether the last command was one that stops the stream, as a request does too. */
  function Stopped(before: bool, events: seq<Event>): bool {
    if events == [] then before else StoppedAfter(Stopped(before, events[..|events| - 1]), events[|events| - 1])
  }

  /** One image for each tick that finds the handle while nothing has stopped the stream, to the last handle. */
  function Images(b: Handle, stopped: bool, events: seq<Event>): seq<Sent> {
    if events == [] then []
    else
      var front, e := events[..|events| - 1], events[|events| - 1];
      Images(b, stopped, front) +
      (if e == Tick(true) && !Stopped(stopped, front) && LastHandle(b, front).Handle?
       then [Image(LastHandle(b, front).hdl)] else [])
  }

  /** One text for each tick that finds the handle, to the last handle. */
  function Answers(b: Handle, events: seq<Event>): seq<Sent> {
    if events == [] then []
    else
      var front, e := events[..|events| - 1], events[|events| - 1];
      Answers(b, front) +
      (if e == Tick(true) && LastHandle(b, front).Handle? then [Text(LastHandle(b, front).hdl)] else [])
  }

  /**
   * With no request pending and none coming, exactly the images that the events call for are sent: streaming goes on from
   * tick to tick until a stop command, and again from a start command.
   */
  lemma {:induction false} StreamsUnlessStopped(max: nat, s: State, events: seq<Event>)
    requires !s.getData && forall e :: e in events ==> !IsGetData(e)
    ensures var t := Run(max, s, events);
            && t.sent == s.sent + Images(s.b, s.stopStreaming, events)
            && t.b == LastHandle(s.b, events) && t.stopStreaming == Stopped(s.stopStreaming, events)
            && !t.getData && t.count == s.count
    decreases |events|
  {
    if events != [] {
      var front, e := events[..|events| - 1], events[|events| - 1];
      assert e in events;
      StreamsUnlessStopped(max, s, front);
    }
  }

  /** In particular every run without requests sends exactly the images its events call for. */
  lemma RunSendsImages(max: nat, events: seq<Event>)
    requires forall e :: e in events ==> !IsGetData(e)
    ensures Run(max, INITIAL, events).sent == Images(NoHandle, false, events)
  {
    StreamsUnlessStopped(max, INITIAL, events);
  }

  /** And while it streams, n ticks that find the handle send n images. */
  lemma {:induction false} TicksStream(max: nat, s: State, n: nat)
    requires !s.getData && !s.stopStreaming && s.b.Handle?
    ensures var t := Run(max, s, seq(n, _ => Tick(true)));
            t == s.(sent := s.sent + seq(n, _ => Image(s.b.hdl)))
  {
    if n > 0 {
      assert seq(n, _ => Tick(true))[..n - 1] == seq(n - 1, _ => Tick(true));
      TicksStream(max, s, n - 1);
      assert seq(n, _ => Image(s.b.hdl)) == seq(n - 1, _ => Image(s.b.hdl)) + [Image(s.b.hdl)];
    } else {
      assert s.sent + seq(0, _ => Image(s.b.hdl)) == s.sent;
    }
  }

  lemma PendingStep(max: nat, s: State, e: Event)
    requires Inv(max, s) && s.getData && (e == Tick(true) ==> s.count < max)
    ensures var t := Step(max, s, e);
            && t.getData && t.b == HandleAfter(s.b, e) && t.stopStreaming == StoppedAfter(s.stopStreaming, e)
            && t.sent == s.sent + (if e == Tick(true) && s.b.Handle? then [Text(s.b.hdl)] else [])
  {
    hide Texts;
  }

  /** While a request is pending, exactly the texts that the events call for are sent. */
  lemma {:induction false} PendingSendsAnswers(max: nat, s: State, events: seq<Event>)
    requires Inv(max, s) && s.getData && FoundTicks(events) <= max - s.count
    ensures var t := Run(max, s, events);
            && t.sent == s.sent + Answers(s.b, events)
            && t.b == LastHandle(s.b, events) && t.stopStreaming == Stopped(s.stopStreaming, events)
    decreases |events|
  {
    if events == [] {
      assert s.sent + [] == s.sent;
      return;
    }
    var front, e := events[..|events| - 1], events[|events| - 1];
    PendingGoesOn(max, s, front);
    PendingSendsAnswers(max, s, front);
    hide Texts, HandleAfter, StoppedAfter, Inv, Step;
    PendingStep(max, Run(max, s, front), e);
  }

  /**
   * A request from beginning to end, whatever commands come in between: the command stops the stream, the next max ticks
   * that find the handle send one text each, and the one after them sends nothing and sets the stream going again.
   */
  lemma RequestIsAnswered(max: nat, s: State, from: Hdl, mid: seq<Event>)
    requires Inv(max, s) && !s.getData && FoundTicks(mid) == max
    ensures var asked := Step(max, s, Dequeue(MESSAGE, from, "get_data"));
            && asked.getData && asked.stopStreaming && asked.b == Handle(from) && asked.sent == s.sent
            && Run(max, asked, mid).stopStreaming == Stopped(true, mid)
    ensures var asked := Step(max, s, Dequeue(MESSAGE, from, "get_data"));
            var t := Run(max, asked, mid + [Tick(true)]);
            && t.sent == s.sent + Answers(Handle(from), mid)
            && t.b == LastHandle(Handle(from), mid) && !t.getData && !t.stopStreaming && t.count == 0
  {
    var asked := Step(max, s, Dequeue(MESSAGE, from, "get_data"));
    StepKeepsInvariant(max, s, Dequeue(MESSAGE, from, "get_data"));
    PendingSendsAnswers(max, asked, mid);
    PendingGoesOn(max, asked, mid);
    assert (mid + [Tick(true)])[..|mid|] == mid;
    hide Texts, Answers, Stopped, LastHandle;
  }
}
