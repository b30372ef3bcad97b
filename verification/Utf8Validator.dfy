/** UTF-8 validation: the packed-table automaton of utf8_validator.hpp and what it recognises. */
module Utf8Validator {
  import opened Bytes

  // ---------------------------------------------------------------------------------------------
  // The encoding form of RFC 3629, section 3: the independent definition of "valid UTF-8"
  // ---------------------------------------------------------------------------------------------

  /** A Unicode scalar value: at most 0x10FFFF and not a surrogate. */
  type Scalar = v: bv32 | v <= 0x10FFFF && !(0xD800 <= v <= 0xDFFF)

  function EncodeScalar(v: Scalar): (s: seq<Byte>)
    ensures 1 <= |s| <= 4
  {
    if v <= 0x7F then
      [v as Byte]
    else if v <= 0x7FF then
      [(0xC0 | (v >> 6)) as Byte, Continuation(v)]
    else if v <= 0xFFFF then
      [(0xE0 | (v >> 12)) as Byte, Continuation(v >> 6), Continuation(v)]
    else
      [(0xF0 | (v >> 18)) as Byte, Continuation(v >> 12), Continuation(v >> 6), Continuation(v)]
  }

  /** A continuation byte carries the low six bits of `x`. */
  function Continuation(x: bv32): Byte {
    (0x80 | (x & 0x3F)) as Byte
  }

  function Encode(vs: seq<Scalar>): seq<Byte> {
    if vs == [] then [] else EncodeScalar(vs[0]) + Encode(vs[1..])
  }

  ghost predicate WellFormed(s: seq<Byte>) {
    exists vs: seq<Scalar> :: Encode(vs) == s
  }

  // ---------------------------------------------------------------------------------------------
  // The automaton, table-free
  // ---------------------------------------------------------------------------------------------

  const ACCEPT: nat := 0
  const REJECT: nat := 1
  const STATES: nat := 9

  /** The class of a byte: which column of the transition table it selects. */
  function ByteClass(b: Byte): nat {
    var n := b as int;
    if n < 0x80 then 0
    else if n < 0x90 then 1
    else if n < 0xA0 then 9
    else if n < 0xC0 then 7
    else if n < 0xC2 then 8
    else if n < 0xE0 then 2
    else if n == 0xE0 then 10
    else if n == 0xED then 4
    else if n < 0xF0 then 3
    else if n == 0xF0 then 11
    else if n < 0xF4 then 6
    else if n == 0xF4 then 5
    else 8
  }

  /**
   * States 2 and 3 and 7 want one, two and three more continuation bytes; 4 (after E0), 5 (after ED), 6 (after F0)
   * and 8 (after F4) restrict the second byte so that overlong forms, surrogates and values above 0x10FFFF are refused.
   */
  function NextState(q: nat, b: Byte): (r: nat)
    requires q < STATES
    ensures r < STATES
  {
    match q
    case 0 =>
      if b < 0x80 then ACCEPT
      else if b < 0xC2 then REJECT
      else if b < 0xE0 then 2
      else if b == 0xE0 then 4
      else if b == 0xED then 5
      else if b < 0xF0 then 3
      else if b == 0xF0 then 6
      else if b < 0xF4 then 7
      else if b == 0xF4 then 8
      else REJECT
    case 2 => if 0x80 <= b < 0xC0 then ACCEPT else REJECT
    case 3 => if 0x80 <= b < 0xC0 then 2 else REJECT
    case 4 => if 0xA0 <= b < 0xC0 then 2 else REJECT
    case 5 => if 0x80 <= b < 0xA0 then 2 else REJECT
    case 6 => if 0x90 <= b < 0xC0 then 3 else REJECT
    case 7 => if 0x80 <= b < 0xC0 then 3 else REJECT
    case 8 => if 0x80 <= b < 0x90 then 3 else REJECT
    case _ => REJECT
  }

  /** The code point register after one byte. */
  function NextCode(q: nat, code: bv32, b: Byte): bv32 {
    if q != ACCEPT then PushBits(code, b) else ((0xFF as bv32) >> ByteClass(b)) & (b as bv32)
  }

  /** Makes room for six more bits and takes them from a continuation byte. */
  function PushBits(code: bv32, b: Byte): bv32 {
    ((b & 0x3F) as bv32) | (code << 6)
  }

  /** The payload bits of a lead byte as RFC 3629, section 3 lays them out. */
  function LeadPayload(b: Byte): bv32 {
    if b < 0x80 then b as bv32
    else if b < 0xE0 then (b & 0x1F) as bv32
    else if b < 0xF0 then (b & 0x0F) as bv32
    else (b & 0x07) as bv32
  }

  /** Shifting 0xFF by the byte class leaves exactly the payload bits, for every byte that can start a sequence. */
  lemma LeadMaskIsPayload(code: bv32, b: Byte)
    requires NextState(ACCEPT, b) != REJECT
    ensures NextCode(ACCEPT, code, b) == LeadPayload(b)
  {}

  /** The state after a string. */
  function Run(q: nat, s: seq<Byte>): (r: nat)
    requires q < STATES
    ensures r < STATES
    decreases |s|
  {
    if s == [] then q else Run(NextState(q, s[0]), s[1..])
  }

  /** The code point register after a string. */
  function RunCode(q: nat, code: bv32, s: seq<Byte>): bv32
    requires q < STATES
    decreases |s|
  {
    if s == [] then code else RunCode(NextState(q, s[0]), NextCode(q, code, s[0]), s[1..])
  }

  /** The code points read off each time a byte takes the automaton to the accepting state. */
  function Outputs(q: nat, code: bv32, s: seq<Byte>): seq<bv32>
    requires q < STATES
    decreases |s|
  {
    if s == [] then []
    else
      var q', code' := NextState(q, s[0]), NextCode(q, code, s[0]);
      (if q' == ACCEPT then [code'] else []) + Outputs(q', code', s[1..])
  }

  // ---------------------------------------------------------------------------------------------
  // Every encoding is accepted, and read back
  // ---------------------------------------------------------------------------------------------

  lemma StatesOfTwo(v: Scalar)
    requires 0x7F < v <= 0x7FF
    ensures NextState(ACCEPT, (0xC0 | (v >> 6)) as Byte) == 2 && NextState(2, Continuation(v)) == ACCEPT
  {}

  lemma CodeOfTwo(v: Scalar)
    requires 0x7F < v <= 0x7FF
    ensures PushBits(LeadPayload((0xC0 | (v >> 6)) as Byte), Continuation(v)) == v
  {}

  lemma StatesOfThree(v: Scalar)
    requires 0x7FF < v <= 0xFFFF
    ensures var q0 := NextState(ACCEPT, (0xE0 | (v >> 12)) as Byte);
            && 3 <= q0 <= 5
            && NextState(q0, Continuation(v >> 6)) == 2
            && NextState(2, Continuation(v)) == ACCEPT
  {}

  lemma CodeOfThree(v: Scalar)
    requires 0x7FF < v <= 0xFFFF
    ensures var c0 := LeadPayload((0xE0 | (v >> 12)) as Byte);
            PushBits(PushBits(c0, Continuation(v >> 6)), Continuation(v)) == v
  {}

  lemma StatesOfFour(v: Scalar)
    requires 0xFFFF < v
    ensures var q0 := NextState(ACCEPT, (0xF0 | (v >> 18)) as Byte);
            && 6 <= q0 <= 8
            && NextState(q0, Continuation(v >> 12)) == 3
            && NextState(3, Continuation(v >> 6)) == 2
            && NextState(2, Continuation(v)) == ACCEPT
  {}

  lemma CodeOfFour(v: Scalar)
    requires 0xFFFF < v
    ensures var c0 := LeadPayload((0xF0 | (v >> 18)) as Byte);
            PushBits(PushBits(PushBits(c0, Continuation(v >> 12)), Continuation(v >> 6)), Continuation(v)) == v
  {}

  /** `s` takes the automaton from `q` to accept, and not before its last byte. */
  ghost predicate ReturnsOnce(q: nat, s: seq<Byte>)
    requires q < STATES
    decreases |s|
  {
    && s != []
    && (NextState(q, s[0]) == ACCEPT <==> |s| == 1)
    && (|s| > 1 ==> ReturnsOnce(NextState(q, s[0]), s[1..]))
  }

  /** A string that returns to accept once contributes exactly one output. */
  lemma {:induction false} WalkBlock(q: nat, code: bv32, s: seq<Byte>, rest: seq<Byte>)
    requires q < STATES && ReturnsOnce(q, s)
    ensures Run(q, s + rest) == Run(ACCEPT, rest)
    ensures var c := RunCode(q, code, s); Outputs(q, code, s + rest) == [c] + Outputs(ACCEPT, c, rest)
    decreases |s|
  {
    assert (s + rest)[1..] == s[1..] + rest;
    if |s| == 1 {
      assert s[1..] + rest == rest;
    } else {
      WalkBlock(NextState(q, s[0]), NextCode(q, code, s[0]), s[1..], rest);
    }
  }

  /** A block of two to four bytes, spelled out. */
  lemma Block2(q: nat, code: bv32, s: seq<Byte>)
    requires q < STATES && |s| == 2
    requires NextState(q, s[0]) == 2 && NextState(2, s[1]) == ACCEPT
    ensures ReturnsOnce(q, s)
    ensures RunCode(q, code, s) == PushBits(NextCode(q, code, s[0]), s[1])
  {
    var t := s[1..];
    assert t == [s[1]] && t[1..] == [];
    assert RunCode(2, NextCode(q, code, s[0]), t) == RunCode(ACCEPT, PushBits(NextCode(q, code, s[0]), s[1]), []);
  }

  lemma Block3(q: nat, code: bv32, s: seq<Byte>)
    requires q < STATES && |s| == 3
    requires 3 <= NextState(q, s[0]) <= 5
    requires NextState(NextState(q, s[0]), s[1]) == 2 && NextState(2, s[2]) == ACCEPT
    ensures ReturnsOnce(q, s)
    ensures RunCode(q, code, s) == PushBits(PushBits(NextCode(q, code, s[0]), s[1]), s[2])
  {
    Block2(NextState(q, s[0]), NextCode(q, code, s[0]), s[1..]);
  }

  lemma Block4(q: nat, code: bv32, s: seq<Byte>)
    requires q < STATES && |s| == 4
    requires 6 <= NextState(q, s[0]) <= 8
    requires NextState(NextState(q, s[0]), s[1]) == 3 && NextState(3, s[2]) == 2 && NextState(2, s[3]) == ACCEPT
    ensures ReturnsOnce(q, s)
    ensures RunCode(q, code, s) == PushBits(PushBits(PushBits(NextCode(q, code, s[0]), s[1]), s[2]), s[3])
  {
    Block3(NextState(q, s[0]), NextCode(q, code, s[0]), s[1..]);
  }

  lemma BlockOfScalar(v: Scalar, code: bv32)
    ensures ReturnsOnce(ACCEPT, EncodeScalar(v)) && RunCode(ACCEPT, code, EncodeScalar(v)) == v
  {
    var s := EncodeScalar(v);
    if v <= 0x7F {
      LeadMaskIsPayload(code, s[0]);
      assert s[1..] == [];
    } else if v <= 0x7FF {
      StatesOfTwo(v);
      CodeOfTwo(v);
      LeadMaskIsPayload(code, s[0]);
      Block2(ACCEPT, code, s);
    } else if v <= 0xFFFF {
      StatesOfThree(v);
      CodeOfThree(v);
      LeadMaskIsPayload(code, s[0]);
      Block3(ACCEPT, code, s);
    } else {
      StatesOfFour(v);
      CodeOfFour(v);
      LeadMaskIsPayload(code, s[0]);
      Block4(ACCEPT, code, s);
    }
  }

  /** Stepping the automaton inverts the encoder: an encoding is accepted and the scalars come out, in order. */
  lemma {:induction false} RunInvertsEncode(vs: seq<Scalar>, code: bv32)
    ensures Run(ACCEPT, Encode(vs)) == ACCEPT
    ensures Outputs(ACCEPT, code, Encode(vs)) == vs
    decreases |vs|
  {
    if vs != [] {
      BlockOfScalar(vs[0], code);
      WalkBlock(ACCEPT, code, EncodeScalar(vs[0]), Encode(vs[1..]));
      RunInvertsEncode(vs[1..], vs[0]);
    }
  }

  /** Hence no two scalar sequences have the same encoding. */
  lemma EncodeIsInjective(vs: seq<Scalar>, ws: seq<Scalar>)
    requires Encode(vs) == Encode(ws)
    ensures vs == ws
  {
    RunInvertsEncode(vs, 0);
    RunInvertsEncode(ws, 0);
  }

  // ---------------------------------------------------------------------------------------------
  // Nothing else is accepted
  // ---------------------------------------------------------------------------------------------

  lemma {:induction false} RunAppend(q: nat, a: seq<Byte>, b: seq<Byte>)
    requires q < STATES
    ensures Run(q, a + b) == Run(Run(q, a), b)
    decreases |a|
  {
    if a == [] {
      assert a + b == b;
    } else {
      assert (a + b)[1..] == a[1..] + b;
      RunAppend(NextState(q, a[0]), a[1..], b);
    }
  }

  lemma {:induction false} RejectIsAbsorbing(s: seq<Byte>)
    ensures Run(REJECT, s) == REJECT
    decreases |s|
  {
    if s != [] {
      RejectIsAbsorbing(s[1..]);
    }
  }

  /** How many continuation bytes state `q` still wants. */
  function Pending(q: nat): (n: nat)
    requires q < STATES && q != REJECT
    ensures n <= 3
  {
    if q == ACCEPT then 0 else if q == 2 then 1 else if q <= 5 then 2 else 3
  }

  /** A string accepted from `q` starts with a block that returns to accept for the first time. */
  lemma {:induction false} FirstBlock(q: nat, s: seq<Byte>) returns (k: nat)
    requires q < STATES && Run(q, s) == ACCEPT && s != []
    ensures 1 <= k <= |s|
    ensures ReturnsOnce(q, s[..k]) && Run(ACCEPT, s[k..]) == ACCEPT
    decreases |s|
  {
    var q' := NextState(q, s[0]);
    RejectIsAbsorbing(s[1..]);
    if q' == ACCEPT {
      k := 1;
    } else {
      k := FirstBlock(q', s[1..]);
      k := k + 1;
      assert s[..k][1..] == s[1..][..k - 1];
      assert s[k..] == s[1..][k - 1..];
    }
  }

  /** A block is exactly as long as its states demand, and never passes through reject. */
  lemma {:induction false} BlockLength(q: nat, s: seq<Byte>)
    requires q < STATES && ReturnsOnce(q, s)
    ensures q != REJECT
    ensures q != ACCEPT ==> |s| == Pending(q)
    decreases |s|
  {
    if |s| > 1 {
      BlockLength(NextState(q, s[0]), s[1..]);
    }
  }

  /** The byte ranges of two-, three- and four-byte blocks: the syntax of RFC 3629, section 4. */
  lemma RangesOfTwo(s: seq<Byte>)
    requires ReturnsOnce(ACCEPT, s) && |s| == 2
    ensures 0xC2 <= s[0] < 0xE0 && 0x80 <= s[1] < 0xC0
    ensures NextState(ACCEPT, s[0]) == 2 && NextState(2, s[1]) == ACCEPT
  {}

  lemma RangesOfThree(s: seq<Byte>)
    requires ReturnsOnce(ACCEPT, s) && |s| == 3
    ensures 0xE0 <= s[0] < 0xF0 && 0x80 <= s[1] < 0xC0 && 0x80 <= s[2] < 0xC0
    ensures (s[0] == 0xE0 ==> 0xA0 <= s[1]) && (s[0] == 0xED ==> s[1] < 0xA0)
    ensures var q0 := NextState(ACCEPT, s[0]);
            3 <= q0 <= 5 && NextState(q0, s[1]) == 2 && NextState(2, s[2]) == ACCEPT
  {
    var q0 := NextState(ACCEPT, s[0]);
    BlockLength(q0, s[1..]);
    BlockLength(NextState(q0, s[1]), s[1..][1..]);
  }

  lemma RangesOfFour(s: seq<Byte>)
    requires ReturnsOnce(ACCEPT, s) && |s| == 4
    ensures 0xF0 <= s[0] <= 0xF4 && 0x80 <= s[1] < 0xC0 && 0x80 <= s[2] < 0xC0 && 0x80 <= s[3] < 0xC0
    ensures (s[0] == 0xF0 ==> 0x90 <= s[1]) && (s[0] == 0xF4 ==> s[1] < 0x90)
    ensures var q0 := NextState(ACCEPT, s[0]);
            && 6 <= q0 <= 8 && NextState(q0, s[1]) == 3
            && NextState(3, s[2]) == 2 && NextState(2, s[3]) == ACCEPT
  {
    var q0 := NextState(ACCEPT, s[0]);
    var q1 := NextState(q0, s[1]);
    BlockLength(q0, s[1..]);
    BlockLength(q1, s[1..][1..]);
    BlockLength(NextState(q1, s[2]), s[1..][1..][1..]);
  }

  /** The bits of a two-, three- and four-byte block make a scalar value whose encoding is the block. */
  lemma Reassemble2(b0: Byte, b1: Byte)
    requires 0xC2 <= b0 < 0xE0 && 0x80 <= b1 < 0xC0
    ensures var v := PushBits(LeadPayload(b0), b1); 0x7F < v <= 0x7FF && EncodeScalar(v) == [b0, b1]
  {}

  lemma Reassemble3(b0: Byte, b1: Byte, b2: Byte)
    requires 0xE0 <= b0 < 0xF0 && 0x80 <= b1 < 0xC0 && 0x80 <= b2 < 0xC0
    requires b0 == 0xE0 ==> 0xA0 <= b1
    requires b0 == 0xED ==> b1 < 0xA0
    ensures var v := PushBits(PushBits(LeadPayload(b0), b1), b2);
            0x7FF < v <= 0xFFFF && !(0xD800 <= v <= 0xDFFF) && EncodeScalar(v) == [b0, b1, b2]
  {}

  lemma Reassemble4(b0: Byte, b1: Byte, b2: Byte, b3: Byte)
    requires 0xF0 <= b0 <= 0xF4 && 0x80 <= b1 < 0xC0 && 0x80 <= b2 < 0xC0 && 0x80 <= b3 < 0xC0
    requires b0 == 0xF0 ==> 0x90 <= b1
    requires b0 == 0xF4 ==> b1 < 0x90
    ensures var v := PushBits(PushBits(PushBits(LeadPayload(b0), b1), b2), b3);
            0xFFFF < v <= 0x10FFFF && EncodeScalar(v) == [b0, b1, b2, b3]
  {}

  /** What a block reads out as is a scalar value, and the block is its encoding. */
  lemma BlockIsEncoding(code: bv32, s: seq<Byte>)
    requires ReturnsOnce(ACCEPT, s)
    ensures var v := RunCode(ACCEPT, code, s);
            && v <= 0x10FFFF && !(0xD800 <= v <= 0xDFFF)
            && EncodeScalar(v) == s
  {
    BlockLength(ACCEPT, s);
    if |s| > 1 {
      BlockLength(NextState(ACCEPT, s[0]), s[1..]);
    }
    LeadMaskIsPayload(code, s[0]);
    if |s| == 1 {
      assert s[1..] == [] && s == [s[0]];
    } else if |s| == 2 {
      RangesOfTwo(s);
      Block2(ACCEPT, code, s);
      Reassemble2(s[0], s[1]);
      assert s == [s[0], s[1]];
    } else if |s| == 3 {
      RangesOfThree(s);
      Block3(ACCEPT, code, s);
      Reassemble3(s[0], s[1], s[2]);
      assert s == [s[0], s[1], s[2]];
    } else {
      RangesOfFour(s);
      Block4(ACCEPT, code, s);
      Reassemble4(s[0], s[1], s[2], s[3]);
      assert s == [s[0], s[1], s[2], s[3]];
    }
  }

  lemma EncodeCons(v: Scalar, ws: seq<Scalar>)
    ensures Encode([v] + ws) == EncodeScalar(v) + Encode(ws)
  {}

  /** An accepted string is the encoding of the scalars it puts out. */
  lemma {:induction false} AcceptedIsEncoded(s: seq<Byte>, code: bv32) returns (vs: seq<Scalar>)
    requires Run(ACCEPT, s) == ACCEPT
    ensures Encode(vs) == s && Outputs(ACCEPT, code, s) == vs
    decreases |s|
  {
    if s == [] {
      vs := [];
    } else {
      var k := FirstBlock(ACCEPT, s);
      BlockIsEncoding(code, s[..k]);
      var v: Scalar := RunCode(ACCEPT, code, s[..k]);
      WalkBlock(ACCEPT, code, s[..k], s[k..]);
      var ws := AcceptedIsEncoded(s[k..], v);
      vs := [v] + ws;
      EncodeCons(v, ws);
      assert s == s[..k] + s[k..];
    }
  }

  /** The automaton recognises exactly the well-formed strings of RFC 3629. */
  lemma AcceptsExactlyWellFormed(s: seq<Byte>)
    ensures Run(ACCEPT, s) == ACCEPT <==> WellFormed(s)
  {
    if Run(ACCEPT, s) == ACCEPT {
      var vs := AcceptedIsEncoded(s, 0);
    }
    if WellFormed(s) {
      var vs: seq<Scalar> :| Encode(vs) == s;
      RunInvertsEncode(vs, 0);
    }
  }

  /** For accepted strings, the outputs are the one and only scalar sequence whose encoding is the input. */
  lemma OutputsAreTheUniqueDecoding(s: seq<Byte>, code: bv32, vs: seq<Scalar>)
    ensures Run(ACCEPT, s) == ACCEPT && Outputs(ACCEPT, code, s) == vs <==> Encode(vs) == s
  {
    if Run(ACCEPT, s) == ACCEPT {
      var ws := AcceptedIsEncoded(s, code);
    }
    if Encode(vs) == s {
      RunInvertsEncode(vs, code);
    }
  }

  /** A shortest way to finish the character that state `q` is in the middle of. */
  function Completion(q: nat): seq<Byte>
    requires q < STATES && q != REJECT
  {
    match q
    case 0 => []
    case 2 => [0x80]
    case 3 => [0x80, 0x80]
    case 4 => [0xA0, 0x80]
    case 5 => [0x80, 0x80]
    case 6 => [0x90, 0x80, 0x80]
    case 7 => [0x80, 0x80, 0x80]
    case _ => [0x80, 0x80, 0x80]
  }

  lemma CompletionCompletes(q: nat)
    requires q < STATES && q != REJECT
    ensures Run(q, Completion(q)) == ACCEPT
  {
    var s := Completion(q);
    if q != ACCEPT {
      var q1 := NextState(q, s[0]);
      if |s| > 1 {
        var q2 := NextState(q1, s[1]);
        assert s[1..][1..] == s[2..];
        if |s| > 2 {
          assert s[2..][1..] == [];
          assert Run(q2, s[2..]) == Run(NextState(q2, s[2]), []);
        }
        assert Run(q1, s[1..]) == Run(q2, s[2..]);
      }
    }
  }

  /** The automaton has not rejected exactly when what it has seen can still be completed. */
  lemma AliveExactlyOnPrefixes(s: seq<Byte>)
    ensures Run(ACCEPT, s) != REJECT <==> exists t :: WellFormed(s + t)
  {
    var q := Run(ACCEPT, s);
    if q != REJECT {
      CompletionCompletes(q);
      RunAppend(ACCEPT, s, Completion(q));
      AcceptsExactlyWellFormed(s + Completion(q));
    }
    if t :| WellFormed(s + t) {
      AcceptsExactlyWellFormed(s + t);
      RunAppend(ACCEPT, s, t);
      RejectIsAbsorbing(t);
    }
  }

  /** The answer `validator::decode` gives for one chunk: it stops, and says no, at the first rejecting byte. */
  function ChunkAnswer(q: nat, chunk: seq<Byte>): bool
    requires q < STATES
  {
    chunk == [] || Run(q, chunk) != REJECT
  }

  /** Whether every one of a sequence of `decode` calls says yes. */
  function AllAnswers(q: nat, chunks: seq<seq<Byte>>): bool
    requires q < STATES
    decreases |chunks|
  {
    chunks == [] || (ChunkAnswer(q, chunks[0]) && AllAnswers(Run(q, chunks[0]), chunks[1..]))
  }

  function RunChunks(q: nat, chunks: seq<seq<Byte>>): (r: nat)
    requires q < STATES
    ensures r < STATES
    decreases |chunks|
  {
    if chunks == [] then q else RunChunks(Run(q, chunks[0]), chunks[1..])
  }

  /** Cutting the input into chunks changes neither the final state nor the conjunction of the answers. */
  lemma {:induction false} ChunksAgreeWithWhole(q: nat, chunks: seq<seq<Byte>>)
    requires q < STATES
    ensures RunChunks(q, chunks) == Run(q, Concat(chunks))
    ensures q != REJECT ==> (AllAnswers(q, chunks) <==> Run(q, Concat(chunks)) != REJECT)
    decreases |chunks|
  {
    if chunks != [] {
      RunAppend(q, chunks[0], Concat(chunks[1..]));
      ChunksAgreeWithWhole(Run(q, chunks[0]), chunks[1..]);
      RejectIsAbsorbing(Concat(chunks[1..]));
    }
  }

  // ---------------------------------------------------------------------------------------------
  // The table and the code that walks it
  // ---------------------------------------------------------------------------------------------

  /** The lookup table in rows of sixteen. The first sixteen rows give the class of each byte. */
  function ClassRow(r: nat): (row: seq<nat>)
    requires r < 16
    ensures |row| == 16
  {
    if r < 8 then [0, 0, 0, 0, 0, 0, 0, 0, 0, 0, 0, 0, 0, 0, 0, 0] // bytes 00..7F
    else match r
    case 8 => [1, 1, 1, 1, 1, 1, 1, 1, 1, 1, 1, 1, 1, 1, 1, 1] // bytes 80..8F
    case 9 => [9, 9, 9, 9, 9, 9, 9, 9, 9, 9, 9, 9, 9, 9, 9, 9] // bytes 90..9F
    case 10 => [7, 7, 7, 7, 7, 7, 7, 7, 7, 7, 7, 7, 7, 7, 7, 7] // bytes A0..AF
    case 11 => [7, 7, 7, 7, 7, 7, 7, 7, 7, 7, 7, 7, 7, 7, 7, 7] // bytes B0..BF
    case 12 => [8, 8, 2, 2, 2, 2, 2, 2, 2, 2, 2, 2, 2, 2, 2, 2] // bytes C0..CF
    case 13 => [2, 2, 2, 2, 2, 2, 2, 2, 2, 2, 2, 2, 2, 2, 2, 2] // bytes D0..DF
    case 14 => [10, 3, 3, 3, 3, 3, 3, 3, 3, 3, 3, 3, 3, 4, 3, 3] // bytes E0..EF
    case _ => [11, 6, 6, 6, 5, 8, 8, 8, 8, 8, 8, 8, 8, 8, 8, 8] // bytes F0..FF
  }

  /** The other nine rows give the successors of each state, one column per class. */
  function SuccessorRow(q: nat): (row: seq<nat>)
    requires q < STATES
    ensures |row| == 16
  {
    match q
    case 0 => [0, 1, 2, 3, 5, 8, 7, 1, 1, 1, 4, 6, 1, 1, 1, 1] // state 0
    case 1 => [1, 1, 1, 1, 1, 1, 1, 1, 1, 1, 1, 1, 1, 1, 1, 1] // state 1
    case 2 => [1, 0, 1, 1, 1, 1, 1, 0, 1, 0, 1, 1, 1, 1, 1, 1] // state 2
    case 3 => [1, 2, 1, 1, 1, 1, 1, 2, 1, 2, 1, 1, 1, 1, 1, 1] // state 3
    case 4 => [1, 1, 1, 1, 1, 1, 1, 2, 1, 1, 1, 1, 1, 1, 1, 1] // state 4
    case 5 => [1, 2, 1, 1, 1, 1, 1, 1, 1, 2, 1, 1, 1, 1, 1, 1] // state 5
    case 6 => [1, 1, 1, 1, 1, 1, 1, 3, 1, 3, 1, 1, 1, 1, 1, 1] // state 6
    case 7 => [1, 3, 1, 1, 1, 1, 1, 3, 1, 3, 1, 1, 1, 1, 1, 1] // state 7
    case _ => [1, 3, 1, 1, 1, 1, 1, 1, 1, 1, 1, 1, 1, 1, 1, 1] // state 8
  }

  function Utf8d(i: nat): nat
    requires i < 400
  {
    if i < 256 then ClassRow(i / 16)[i % 16] else SuccessorRow(i / 16 - 16)[i % 16]
  }

  lemma LowRowIsClass(r: nat, c: nat, b: Byte)
    requires r < 12 && c < 16 && b as int == 16 * r + c
    ensures ClassRow(r)[c] == ByteClass(b)
  {}

  lemma HighRowIsClass(r: nat, c: nat, b: Byte)
    requires 12 <= r < 16 && c < 16 && b as int == 16 * r + c
    ensures ClassRow(r)[c] == ByteClass(b)
  {
    if r == 12 {
    } else if r == 13 {
    } else if r == 14 {
    } else {
    }
  }

  lemma TableGivesClass(b: Byte)
    ensures Utf8d(b as int) == ByteClass(b) < 12
  {
    var r, c := b as int / 16, b as int % 16;
    if r < 12 { LowRowIsClass(r, c, b); } else { HighRowIsClass(r, c, b); }
  }

  lemma RowIsSuccessor(q: nat, b: Byte)
    requires q < STATES
    ensures SuccessorRow(q)[ByteClass(b)] == NextState(q, b)
  {
    var row := SuccessorRow(q);
    if q == 0 {
    } else if q == 1 {
    } else if q == 2 {
    } else if q == 3 {
    } else if q == 4 {
    } else if q == 5 {
    } else if q == 6 {
    } else if q == 7 {
    } else {
    }
  }

  lemma TableGivesSuccessor(q: nat, b: Byte)
    requires q < STATES
    ensures Utf8d(256 + q * 16 + ByteClass(b)) == NextState(q, b)
  {
    TableGivesClass(b);
    RowIsSuccessor(q, b);
    assert (256 + q * 16 + ByteClass(b)) / 16 == 16 + q && (256 + q * 16 + ByteClass(b)) % 16 == ByteClass(b);
  }

  method LookUpClass(byte: Byte) returns (t: nat)
    ensures t == ByteClass(byte) < 12
  {
    TableGivesClass(byte);
    t := Utf8d(byte as int);
  }

  method LookUpSuccessor(state: nat, t: nat, ghost byte: Byte) returns (next: nat)
    requires state < STATES && t == ByteClass(byte)
    ensures next == NextState(state, byte)
  {
    TableGivesSuccessor(state, byte);
    next := Utf8d(256 + state * 16 + t);
  }

  /** One step of the decoder: the packed table implements the automaton, and the register its code point. */
  method DecodeByte(state: nat, codep: bv32, byte: Byte) returns (state': nat, codep': bv32)
    requires state < STATES
    ensures state' == NextState(state, byte)
    ensures codep' == NextCode(state, codep, byte)
  {
    var t := LookUpClass(byte);
    codep' := if state != ACCEPT then ((byte & 0x3F) as bv32) | (codep << 6) else ((0xFF as bv32) >> t) & (byte as bv32);
    state' := LookUpSuccessor(state, t, byte);
  }

  /** The streaming validator. */
  class Validator {
    var state: nat
    var codepoint: bv32

    ghost predicate Valid()
      reads this
    {
      state < STATES
    }

    constructor ()
      ensures Valid() && state == ACCEPT && codepoint == 0
    {
      state, codepoint := ACCEPT, 0;
    }

    method Consume(byte: Byte) returns (ok: bool)
      requires Valid()
      modifies this
      ensures Valid()
      ensures state == NextState(old(state), byte) && codepoint == NextCode(old(state), old(codepoint), byte)
      ensures ok <==> Run(old(state), [byte]) != REJECT
    {
      state, codepoint := DecodeByte(state, codepoint, byte);
      assert [byte][1..] == [];
      ok := state != REJECT;
    }

    /** Stops at the first rejecting byte; the state is the same as if it had gone on. */
    method Decode(chunk: seq<Byte>) returns (ok: bool)
      requires Valid()
      modifies this
      ensures Valid() && state == Run(old(state), chunk)
      ensures ok <==> ChunkAnswer(old(state), chunk)
      ensures ok ==> codepoint == RunCode(old(state), old(codepoint), chunk)
    {
      var it := 0;
      while it != |chunk|
        invariant it <= |chunk| && Valid()
        invariant Run(old(state), chunk) == Run(state, chunk[it..])
        invariant RunCode(old(state), old(codepoint), chunk) == RunCode(state, codepoint, chunk[it..])
        invariant it > 0 ==> state != REJECT
      {
        state, codepoint := DecodeByte(state, codepoint, chunk[it]);
        assert chunk[it..][1..] == chunk[it + 1..];
        if state == REJECT {
          RejectIsAbsorbing(chunk[it + 1..]);
          return false;
        }
        it := it + 1;
      }
      return true;
    }

    method Complete() returns (done: bool)
      ensures done <==> state == ACCEPT
    {
      done := state == ACCEPT;
    }

    method Reset()
      modifies this
      ensures Valid() && state == ACCEPT && codepoint == 0
    {
      state, codepoint := ACCEPT, 0;
    }
  }

  /** The whole-string check answers whether the string is well-formed UTF-8. */
  method Validate(s: seq<Byte>) returns (ok: bool)
    ensures ok <==> WellFormed(s)
  {
    AcceptsExactlyWellFormed(s);
    var v := new Validator();
    var alive := v.Decode(s);
    if !alive {
      return false;
    }
    ok := v.Complete();
  }

  /**
   * A fresh validator fed a string in any number of `decode` calls: they all say yes exactly when the string can still
   * be completed to well-formed UTF-8, and with `complete` exactly when it is well-formed already.
   */
  method DecodeChunks(chunks: seq<seq<Byte>>) returns (alive: bool, ok: bool)
    ensures alive <==> exists t :: WellFormed(Concat(chunks) + t)
    ensures ok <==> WellFormed(Concat(chunks))
  {
    var v := new Validator();
    alive := true;
    ChunksAgreeWithWhole(ACCEPT, chunks);
    AliveExactlyOnPrefixes(Concat(chunks));
    AcceptsExactlyWellFormed(Concat(chunks));
    for i := 0 to |chunks|
      invariant v.Valid()
      invariant AllAnswers(ACCEPT, chunks) <==> alive && AllAnswers(v.state, chunks[i..])
      invariant RunChunks(v.state, chunks[i..]) == Run(ACCEPT, Concat(chunks))
    {
      var said := v.Decode(chunks[i]);
      assert chunks[i..][1..] == chunks[i + 1..];
      alive := alive && said;
    }
    var done := v.Complete();
    ok := alive && done;
  }
}
