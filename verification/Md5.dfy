/**
 * The streaming engine of md5.hpp: a 64-byte buffer, a wrapping two-word bit counter and the padding arithmetic, against
 * the one-shot description of RFC 1321, sections 3.1 to 3.5.
 */
module Md5 {
  import opened Bytes
  import opened Md5Block

  // ---------------------------------------------------------------------------------------------
  // RFC 1321
  // ---------------------------------------------------------------------------------------------

  const TWO_32: nat := 0x1_0000_0000
  const TWO_64: nat := 0x1_0000_0000_0000_0000

  const INITIAL: Registers<Word> := Registers(0x67452301, 0xefcdab89, 0x98badcfe, 0x10325476)

  /** The left fold of a block transformation over the 64-byte blocks of `m`. */
  function Fold<H>(compress: (H, Block) -> H, h: H, m: seq<Byte>): H
    requires |m| % 64 == 0
    decreases |m|
  {
    if m == [] then h else Fold(compress, compress(h, m[..64]), m[64..])
  }

  type Digit = d: nat | d < 256

  /** The `n` lowest base-256 digits of a number, least significant first; what does not fit is dropped. */
  function LeDigits(x: nat, n: nat): (d: seq<Digit>)
    ensures |d| == n
  {
    if n == 0 then [] else [x % 256] + LeDigits(x / 256, n - 1)
  }

  function LeBytes(x: nat, n: nat): (b: seq<Byte>)
    ensures |b| == n
  {
    ToBytes(LeDigits(x, n))
  }

  function ToBytes(d: seq<Digit>): (b: seq<Byte>)
    ensures |b| == |d|
  {
    seq(|d|, i requires 0 <= i < |d| => d[i] as Byte)
  }

  /** How many zeros follow the 0x80: the fewest that bring the length to 56 modulo 64. */
  function ZeroCount(length: nat): nat {
    (55 - length) % 64
  }

  /** Sections 3.1 and 3.2: one 1 bit, zeros, and the length in bits as 64 bits, low-order byte first. */
  function Pad(m: seq<Byte>): (p: seq<Byte>)
    ensures |p| % 64 == 0
  {
    m + [0x80] + Zeros(ZeroCount(|m|)) + LeBytes(8 * |m|, 8)
  }

  /** Byte `j` of a word, counted from the low-order one. */
  function WordByte(w: Word, j: nat): Byte
    requires j < 4
  {
    match j
    case 0 => (w & 0xFF) as Byte
    case 1 => ((w >> 8) & 0xFF) as Byte
    case 2 => ((w >> 16) & 0xFF) as Byte
    case _ => ((w >> 24) & 0xFF) as Byte
  }

  function WordBytes(w: Word): seq<Byte> {
    [WordByte(w, 0), WordByte(w, 1), WordByte(w, 2), WordByte(w, 3)]
  }

  /** Section 3.5: the registers A to D, each low-order byte first. */
  function Output(h: Registers<Word>): (o: seq<Byte>)
    ensures |o| == 16
  {
    WordBytes(h.a) + WordBytes(h.b) + WordBytes(h.c) + WordBytes(h.d)
  }

  function Digest(m: seq<Byte>): seq<Byte> {
    Output(Fold(Compress, INITIAL, Pad(m)))
  }

  // ---------------------------------------------------------------------------------------------
  // Facts about the description
  // ---------------------------------------------------------------------------------------------

  lemma {:induction false} FoldAppend<H>(compress: (H, Block) -> H, h: H, a: seq<Byte>, b: seq<Byte>)
    requires |a| % 64 == 0 && |b| % 64 == 0
    ensures Fold(compress, h, a + b) == Fold(compress, Fold(compress, h, a), b)
    decreases |a|
  {
    if a == [] {
      assert a + b == b;
    } else {
      assert (a + b)[..64] == a[..64] && (a + b)[64..] == a[64..] + b;
      FoldAppend(compress, compress(h, a[..64]), a[64..], b);
    }
  }

  lemma FoldBlock<H>(compress: (H, Block) -> H, h: H, a: seq<Byte>, block: Block)
    requires |a| % 64 == 0
    ensures Fold(compress, h, a + block) == compress(Fold(compress, h, a), block)
  {
    FoldAppend(compress, h, a, block);
    assert block[..64] == block && block[64..] == [];
  }

  /** The part of a message of length `n` that fills whole blocks. */
  function Whole(n: nat): (w: nat)
    ensures w <= n < w + 64 && w % 64 == 0
  {
    n - n % 64
  }

  /**
   * What a state has to remember of a message: the registers have absorbed its whole blocks and `live` is the rest.
   */
  ghost predicate Holds<H>(compress: (H, Block) -> H, init: H, h: H, live: seq<Byte>, m: seq<Byte>) {
    h == Fold(compress, init, m[..Whole(|m|)]) && live == m[Whole(|m|)..]
  }

  lemma HoldsLength<H>(compress: (H, Block) -> H, init: H, h: H, live: seq<Byte>, m: seq<Byte>)
    requires Holds(compress, init, h, live, m)
    ensures |live| == |m| % 64
  {}

  lemma HoldsPartial<H>(compress: (H, Block) -> H, init: H, h: H, live: seq<Byte>, m: seq<Byte>, d: seq<Byte>)
    requires Holds(compress, init, h, live, m) && |live| + |d| < 64
    ensures Holds(compress, init, h, live + d, m + d)
  {
    assert Whole(|m + d|) == Whole(|m|) && (m + d)[..Whole(|m|)] == m[..Whole(|m|)];
  }

  lemma HoldsBlock<H>(compress: (H, Block) -> H, init: H, h: H, live: seq<Byte>, m: seq<Byte>, d: seq<Byte>)
    requires Holds(compress, init, h, live, m) && |live| + |d| == 64
    ensures Holds(compress, init, compress(h, live + d), [], m + d)
  {
    FoldBlock(compress, init, m[..Whole(|m|)], live + d);
    assert Whole(|m + d|) == |m + d| && (m + d)[..|m + d|] == m[..Whole(|m|)] + (live + d);
  }

  function Pow256(n: nat): (p: nat)
    ensures p > 0
  {
    if n == 0 then 1 else 256 * Pow256(n - 1)
  }

  lemma ToBytesAppend(a: seq<Digit>, b: seq<Digit>)
    ensures ToBytes(a + b) == ToBytes(a) + ToBytes(b)
  {}

  // ---------------------------------------------------------------------------------------------
  // Counter and length arithmetic
  // ---------------------------------------------------------------------------------------------

  /** The two-word counter holds the length in bits modulo 2^64, low word first. */
  ghost predicate Counts(count0: nat, count1: nat, bytes: nat) {
    count0 < TWO_32 && count1 < TWO_32 && count0 + TWO_32 * count1 == 8 * bytes % TWO_64
  }

  /** The two words of a counter are determined by what they count. */
  lemma CountsDetermine(count0: nat, count1: nat, count0': nat, count1': nat, bytes: nat)
    requires Counts(count0, count1, bytes) && Counts(count0', count1', bytes)
    ensures count0 == count0' && count1 == count1'
  {
    SameWords(count0, count1, count0', count1');
  }

  lemma SameWords(low: nat, high: nat, low': nat, high': nat)
    requires low < TWO_32 && low' < TWO_32 && low + TWO_32 * high == low' + TWO_32 * high'
    ensures low == low' && high == high'
  {}

  lemma CounterOffset(count0: nat, count1: nat, bytes: nat)
    requires Counts(count0, count1, bytes)
    ensures count0 / 8 % 64 == bytes % 64
  {
    var k := count1 + TWO_32 * (8 * bytes / TWO_64);
    DropWholeWords(count0, bytes - 0x2000_0000 * k, k, bytes);
  }

  lemma DropWholeWords(count0: nat, rest: nat, k: nat, bytes: nat)
    requires count0 == 8 * rest && bytes == rest + 0x2000_0000 * k
    ensures count0 / 8 % 64 == bytes % 64
  {
    assert count0 / 8 == rest;
    Residue64(bytes, rest / 64 + 0x80_0000 * k, rest % 64);
  }

  lemma Residue64(x: int, q: int, r: int)
    requires x == 64 * q + r && 0 <= r < 64
    ensures x % 64 == r
  {}

  lemma CounterAdvances(count0: nat, count1: nat, bytes: nat, n: nat)
    requires Counts(count0, count1, bytes)
    ensures var nbits := 8 * n % TWO_32;
            var low := (count0 + nbits) % TWO_32;
            var high := (count1 + n / 0x2000_0000) % TWO_32;
            Counts(low, if low < nbits then (high + 1) % TWO_32 else high, bytes + n)
  {
    var nbits, top := 8 * n % TWO_32, n / 0x2000_0000;
    assert 8 * n == nbits + TWO_32 * top;
    var low := (count0 + nbits) % TWO_32;
    var carry := if low < nbits then 1 else 0;
    assert count0 + nbits == low + TWO_32 * carry;
    var q := 8 * bytes / TWO_64;
    assert 8 * bytes == count0 + TWO_32 * count1 + TWO_64 * q;
    SumOfWords(low, count1 + top + carry, q, 8 * (bytes + n));
    ReduceFirst(count1 + top, carry);
  }

  lemma ReduceFirst(a: nat, b: nat)
    ensures (a + b) % TWO_32 == (a % TWO_32 + b) % TWO_32
  {}

  lemma SumOfWords(low: nat, sum: nat, q: nat, total: nat)
    requires low < TWO_32 && total == low + TWO_32 * sum + TWO_64 * q
    ensures low + TWO_32 * (sum % TWO_32) == total % TWO_64
  {}

  /** Byte `j` of a word: shifted down by 8 * j bits and cut to eight. */
  function ShiftedByte(word: nat, j: nat): Digit
    requires j < 4
  {
    word / (if j == 0 then 1 else if j == 1 then 0x100 else if j == 2 then 0x1_0000 else 0x100_0000) % 256
  }

  lemma LeDigitsOf4(x: nat)
    ensures LeDigits(x, 4) == [x % 256, x / 256 % 256, x / 256 / 256 % 256, x / 256 / 256 / 256 % 256]
  {
    assert LeDigits(x / 256 / 256, 2) == [x / 256 / 256 % 256, x / 256 / 256 / 256 % 256];
    assert LeDigits(x / 256, 3) == [x / 256 % 256] + LeDigits(x / 256 / 256, 2);
  }

  lemma LeDigitAt(x: nat, j: nat)
    requires j < 4
    ensures LeDigits(x, 4)[j] == ShiftedByte(x, j)
  {
    LeDigitsOf4(x);
    hide LeDigits;
    assert x / 256 / 256 == x / 0x1_0000;
    assert x / 256 / 256 / 256 == x / 0x100_0000;
  }

  lemma FirstDigit(x: nat, n: nat)
    ensures LeDigits(x, n + 1) == [x % 256] + LeDigits(x / 256, n)
  {}

  lemma QuotientAndDigit(x: nat, rest: nat, d: Digit)
    requires x == 256 * rest + d
    ensures x % 256 == d && x / 256 == rest
  {}

  lemma DigitsStep(x: nat, rest: nat, d: Digit, n: nat)
    requires x == 256 * rest + d
    ensures LeDigits(x, n + 1) == [d] + LeDigits(rest, n)
  {
    hide LeDigits;
    FirstDigit(x, n);
    QuotientAndDigit(x, rest, d);
  }

  lemma {:induction false} LeDigitsPrepend(low: nat, rest: nat, n: nat, k: nat)
    requires low < Pow256(n)
    ensures LeDigits(low + Pow256(n) * rest, n + k) == LeDigits(low, n) + LeDigits(rest, k)
    decreases n
  {
    if n == 0 {
      assert LeDigits(low, 0) == [];
    } else {
      var p := Pow256(n - 1);
      assert 256 * p * rest == 256 * (p * rest);
      DigitsStep(low + Pow256(n) * rest, low / 256 + p * rest, low % 256, n - 1 + k);
      LeDigitsPrepend(low / 256, rest, n - 1, k);
      assert [low % 256] + (LeDigits(low / 256, n - 1) + LeDigits(rest, k)) == LeDigits(low, n) + LeDigits(rest, k);
    }
  }

  /** The four lowest digits of a number are those of its low word. */
  lemma FirstWord(low: nat, rest: nat, k: nat)
    requires low < TWO_32
    ensures LeDigits(low + TWO_32 * rest, 4 + k) == LeDigits(low, 4) + LeDigits(rest, k)
  {
    assert Pow256(4) == TWO_32;
    LeDigitsPrepend(low, rest, 4, k);
  }

  lemma CountedWords(count0: nat, count1: nat, bytes: nat) returns (q: nat)
    requires Counts(count0, count1, bytes)
    ensures count0 < TWO_32 && count1 < TWO_32 && 8 * bytes == count0 + TWO_32 * (count1 + TWO_32 * q)
  {
    q := 8 * bytes / TWO_64;
  }

  /** The length field of the padding is the counter: its two words, each low-order byte first. */
  lemma LengthField(count0: nat, count1: nat, bytes: nat)
    requires Counts(count0, count1, bytes)
    ensures LeBytes(8 * bytes, 8) == LeBytes(count0, 4) + LeBytes(count1, 4)
  {
    hide LeDigits, ToBytes;
    var q := CountedWords(count0, count1, bytes);
    FirstWord(count0, count1 + TWO_32 * q, 4);
    FirstWord(count1, q, 0);
    assert LeDigits(8 * bytes, 8) == LeDigits(count0, 4) + LeDigits(count1, 4);
    ToBytesAppend(LeDigits(count0, 4), LeDigits(count1, 4));
  }

  // ---------------------------------------------------------------------------------------------
  // The engine
  // ---------------------------------------------------------------------------------------------

  const PAD: seq<Byte> := [0x80] + Zeros(63)

  class State {
    var count0: nat
    var count1: nat
    var abcd: Registers<Word>
    const buf: array<Byte>
    const littleEndian: bool
    const sizeMax: nat

    /** Everything appended since initialisation, padding included. */
    ghost var Message: seq<Byte>

    /** Nothing is said about the rest of the buffer, which holds whatever earlier blocks left there. */
    ghost predicate Valid()
      reads this, buf
    {
      && buf.Length == 64 && sizeMax >= TWO_32 - 1
      && Counts(count0, count1, |Message|)
      && Holds(Compress, INITIAL, abcd, buf[..|Message| % 64], Message)
    }

    /** `md5_init` on an uninitialised state; `wordSize` is the size of a size_t. */
    constructor (wordSize: nat, littleEndian: bool)
      requires wordSize == 4 || wordSize == 8
      ensures Valid() && fresh(buf) && Message == []
      ensures sizeMax == if wordSize == 4 then TWO_32 - 1 else TWO_64 - 1
    {
      buf := new Byte[64];
      this.littleEndian := littleEndian;
      sizeMax := if wordSize == 4 then TWO_32 - 1 else TWO_64 - 1;
      count0, count1 := 0, 0;
      abcd := Registers(0x67452301, T_MASK ^ 0x10325476, T_MASK ^ 0x67452301, 0x10325476);
      Message := [];
    }

    method CopyToBuffer(at: nat, src: seq<Byte>)
      requires at + |src| <= buf.Length
      modifies buf
      ensures buf[..at + |src|] == old(buf[..at]) + src
    {
      forall i | 0 <= i < |src| {
        buf[at + i] := src[i];
      }
    }

    /** Where in the buffer the next byte goes, read off the low word of the counter. */
    method Offset() returns (offset: nat)
      requires Counts(count0, count1, |Message|)
      ensures offset == |Message| % 64
    {
      CounterOffset(count0, count1, |Message|);
      offset := count0 / 8 % 64;
    }

    /** The two-word counter with its carry. */
    method AddToCount(nbytes: nat)
      requires Counts(count0, count1, |Message|)
      modifies this`count0, this`count1
      ensures Counts(count0, count1, |Message| + nbytes)
    {
      CounterAdvances(count0, count1, |Message|, nbytes);
      var nbits := 8 * nbytes % TWO_32;
      count1 := (count1 + nbytes / 0x2000_0000) % TWO_32;
      count0 := (count0 + nbits) % TWO_32;
      if count0 < nbits {
        count1 := (count1 + 1) % TWO_32;
      }
    }

    /** Runs the block transformation on a block that completes the message so far with `d`. */
    method Absorb(block: Block, ghost live: seq<Byte>, ghost d: seq<Byte>)
      requires Holds(Compress, INITIAL, abcd, live, Message) && block == live + d
      modifies this`abcd, this`Message
      ensures Message == old(Message) + d
      ensures Holds(Compress, INITIAL, abcd, [], Message)
    {
      HoldsBlock(Compress, INITIAL, abcd, live, Message, d);
      abcd := Process(abcd, block, littleEndian);
      Message := Message + d;
    }

    /** Fills up a partial block; `done` when the data runs out before the block is full. */
    method TopUp(data: seq<Byte>, offset: nat) returns (copy: nat, done: bool)
      requires buf.Length == 64 && offset == |Message| % 64 && data != []
      requires Holds(Compress, INITIAL, abcd, buf[..offset], Message)
      modifies this`abcd, this`Message, buf
      ensures copy <= |data| && Message == old(Message) + data[..copy]
      ensures done ==> copy == |data| && Holds(Compress, INITIAL, abcd, buf[..|Message| % 64], Message)
      ensures !done ==> Holds(Compress, INITIAL, abcd, [], Message)
    {
      copy := if offset + |data| > 64 then 64 - offset else |data|;
      ghost var live := buf[..offset];
      CopyToBuffer(offset, data[..copy]);
      done := offset + copy < 64;
      if done {
        HoldsPartial(Compress, INITIAL, abcd, live, Message, data[..copy]);
        Message := Message + data[..copy];
        assert buf[..|Message| % 64] == live + data[..copy];
      } else {
        assert buf[..] == buf[..64];
        Absorb(buf[..], live, data[..copy]);
      }
    }

    /** Runs the block transformation straight from the data while a whole block is left. */
    method AbsorbBlocks(data: seq<Byte>, from: nat) returns (p: nat)
      requires from <= |data| && Holds(Compress, INITIAL, abcd, [], Message)
      modifies this`abcd, this`Message
      ensures from <= p <= |data| < p + 64 && Message == old(Message) + data[from..p]
      ensures Holds(Compress, INITIAL, abcd, [], Message)
    {
      hide Holds;
      p := from;
      assert data[from..p] == [] && old(Message) + [] == Message;
      var left := |data| - from;
      while left >= 64
        invariant from <= p && p + left == |data| && left >= 0
        invariant Message == old(Message) + data[from..p]
        invariant Holds(Compress, INITIAL, abcd, [], Message)
      {
        var block := data[p..p + 64];
        AppendSlice(old(Message), data, from, p, p + 64);
        assert [] + block == block;
        Absorb(block, [], block);
        p := p + 64;
        left := left - 64;
      }
    }

    /** Keeps what is left over in the buffer. */
    method KeepTail(tail: seq<Byte>)
      requires buf.Length == 64 && |tail| < 64 && Holds(Compress, INITIAL, abcd, [], Message)
      modifies this`Message, buf
      ensures Message == old(Message) + tail
      ensures Holds(Compress, INITIAL, abcd, buf[..|Message| % 64], Message)
    {
      HoldsPartial(Compress, INITIAL, abcd, [], Message, tail);
      HoldsLength(Compress, INITIAL, abcd, [], Message);
      hide Holds;
      if tail != [] {
        CopyToBuffer(0, tail);
      }
      Message := Message + tail;
      assert |Message| % 64 == |tail|;
      assert buf[..|tail|] == [] + tail;
    }

    /** The part of `md5_append` after the count: an initial partial block, full blocks, a final partial block. */
    method Feed(data: seq<Byte>, offset: nat)
      requires buf.Length == 64 && offset == |Message| % 64 && data != []
      requires Holds(Compress, INITIAL, abcd, buf[..offset], Message)
      modifies this`abcd, this`Message, buf
      ensures Message == old(Message) + data
      ensures Holds(Compress, INITIAL, abcd, buf[..|Message| % 64], Message)
    {
      hide Holds;
      var p, done := 0, false;
      if offset != 0 {
        p, done := TopUp(data, offset);
        if done {
          assert data[..p] == data;
          return;
        }
      } else {
        assert buf[..0] == [];
      }
      ThreeSlices(old(Message), data, p);
      ghost var n := Message;
      var q := AbsorbBlocks(data, p);
      KeepTail(data[q..]);
      assert Message == (n + data[p..q]) + data[q..];
    }

    method Append(data: seq<Byte>)
      requires Valid() && |Message| % 64 + |data| <= sizeMax
      modifies this, buf
      ensures Valid() && Message == old(Message) + data
    {
      hide Holds, Counts, Fold, Compress;
      var offset := Offset();
      if |data| == 0 {
        assert Message + data == Message;
        return;
      }
      AddToCount(|data|);
      Feed(data, offset);
    }

    method Finish() returns (digest: seq<Byte>)
      requires Valid()
      modifies this, buf
      ensures digest == Digest(old(Message))
    {
      hide Holds, Counts, Compress, Fold, LeBytes, Output;
      var data := CountBytes(count0, count1, |Message|);
      var k := PadLength();
      Append(PAD[..k]);
      Append(data);
      assert Message == Pad(old(Message)) by {
        PaddedInTwoSteps(old(Message), k);
      }
      HoldsAll(Compress, INITIAL, abcd, buf[..|Message| % 64], Message);
      digest := OutputBytes(abcd);
    }

    /** The distance to 56 modulo 64, from the low word of the counter in 32-bit arithmetic. */
    method PadLength() returns (k: nat)
      requires Counts(count0, count1, |Message|)
      ensures k == ZeroCount(|Message|) + 1 <= 64
    {
      CounterOffset(count0, count1, |Message|);
      PadDistance(count0 / 8, |Message|);
      k := (55 + TWO_32 - count0 / 8) % TWO_32 % 64 + 1;
    }
  }

  lemma PadDistance(c: nat, n: nat)
    requires c < 0x2000_0000 && c % 64 == n % 64
    ensures (55 + TWO_32 - c) % TWO_32 % 64 == ZeroCount(n)
  {
    var r, a, b := c % 64, c / 64, n / 64;
    var z, s := if r <= 55 then 55 - r else 119 - r, if r <= 55 then 0 else -1;
    Residue64(55 - n, s - b, z);
    if c <= 55 {
      assert (55 + TWO_32 - c) % TWO_32 == 55 - c;
      Residue64(55 - c, s - a, z);
    } else {
      assert (55 + TWO_32 - c) % TWO_32 == 55 + TWO_32 - c;
      Residue64(55 + TWO_32 - c, 0x400_0000 + s - a, z);
    }
  }

  /** The eight bytes of the counter, low-order first: the length field of the padding. */
  method CountBytes(count0: nat, count1: nat, ghost bytes: nat) returns (data: seq<Byte>)
    requires Counts(count0, count1, bytes)
    ensures data == LeBytes(8 * bytes, 8)
  {
    LengthField(count0, count1, bytes);
    ghost var all := LeDigits(count0, 4) + LeDigits(count1, 4);
    assert ToBytes(all) == LeBytes(count0, 4) + LeBytes(count1, 4);
    hide ToBytes;
    var digits: seq<Digit> := [];
    for i := 0 to 8
      invariant digits == all[..i]
    {
      LeDigitAt(count0, i % 4);
      LeDigitAt(count1, i % 4);
      digits := digits + [ShiftedByte(if i / 4 == 0 then count0 else count1, i % 4)];
    }
    assert digits == all;
    data := ToBytes(digits);
  }

  /** The sixteen bytes of the digest, byte i from word i / 4. */
  method OutputBytes(abcd: Registers<Word>) returns (digest: seq<Byte>)
    ensures digest == Output(abcd)
  {
    hide WordByte, LowByte, Output;
    ghost var all := Output(abcd);
    digest := [];
    for i := 0 to 16
      invariant digest == all[..i]
    {
      var w := if i / 4 == 0 then abcd.a else if i / 4 == 1 then abcd.b else if i / 4 == 2 then abcd.c else abcd.d;
      OutputAt(abcd, i);
      ShiftSelectsByte(w, i % 4);
      digest := digest + [LowByte(w, 8 * (i % 4))];
    }
  }

  /** A word shifted down and cut to its low byte. */
  function LowByte(w: Word, shift: nat): Byte
    requires shift < 32
  {
    ((w >> shift) & 0xFF) as Byte
  }

  lemma ShiftSelectsByte(w: Word, j: nat)
    requires j < 4
    ensures LowByte(w, 8 * j) == WordByte(w, j)
  {
    if j == 0 {
      assert LowByte(w, 0) == WordByte(w, 0);
    } else if j == 1 {
      assert LowByte(w, 8) == WordByte(w, 1);
    } else if j == 2 {
      assert LowByte(w, 16) == WordByte(w, 2);
    } else {
      assert LowByte(w, 24) == WordByte(w, 3);
    }
  }

  lemma OutputAt(h: Registers<Word>, i: nat)
    requires i < 16
    ensures Output(h)[i] ==
            WordByte(if i / 4 == 0 then h.a else if i / 4 == 1 then h.b else if i / 4 == 2 then h.c else h.d, i % 4)
  {
    hide WordByte;
  }

  lemma PaddedInTwoSteps(m: seq<Byte>, k: nat)
    requires k == ZeroCount(|m|) + 1
    ensures k <= |PAD| && (m + PAD[..k]) + LeBytes(8 * |m|, 8) == Pad(m)
  {}

  lemma HoldsAll<H>(compress: (H, Block) -> H, init: H, h: H, live: seq<Byte>, m: seq<Byte>)
    requires Holds(compress, init, h, live, m) && |m| % 64 == 0
    ensures h == Fold(compress, init, m)
  {
    assert m[..|m|] == m;
  }

  lemma AppendSlice(m: seq<Byte>, data: seq<Byte>, i: nat, j: nat, k: nat)
    requires i <= j <= k <= |data|
    ensures (m + data[i..j]) + data[j..k] == m + data[i..k]
  {}

  lemma ThreeSlices(m: seq<Byte>, data: seq<Byte>, p: nat)
    requires p <= |data|
    ensures forall q | p <= q <= |data| :: ((m + data[..p]) + data[p..q]) + data[q..] == m + data
    ensures p == 0 ==> m + data[..p] == m
  {}

  /**
   * The message determines everything an engine will ever use: two engines that were fed the same bytes, however cut,
   * agree on counter, registers and the live part of the buffer. Their stale buffer bytes may differ.
   */
  lemma SameMessageSameState(s: State, t: State)
    requires s.Valid() && t.Valid() && s.Message == t.Message
    ensures s.count0 == t.count0 && s.count1 == t.count1 && s.abcd == t.abcd
    ensures s.buf[..|s.Message| % 64] == t.buf[..|t.Message| % 64]
  {
    hide Counts, Holds;
    CountsDetermine(s.count0, s.count1, t.count0, t.count1, |s.Message|);
    HoldsDetermines(s.abcd, s.buf[..|s.Message| % 64], t.abcd, t.buf[..|t.Message| % 64], s.Message);
  }

  lemma HoldsDetermines(h: Registers<Word>, live: seq<Byte>, h': Registers<Word>, live': seq<Byte>, m: seq<Byte>)
    requires Holds(Compress, INITIAL, h, live, m) && Holds(Compress, INITIAL, h', live', m)
    ensures h == h' && live == live'
  {
    hide Fold, Compress;
  }

  /** The output bytes of a register are the ones the block transformation would read back as that register. */
  lemma OutputIsLittleEndian(w: Word)
    ensures LeWord(WordBytes(w)) == w
  {}

  /** `md5_hash_string`. */
  method HashString(s: seq<Byte>, wordSize: nat, littleEndian: bool) returns (digest: seq<Byte>)
    requires wordSize == 4 || wordSize == 8
    requires |s| <= if wordSize == 4 then TWO_32 - 1 else TWO_64 - 1
    ensures digest == Digest(s)
  {
    var state := new State(wordSize, littleEndian);
    state.Append(s);
    assert [] + s == s;
    digest := state.Finish();
  }

  /** Any way of cutting a message into appends gives the one-shot digest of the whole. */
  method HashChunks(chunks: seq<seq<Byte>>, wordSize: nat, littleEndian: bool) returns (digest: seq<Byte>)
    requires wordSize == 4 || wordSize == 8
    requires forall i | 0 <= i < |chunks| ::
               |Concat(chunks[..i])| % 64 + |chunks[i]| <= if wordSize == 4 then TWO_32 - 1 else TWO_64 - 1
    ensures digest == Digest(Concat(chunks))
  {
    hide Holds, Counts, Digest;
    var state := new State(wordSize, littleEndian);
    for i := 0 to |chunks|
      invariant state.Valid() && fresh(state) && fresh(state.buf)
      invariant state.sizeMax == if wordSize == 4 then TWO_32 - 1 else TWO_64 - 1
      invariant state.Message == Concat(chunks[..i])
    {
      ConcatSnoc(chunks, i);
      state.Append(chunks[i]);
    }
    assert chunks[..|chunks|] == chunks;
    digest := state.Finish();
  }
}
