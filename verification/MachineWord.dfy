/** Machine words (`size_t`) of four or eight bytes, and the order in which memory holds their bytes. */
module MachineWord {
  import opened Bytes

  /** A word is kept in 64 bits; on a four-byte machine the upper half is zero. */
  type Word = bv64

  datatype Machine = Machine(wide: bool, littleEndian: bool) {
    function WordSize(): (n: nat)
      ensures n == 4 || n == 8
    {
      if wide then 8 else 4
    }
  }

  predicate Fits(m: Machine, w: Word) {
    m.wide || w <= 0xFFFF_FFFF
  }

  /** What a register of the machine keeps of a 64-bit value. */
  function Cut(m: Machine, w: Word): Word {
    if m.wide then w else w & 0xFFFF_FFFF
  }

  /** Byte `i` of a value, counted from the low-order end. */
  function Digit(w: Word, i: nat): Byte
    requires i < 8
  {
    match i
    case 0 => (w & 0xFF) as Byte
    case 1 => ((w >> 8) & 0xFF) as Byte
    case 2 => ((w >> 16) & 0xFF) as Byte
    case 3 => ((w >> 24) & 0xFF) as Byte
    case 4 => ((w >> 32) & 0xFF) as Byte
    case 5 => ((w >> 40) & 0xFF) as Byte
    case 6 => ((w >> 48) & 0xFF) as Byte
    case _ => ((w >> 56) & 0xFF) as Byte
  }

  function BitOr(x: Word, y: Word): Word {
    x | y
  }

  function BitXor(x: Word, y: Word): Word {
    x ^ y
  }

  /** Shifts by a whole number of bytes. */
  function ShiftLeft(w: Word, bytes: nat): Word
    requires bytes < 8
  {
    match bytes
    case 0 => w
    case 1 => w << 8
    case 2 => w << 16
    case 3 => w << 24
    case 4 => w << 32
    case 5 => w << 40
    case 6 => w << 48
    case _ => w << 56
  }

  function ShiftRight(w: Word, bytes: nat): Word
    requires bytes < 8
  {
    match bytes
    case 0 => w
    case 1 => w >> 8
    case 2 => w >> 16
    case 3 => w >> 24
    case 4 => w >> 32
    case 5 => w >> 40
    case 6 => w >> 48
    case _ => w >> 56
  }

  /** Byte `i` of a word as memory holds it. */
  function ByteAt(m: Machine, w: Word, i: nat): Byte
    requires i < m.WordSize()
  {
    Digit(w, if m.littleEndian then i else m.WordSize() - 1 - i)
  }

  /** The bytes of a word as memory holds them. */
  function Store(m: Machine, w: Word): (b: seq<Byte>)
    ensures |b| == m.WordSize()
  {
    seq(m.WordSize(), i requires 0 <= i < m.WordSize() => ByteAt(m, w, i))
  }

  function OfDigits(d0: Byte, d1: Byte, d2: Byte, d3: Byte): Word {
    (d0 as Word) | ((d1 as Word) << 8) | ((d2 as Word) << 16) | ((d3 as Word) << 24)
  }

  /** The four-byte conversion union: bytes in memory order, read as an integer. */
  function Load32(m: Machine, c: seq<Byte>): Word
    requires |c| == 4
  {
    if m.littleEndian then OfDigits(c[0], c[1], c[2], c[3]) else OfDigits(c[3], c[2], c[1], c[0])
  }

  /** A whole word read from memory. */
  function Load(m: Machine, b: seq<Byte>): Word
    requires |b| == m.WordSize()
  {
    if !m.wide then Load32(m, b)
    else if m.littleEndian then BitOr(Load32(m, b[..4]), ShiftLeft(Load32(m, b[4..]), 4))
    else BitOr(Load32(m, b[4..]), ShiftLeft(Load32(m, b[..4]), 4))
  }

  lemma DigitOr(x: Word, y: Word, i: nat)
    requires i < 8
    ensures Digit(x | y, i) == Digit(x, i) | Digit(y, i)
  {
    match i case 0 => case 1 => case 2 => case 3 => case 4 => case 5 => case 6 => case _ =>
  }

  /** Where one of two values has a zero byte, their union has the byte of the other. */
  lemma DigitUnion(x: Word, y: Word, i: nat)
    requires i < 8
    ensures Digit(x, i) == 0 ==> Digit(BitOr(x, y), i) == Digit(y, i)
    ensures Digit(y, i) == 0 ==> Digit(BitOr(x, y), i) == Digit(x, i)
  {
    DigitOr(x, y, i);
    hide Digit;
  }

  lemma DigitXor(x: Word, y: Word, i: nat)
    requires i < 8
    ensures Digit(BitXor(x, y), i) == Digit(x, i) ^ Digit(y, i)
  {
    match i case 0 => case 1 => case 2 => case 3 => case 4 => case 5 => case 6 => case _ =>
  }

  lemma DigitCut(m: Machine, x: Word, i: nat)
    requires i < 8
    ensures Digit(Cut(m, x), i) == if i < m.WordSize() then Digit(x, i) else 0
  {}

  lemma DigitShiftLeftLow(x: Word, n: nat, i: nat)
    requires 1 <= n < 4 && i < 8
    ensures Digit(ShiftLeft(x, n), i) == if i < n then 0 else Digit(x, i - n)
  {
    match n
    case 1 => match i { case 0 => case 1 => case 2 => case 3 => case 4 => case 5 => case 6 => case _ => }
    case 2 => match i { case 0 => case 1 => case 2 => case 3 => case 4 => case 5 => case 6 => case _ => }
    case _ => match i { case 0 => case 1 => case 2 => case 3 => case 4 => case 5 => case 6 => case _ => }
  }

  lemma DigitShiftLeftHigh(x: Word, n: nat, i: nat)
    requires 4 <= n < 8 && i < 8
    ensures Digit(ShiftLeft(x, n), i) == if i < n then 0 else Digit(x, i - n)
  {
    match n
    case 4 => match i { case 0 => case 1 => case 2 => case 3 => case 4 => case 5 => case 6 => case _ => }
    case 5 => match i { case 0 => case 1 => case 2 => case 3 => case 4 => case 5 => case 6 => case _ => }
    case 6 => match i { case 0 => case 1 => case 2 => case 3 => case 4 => case 5 => case 6 => case _ => }
    case _ => match i { case 0 => case 1 => case 2 => case 3 => case 4 => case 5 => case 6 => case _ => }
  }

  lemma DigitShiftLeft(x: Word, n: nat, i: nat)
    requires n < 8 && i < 8
    ensures Digit(ShiftLeft(x, n), i) == if i < n then 0 else Digit(x, i - n)
  {
    assert ShiftLeft(x, 0) == x;
    hide Digit, ShiftLeft;
    if 1 <= n < 4 {
      DigitShiftLeftLow(x, n, i);
    } else if 4 <= n {
      DigitShiftLeftHigh(x, n, i);
    }
  }

  lemma DigitShiftRightLow(x: Word, n: nat, i: nat)
    requires 1 <= n < 4 && i < 8
    ensures Digit(ShiftRight(x, n), i) == if i + n < 8 then Digit(x, i + n) else 0
  {
    match n
    case 1 => match i { case 0 => case 1 => case 2 => case 3 => case 4 => case 5 => case 6 => case _ => }
    case 2 => match i { case 0 => case 1 => case 2 => case 3 => case 4 => case 5 => case 6 => case _ => }
    case _ => match i { case 0 => case 1 => case 2 => case 3 => case 4 => case 5 => case 6 => case _ => }
  }

  lemma DigitShiftRightHigh(x: Word, n: nat, i: nat)
    requires 4 <= n < 8 && i < 8
    ensures Digit(ShiftRight(x, n), i) == if i + n < 8 then Digit(x, i + n) else 0
  {
    match n
    case 4 => match i { case 0 => case 1 => case 2 => case 3 => case 4 => case 5 => case 6 => case _ => }
    case 5 => match i { case 0 => case 1 => case 2 => case 3 => case 4 => case 5 => case 6 => case _ => }
    case 6 => match i { case 0 => case 1 => case 2 => case 3 => case 4 => case 5 => case 6 => case _ => }
    case _ => match i { case 0 => case 1 => case 2 => case 3 => case 4 => case 5 => case 6 => case _ => }
  }

  lemma DigitShiftRight(x: Word, n: nat, i: nat)
    requires n < 8 && i < 8
    ensures Digit(ShiftRight(x, n), i) == if i + n < 8 then Digit(x, i + n) else 0
  {
    assert ShiftRight(x, 0) == x;
    hide Digit, ShiftRight;
    if 1 <= n < 4 {
      DigitShiftRightLow(x, n, i);
    } else if 4 <= n {
      DigitShiftRightHigh(x, n, i);
    }
  }

  lemma DigitOfDigits(d0: Byte, d1: Byte, d2: Byte, d3: Byte, i: nat)
    requires i < 8
    ensures Digit(OfDigits(d0, d1, d2, d3), i) == if i == 0 then d0 else if i == 1 then d1 else if i == 2 then d2 else if i == 3 then d3 else 0
  {}

  /** A value is determined by its bytes. */
  lemma DigitsDetermine(x: Word, y: Word)
    requires forall i :: 0 <= i < 8 ==> Digit(x, i) == Digit(y, i)
    ensures x == y
  {
    assert Digit(x, 0) == Digit(y, 0) && Digit(x, 1) == Digit(y, 1) && Digit(x, 2) == Digit(y, 2) && Digit(x, 3) == Digit(y, 3);
    assert Digit(x, 4) == Digit(y, 4) && Digit(x, 5) == Digit(y, 5) && Digit(x, 6) == Digit(y, 6) && Digit(x, 7) == Digit(y, 7);
  }

  lemma FitsMeansHighDigitsZero(m: Machine, w: Word)
    ensures Fits(m, w) <==> forall i :: m.WordSize() <= i < 8 ==> Digit(w, i) == 0
  {
    if !m.wide {
      HighDigitsZero(w);
    }
  }

  lemma HighDigitsZero(w: Word)
    ensures w <= 0xFFFF_FFFF <==> Digit(w, 4) == 0 && Digit(w, 5) == 0 && Digit(w, 6) == 0 && Digit(w, 7) == 0
  {}

  /** A word of the machine is determined by its bytes in memory. */
  lemma BytesDetermine(m: Machine, x: Word, y: Word)
    requires Fits(m, x) && Fits(m, y)
    requires forall i :: 0 <= i < m.WordSize() ==> ByteAt(m, x, i) == ByteAt(m, y, i)
    ensures x == y
  {
    FitsMeansHighDigitsZero(m, x);
    FitsMeansHighDigitsZero(m, y);
    hide Digit;
    forall i | 0 <= i < 8 ensures Digit(x, i) == Digit(y, i) {
      if i < m.WordSize() {
        var j := if m.littleEndian then i else m.WordSize() - 1 - i;
        assert ByteAt(m, x, j) == ByteAt(m, y, j);
      }
    }
    DigitsDetermine(x, y);
  }

  lemma Load32Digit(m: Machine, c: seq<Byte>, i: nat)
    requires |c| == 4 && i < 8
    ensures Digit(Load32(m, c), i) == if i >= 4 then 0 else if m.littleEndian then c[i] else c[3 - i]
  {
    if m.littleEndian {
      DigitOfDigits(c[0], c[1], c[2], c[3], i);
    } else {
      DigitOfDigits(c[3], c[2], c[1], c[0], i);
    }
    hide Digit, OfDigits;
  }

  lemma LoadedBytesNarrow(m: Machine, b: seq<Byte>)
    requires !m.wide && |b| == 4
    ensures Fits(m, Load(m, b)) && forall i :: 0 <= i < 4 ==> ByteAt(m, Load(m, b), i) == b[i]
  {
    hide Digit, Load32;
    forall i | 0 <= i < 4 ensures ByteAt(m, Load(m, b), i) == b[i] {
      Load32Digit(m, b, if m.littleEndian then i else 3 - i);
    }
    forall k | 4 <= k < 8 ensures Digit(Load(m, b), k) == 0 {
      Load32Digit(m, b, k);
    }
    FitsMeansHighDigitsZero(m, Load(m, b));
  }

  lemma LoadedDigitWide(m: Machine, lo: seq<Byte>, hi: seq<Byte>, j: nat)
    requires |lo| == 4 && |hi| == 4 && j < 8
    ensures Digit(BitOr(Load32(m, lo), ShiftLeft(Load32(m, hi), 4)), j) ==
            if j < 4 then Digit(Load32(m, lo), j) else Digit(Load32(m, hi), j - 4)
  {
    hide Digit, Load32, ShiftLeft, BitOr;
    var x, y := Load32(m, lo), Load32(m, hi);
    DigitUnion(x, ShiftLeft(y, 4), j);
    DigitShiftLeft(y, 4, j);
    Load32Digit(m, lo, j);
  }

  lemma LoadedBytesWide(m: Machine, b: seq<Byte>, i: nat)
    requires m.wide && |b| == 8 && i < 8
    ensures ByteAt(m, Load(m, b), i) == b[i]
  {
    hide Digit, Load32, ShiftLeft, BitOr;
    if m.littleEndian {
      LoadedDigitWide(m, b[..4], b[4..], i);
      Load32Digit(m, if i < 4 then b[..4] else b[4..], i % 4);
    } else {
      LoadedDigitWide(m, b[4..], b[..4], 7 - i);
      Load32Digit(m, if i < 4 then b[..4] else b[4..], (7 - i) % 4);
    }
  }

  /** Reading a word and looking at its bytes gives the bytes read. */
  lemma LoadedBytes(m: Machine, b: seq<Byte>)
    requires |b| == m.WordSize()
    ensures Fits(m, Load(m, b)) && forall i :: 0 <= i < m.WordSize() ==> ByteAt(m, Load(m, b), i) == b[i]
  {
    hide Digit, Load;
    if m.wide {
      forall i | 0 <= i < 8 ensures ByteAt(m, Load(m, b), i) == b[i] {
        LoadedBytesWide(m, b, i);
      }
    } else {
      LoadedBytesNarrow(m, b);
    }
  }
}
