/**
 * The block transformation of md5.hpp: sixty-four operations written out one by one, against the table-driven
 * description of RFC 1321, section 3.4.
 */
module Md5Block {
  import opened Bytes
  import MachineWord

  type Word = bv32

  /** How far a word is rotated. */
  type Amount = n: bv6 | n < 32

  type Block = b: seq<Byte> | |b| == 64 witness seq(64, _ => 0)

  datatype Registers<W> = Registers(a: W, b: W, c: W, d: W)

  datatype Aux = F | G | H | I

  /** The operation of every step: its auxiliary function, the four registers, a message word, a shift and a constant. */
  type StepOp<!W> = (Aux, W, W, W, W, W, Amount, Word) -> W

  // ---------------------------------------------------------------------------------------------
  // RFC 1321, section 3.4: step i in terms of i
  // ---------------------------------------------------------------------------------------------

  function AuxOf(i: nat): Aux {
    if i < 16 then F else if i < 32 then G else if i < 48 then H else I
  }

  /** Which message word step i takes. */
  function WordIndex(i: nat): (k: nat)
    ensures k < 16
  {
    (if i < 16 then i else if i < 32 then 5 * i + 1 else if i < 48 then 3 * i + 5 else 7 * i) % 16
  }

  /** How far step i rotates. */
  function ShiftAmount(i: nat): (s: Amount)
    ensures 0 < s
  {
    match AuxOf(i)
    case F => if i % 4 == 0 then 7 else if i % 4 == 1 then 12 else if i % 4 == 2 then 17 else 22
    case G => if i % 4 == 0 then 5 else if i % 4 == 1 then 9 else if i % 4 == 2 then 14 else 20
    case H => if i % 4 == 0 then 4 else if i % 4 == 1 then 11 else if i % 4 == 2 then 16 else 23
    case I => if i % 4 == 0 then 6 else if i % 4 == 1 then 10 else if i % 4 == 2 then 15 else 21
  }

  function ConstantF(i: nat): Word {
    match i
    case 0 => 0xd76aa478 case 1 => 0xe8c7b756 case 2 => 0x242070db case 3 => 0xc1bdceee
    case 4 => 0xf57c0faf case 5 => 0x4787c62a case 6 => 0xa8304613 case 7 => 0xfd469501
    case 8 => 0x698098d8 case 9 => 0x8b44f7af case 10 => 0xffff5bb1 case 11 => 0x895cd7be
    case 12 => 0x6b901122 case 13 => 0xfd987193 case 14 => 0xa679438e case _ => 0x49b40821
  }

  function ConstantG(i: nat): Word {
    match i
    case 0 => 0xf61e2562 case 1 => 0xc040b340 case 2 => 0x265e5a51 case 3 => 0xe9b6c7aa
    case 4 => 0xd62f105d case 5 => 0x02441453 case 6 => 0xd8a1e681 case 7 => 0xe7d3fbc8
    case 8 => 0x21e1cde6 case 9 => 0xc33707d6 case 10 => 0xf4d50d87 case 11 => 0x455a14ed
    case 12 => 0xa9e3e905 case 13 => 0xfcefa3f8 case 14 => 0x676f02d9 case _ => 0x8d2a4c8a
  }

  function ConstantH(i: nat): Word {
    match i
    case 0 => 0xfffa3942 case 1 => 0x8771f681 case 2 => 0x6d9d6122 case 3 => 0xfde5380c
    case 4 => 0xa4beea44 case 5 => 0x4bdecfa9 case 6 => 0xf6bb4b60 case 7 => 0xbebfbc70
    case 8 => 0x289b7ec6 case 9 => 0xeaa127fa case 10 => 0xd4ef3085 case 11 => 0x04881d05
    case 12 => 0xd9d4d039 case 13 => 0xe6db99e5 case 14 => 0x1fa27cf8 case _ => 0xc4ac5665
  }

  function ConstantI(i: nat): Word {
    match i
    case 0 => 0xf4292244 case 1 => 0x432aff97 case 2 => 0xab9423a7 case 3 => 0xfc93a039
    case 4 => 0x655b59c3 case 5 => 0x8f0ccc92 case 6 => 0xffeff47d case 7 => 0x85845dd1
    case 8 => 0x6fa87e4f case 9 => 0xfe2ce6e0 case 10 => 0xa3014314 case 11 => 0x4e0811a1
    case 12 => 0xf7537e82 case 13 => 0xbd3af235 case 14 => 0x2ad7d2bb case _ => 0xeb86d391
  }

  /** The constant of step i, counted from zero. */
  function StepConstant(i: nat): Word {
    match AuxOf(i)
    case F => ConstantF(i)
    case G => ConstantG(i - 16)
    case H => ConstantH(i - 32)
    case I => ConstantI(i - 48)
  }

  /** One step, after which the registers move round by one place. */
  function Step<W>(op: StepOp<W>, i: nat, r: Registers<W>, x: seq<W>): Registers<W>
    requires i < 64 && |x| == 16
  {
    Registers(r.d, op(AuxOf(i), r.a, r.b, r.c, r.d, x[WordIndex(i)], ShiftAmount(i), StepConstant(i)), r.b, r.c)
  }

  function Steps<W>(op: StepOp<W>, n: nat, r: Registers<W>, x: seq<W>): Registers<W>
    requires n <= 64 && |x| == 16
  {
    if n == 0 then r else Step(op, n - 1, Steps(op, n - 1, r, x), x)
  }

  // ---------------------------------------------------------------------------------------------
  // The code: the operations written out, with the registers changing roles instead of moving
  // ---------------------------------------------------------------------------------------------

  const T_MASK: Word := 0xFFFF_FFFF

  method Round1<W>(op: StepOp<W>, r: Registers<W>, x: seq<W>, ghost r0: Registers<W>) returns (r': Registers<W>)
    requires |x| == 16 && r == Steps(op, 0, r0, x)
    ensures r' == Steps(op, 16, r0, x)
  {
    var a, b, c, d := r.a, r.b, r.c, r.d;
    a := op(F, a, b, c, d, x[0], 7, T_MASK ^ 0x28955b87);
    assert Registers(d, a, b, c) == Steps(op, 1, r0, x);
    d := op(F, d, a, b, c, x[1], 12, T_MASK ^ 0x173848a9);
    assert Registers(c, d, a, b) == Steps(op, 2, r0, x);
    c := op(F, c, d, a, b, x[2], 17, 0x242070db);
    assert Registers(b, c, d, a) == Steps(op, 3, r0, x);
    b := op(F, b, c, d, a, x[3], 22, T_MASK ^ 0x3e423111);
    assert Registers(a, b, c, d) == Steps(op, 4, r0, x);
    a := op(F, a, b, c, d, x[4], 7, T_MASK ^ 0x0a83f050);
    assert Registers(d, a, b, c) == Steps(op, 5, r0, x);
    d := op(F, d, a, b, c, x[5], 12, 0x4787c62a);
    assert Registers(c, d, a, b) == Steps(op, 6, r0, x);
    c := op(F, c, d, a, b, x[6], 17, T_MASK ^ 0x57cfb9ec);
    assert Registers(b, c, d, a) == Steps(op, 7, r0, x);
    b := op(F, b, c, d, a, x[7], 22, T_MASK ^ 0x02b96afe);
    assert Registers(a, b, c, d) == Steps(op, 8, r0, x);
    a := op(F, a, b, c, d, x[8], 7, 0x698098d8);
    assert Registers(d, a, b, c) == Steps(op, 9, r0, x);
    d := op(F, d, a, b, c, x[9], 12, T_MASK ^ 0x74bb0850);
    assert Registers(c, d, a, b) == Steps(op, 10, r0, x);
    c := op(F, c, d, a, b, x[10], 17, T_MASK ^ 0x0000a44e);
    assert Registers(b, c, d, a) == Steps(op, 11, r0, x);
    b := op(F, b, c, d, a, x[11], 22, T_MASK ^ 0x76a32841);
    assert Registers(a, b, c, d) == Steps(op, 12, r0, x);
    a := op(F, a, b, c, d, x[12], 7, 0x6b901122);
    assert Registers(d, a, b, c) == Steps(op, 13, r0, x);
    d := op(F, d, a, b, c, x[13], 12, T_MASK ^ 0x02678e6c);
    assert Registers(c, d, a, b) == Steps(op, 14, r0, x);
    c := op(F, c, d, a, b, x[14], 17, T_MASK ^ 0x5986bc71);
    assert Registers(b, c, d, a) == Steps(op, 15, r0, x);
    b := op(F, b, c, d, a, x[15], 22, 0x49b40821);
    assert Registers(a, b, c, d) == Steps(op, 16, r0, x);
    r' := Registers(a, b, c, d);
  }

  method Round2<W>(op: StepOp<W>, r: Registers<W>, x: seq<W>, ghost r0: Registers<W>) returns (r': Registers<W>)
    requires |x| == 16 && r == Steps(op, 16, r0, x)
    ensures r' == Steps(op, 32, r0, x)
  {
    var a, b, c, d := r.a, r.b, r.c, r.d;
    a := op(G, a, b, c, d, x[1], 5, T_MASK ^ 0x09e1da9d);
    assert Registers(d, a, b, c) == Steps(op, 17, r0, x);
    d := op(G, d, a, b, c, x[6], 9, T_MASK ^ 0x3fbf4cbf);
    assert Registers(c, d, a, b) == Steps(op, 18, r0, x);
    c := op(G, c, d, a, b, x[11], 14, 0x265e5a51);
    assert Registers(b, c, d, a) == Steps(op, 19, r0, x);
    b := op(G, b, c, d, a, x[0], 20, T_MASK ^ 0x16493855);
    assert Registers(a, b, c, d) == Steps(op, 20, r0, x);
    a := op(G, a, b, c, d, x[5], 5, T_MASK ^ 0x29d0efa2);
    assert Registers(d, a, b, c) == Steps(op, 21, r0, x);
    d := op(G, d, a, b, c, x[10], 9, 0x02441453);
    assert Registers(c, d, a, b) == Steps(op, 22, r0, x);
    c := op(G, c, d, a, b, x[15], 14, T_MASK ^ 0x275e197e);
    assert Registers(b, c, d, a) == Steps(op, 23, r0, x);
    b := op(G, b, c, d, a, x[4], 20, T_MASK ^ 0x182c0437);
    assert Registers(a, b, c, d) == Steps(op, 24, r0, x);
    a := op(G, a, b, c, d, x[9], 5, 0x21e1cde6);
    assert Registers(d, a, b, c) == Steps(op, 25, r0, x);
    d := op(G, d, a, b, c, x[14], 9, T_MASK ^ 0x3cc8f829);
    assert Registers(c, d, a, b) == Steps(op, 26, r0, x);
    c := op(G, c, d, a, b, x[3], 14, T_MASK ^ 0x0b2af278);
    assert Registers(b, c, d, a) == Steps(op, 27, r0, x);
    b := op(G, b, c, d, a, x[8], 20, 0x455a14ed);
    assert Registers(a, b, c, d) == Steps(op, 28, r0, x);
    a := op(G, a, b, c, d, x[13], 5, T_MASK ^ 0x561c16fa);
    assert Registers(d, a, b, c) == Steps(op, 29, r0, x);
    d := op(G, d, a, b, c, x[2], 9, T_MASK ^ 0x03105c07);
    assert Registers(c, d, a, b) == Steps(op, 30, r0, x);
    c := op(G, c, d, a, b, x[7], 14, 0x676f02d9);
    assert Registers(b, c, d, a) == Steps(op, 31, r0, x);
    b := op(G, b, c, d, a, x[12], 20, T_MASK ^ 0x72d5b375);
    assert Registers(a, b, c, d) == Steps(op, 32, r0, x);
    r' := Registers(a, b, c, d);
  }

  method Round3<W>(op: StepOp<W>, r: Registers<W>, x: seq<W>, ghost r0: Registers<W>) returns (r': Registers<W>)
    requires |x| == 16 && r == Steps(op, 32, r0, x)
    ensures r' == Steps(op, 48, r0, x)
  {
    var a, b, c, d := r.a, r.b, r.c, r.d;
    a := op(H, a, b, c, d, x[5], 4, T_MASK ^ 0x0005c6bd);
    assert Registers(d, a, b, c) == Steps(op, 33, r0, x);
    d := op(H, d, a, b, c, x[8], 11, T_MASK ^ 0x788e097e);
    assert Registers(c, d, a, b) == Steps(op, 34, r0, x);
    c := op(H, c, d, a, b, x[11], 16, 0x6d9d6122);
    assert Registers(b, c, d, a) == Steps(op, 35, r0, x);
    b := op(H, b, c, d, a, x[14], 23, T_MASK ^ 0x021ac7f3);
    assert Registers(a, b, c, d) == Steps(op, 36, r0, x);
    a := op(H, a, b, c, d, x[1], 4, T_MASK ^ 0x5b4115bb);
    assert Registers(d, a, b, c) == Steps(op, 37, r0, x);
    d := op(H, d, a, b, c, x[4], 11, 0x4bdecfa9);
    assert Registers(c, d, a, b) == Steps(op, 38, r0, x);
    c := op(H, c, d, a, b, x[7], 16, T_MASK ^ 0x0944b49f);
    assert Registers(b, c, d, a) == Steps(op, 39, r0, x);
    b := op(H, b, c, d, a, x[10], 23, T_MASK ^ 0x4140438f);
    assert Registers(a, b, c, d) == Steps(op, 40, r0, x);
    a := op(H, a, b, c, d, x[13], 4, 0x289b7ec6);
    assert Registers(d, a, b, c) == Steps(op, 41, r0, x);
    d := op(H, d, a, b, c, x[0], 11, T_MASK ^ 0x155ed805);
    assert Registers(c, d, a, b) == Steps(op, 42, r0, x);
    c := op(H, c, d, a, b, x[3], 16, T_MASK ^ 0x2b10cf7a);
    assert Registers(b, c, d, a) == Steps(op, 43, r0, x);
    b := op(H, b, c, d, a, x[6], 23, 0x04881d05);
    assert Registers(a, b, c, d) == Steps(op, 44, r0, x);
    a := op(H, a, b, c, d, x[9], 4, T_MASK ^ 0x262b2fc6);
    assert Registers(d, a, b, c) == Steps(op, 45, r0, x);
    d := op(H, d, a, b, c, x[12], 11, T_MASK ^ 0x1924661a);
    assert Registers(c, d, a, b) == Steps(op, 46, r0, x);
    c := op(H, c, d, a, b, x[15], 16, 0x1fa27cf8);
    assert Registers(b, c, d, a) == Steps(op, 47, r0, x);
    b := op(H, b, c, d, a, x[2], 23, T_MASK ^ 0x3b53a99a);
    assert Registers(a, b, c, d) == Steps(op, 48, r0, x);
    r' := Registers(a, b, c, d);
  }

  method Round4<W>(op: StepOp<W>, r: Registers<W>, x: seq<W>, ghost r0: Registers<W>) returns (r': Registers<W>)
    requires |x| == 16 && r == Steps(op, 48, r0, x)
    ensures r' == Steps(op, 64, r0, x)
  {
    var a, b, c, d := r.a, r.b, r.c, r.d;
    a := op(I, a, b, c, d, x[0], 6, T_MASK ^ 0x0bd6ddbb);
    assert Registers(d, a, b, c) == Steps(op, 49, r0, x);
    d := op(I, d, a, b, c, x[7], 10, 0x432aff97);
    assert Registers(c, d, a, b) == Steps(op, 50, r0, x);
    c := op(I, c, d, a, b, x[14], 15, T_MASK ^ 0x546bdc58);
    assert Registers(b, c, d, a) == Steps(op, 51, r0, x);
    b := op(I, b, c, d, a, x[5], 21, T_MASK ^ 0x036c5fc6);
    assert Registers(a, b, c, d) == Steps(op, 52, r0, x);
    a := op(I, a, b, c, d, x[12], 6, 0x655b59c3);
    assert Registers(d, a, b, c) == Steps(op, 53, r0, x);
    d := op(I, d, a, b, c, x[3], 10, T_MASK ^ 0x70f3336d);
    assert Registers(c, d, a, b) == Steps(op, 54, r0, x);
    c := op(I, c, d, a, b, x[10], 15, T_MASK ^ 0x00100b82);
    assert Registers(b, c, d, a) == Steps(op, 55, r0, x);
    b := op(I, b, c, d, a, x[1], 21, T_MASK ^ 0x7a7ba22e);
    assert Registers(a, b, c, d) == Steps(op, 56, r0, x);
    a := op(I, a, b, c, d, x[8], 6, 0x6fa87e4f);
    assert Registers(d, a, b, c) == Steps(op, 57, r0, x);
    d := op(I, d, a, b, c, x[15], 10, T_MASK ^ 0x01d3191f);
    assert Registers(c, d, a, b) == Steps(op, 58, r0, x);
    c := op(I, c, d, a, b, x[6], 15, T_MASK ^ 0x5cfebceb);
    assert Registers(b, c, d, a) == Steps(op, 59, r0, x);
    b := op(I, b, c, d, a, x[13], 21, 0x4e0811a1);
    assert Registers(a, b, c, d) == Steps(op, 60, r0, x);
    a := op(I, a, b, c, d, x[4], 6, T_MASK ^ 0x08ac817d);
    assert Registers(d, a, b, c) == Steps(op, 61, r0, x);
    d := op(I, d, a, b, c, x[11], 10, T_MASK ^ 0x42c50dca);
    assert Registers(c, d, a, b) == Steps(op, 62, r0, x);
    c := op(I, c, d, a, b, x[2], 15, 0x2ad7d2bb);
    assert Registers(b, c, d, a) == Steps(op, 63, r0, x);
    b := op(I, b, c, d, a, x[9], 21, T_MASK ^ 0x14792c6e);
    assert Registers(a, b, c, d) == Steps(op, 64, r0, x);
    r' := Registers(a, b, c, d);
  }

  // ---------------------------------------------------------------------------------------------
  // The block transformation
  // ---------------------------------------------------------------------------------------------

  function Auxiliary(f: Aux, x: Word, y: Word, z: Word): Word {
    match f
    case F => (x & y) | (!x & z)
    case G => (x & z) | (y & !z)
    case H => x ^ y ^ z
    case I => y ^ (x | !z)
  }

  function RotateLeft(x: Word, n: Amount): Word {
    (x << n) | (x >> (32 - n))
  }

  /** Unsigned addition, which wraps. */
  function Add(a: Word, b: Word): Word {
    a + b
  }

  /** The sum that an operation rotates. */
  function Mixed(a: Word, g: Word, x: Word, t: Word): Word {
    a + g + x + t
  }

  /** [abcd k s i]: a = b + ((a + f(b,c,d) + X[k] + T[i]) <<< s). */
  function SetWord(f: Aux, a: Word, b: Word, c: Word, d: Word, x: Word, s: Amount, t: Word): Word {
    Add(RotateLeft(Mixed(a, Auxiliary(f, b, c, d), x, t), s), b)
  }

  /** Four bytes, least significant first, as a word. */
  function LeWord(b: seq<Byte>): Word
    requires |b| == 4
  {
    (b[0] as Word) | ((b[1] as Word) << 8) | ((b[2] as Word) << 16) | ((b[3] as Word) << 24)
  }

  function Words(block: Block): (x: seq<Word>)
    ensures |x| == 16
  {
    seq(16, i requires 0 <= i < 16 => LeWord(block[4 * i..4 * i + 4]))
  }

  function AddRegisters(h: Registers<Word>, r: Registers<Word>): Registers<Word> {
    Registers(Add(h.a, r.a), Add(h.b, r.b), Add(h.c, r.c), Add(h.d, r.d))
  }

  /** RFC 1321, section 3.4: the four registers after one block, four passes over its sixteen words. */
  function Compress(h: Registers<Word>, block: Block): Registers<Word> {
    var x := Words(block);
    var r := Steps(SetWord, 4 * |x|, h, x);
    AddRegisters(h, r)
  }

  /** The words of a block as a host reads them where they lie. */
  function WordsInMemory(littleEndian: bool, block: Block): (x: seq<Word>)
    ensures |x| == 16
  {
    seq(16, i requires 0 <= i < 16 => HostWord(littleEndian, block[4 * i..4 * i + 4]))
  }

  /** Four bytes of memory as a `md5_word_t` of the host. */
  function HostWord(littleEndian: bool, b: seq<Byte>): Word
    requires |b| == 4
  {
    (MachineWord.Load32(MachineWord.Machine(false, littleEndian), b) & 0xFFFF_FFFF) as Word
  }

  lemma LittleEndianHostWord(b: seq<Byte>)
    requires |b| == 4
    ensures HostWord(true, b) == LeWord(b)
  {}

  // ---------------------------------------------------------------------------------------------
  // What the operations compute, bit by bit and as integers
  // ---------------------------------------------------------------------------------------------

  /** A place in a word; places wrap round modulo 32. */
  type Place = bv5

  predicate Bit(w: Word, i: Place) {
    (w >> i) & 1 == 1
  }

  lemma ChooseByFirstBit(x: Word, y: Word, z: Word, i: Place)
    ensures Bit((x & y) | (!x & z), i) == if Bit(x, i) then Bit(y, i) else Bit(z, i)
  {}

  /** F takes the bits of y where x has ones and the bits of z elsewhere. */
  lemma ChooseByFirst(x: Word, y: Word, z: Word, i: Place)
    ensures Bit(Auxiliary(F, x, y, z), i) == if Bit(x, i) then Bit(y, i) else Bit(z, i)
  {
    ChooseByFirstBit(x, y, z, i);
    hide Bit;
  }

  lemma ChooseByLastBit(x: Word, y: Word, z: Word, i: Place)
    ensures Bit((x & z) | (y & !z), i) == if Bit(z, i) then Bit(x, i) else Bit(y, i)
  {}

  /** G takes the bits of x where z has ones and the bits of y elsewhere. */
  lemma ChooseByLast(x: Word, y: Word, z: Word, i: Place)
    ensures Bit(Auxiliary(G, x, y, z), i) == if Bit(z, i) then Bit(x, i) else Bit(y, i)
  {
    ChooseByLastBit(x, y, z, i);
    hide Bit;
  }

  lemma ParityOfThreeBit(x: Word, y: Word, z: Word, i: Place)
    ensures Bit(x ^ y ^ z, i) == (Bit(x, i) != (Bit(y, i) != Bit(z, i)))
  {}

  /** H is the parity of the three bits. */
  lemma ParityOfThree(x: Word, y: Word, z: Word, i: Place)
    ensures Bit(Auxiliary(H, x, y, z), i) == (Bit(x, i) != (Bit(y, i) != Bit(z, i)))
  {
    ParityOfThreeBit(x, y, z, i);
    hide Bit;
  }

  lemma ExclusiveOrBit(x: Word, y: Word, z: Word, i: Place)
    ensures Bit(y ^ (x | !z), i) == (Bit(y, i) != (Bit(x, i) || !Bit(z, i)))
  {}

  /** I is y xor (x or not z), bit by bit. */
  lemma ExclusiveOr(x: Word, y: Word, z: Word, i: Place)
    ensures Bit(Auxiliary(I, x, y, z), i) == (Bit(y, i) != (Bit(x, i) || !Bit(z, i)))
  {
    ExclusiveOrBit(x, y, z, i);
    hide Bit;
  }

  lemma RotatedBit(x: Word, n: Amount, i: Place)
    ensures Bit((x << n) | (x >> (32 - n)), i + n as Place) == Bit(x, i)
  {}

  /** Rotating by n moves every bit n places up, round the end of the word. */
  lemma RotateMovesBits(x: Word, n: Amount, i: Place)
    ensures Bit(RotateLeft(x, n), i + n as Place) == Bit(x, i)
  {
    RotatedBit(x, n, i);
    hide Bit;
  }

  /** As numbers, and modulo 2^32, `sum` is the sum of the others. */
  predicate IsSum(sum: Word, a: Word, b: Word) {
    sum as bv64 == (a as bv64 + b as bv64) & 0xFFFF_FFFF
  }

  predicate IsSumOfFour(sum: Word, a: Word, b: Word, c: Word, d: Word) {
    sum as bv64 == (a as bv64 + b as bv64 + c as bv64 + d as bv64) & 0xFFFF_FFFF
  }

  lemma MixedIsSum(a: Word, g: Word, x: Word, t: Word)
    ensures IsSumOfFour(Mixed(a, g, x, t), a, g, x, t)
  {}

  /** An operation adds four words, rotates the sum, and adds a fifth. */
  lemma SetWordSums(f: Aux, a: Word, b: Word, c: Word, d: Word, x: Word, s: Amount, t: Word) returns (u: Word)
    ensures IsSumOfFour(u, a, Auxiliary(f, b, c, d), x, t)
    ensures IsSum(SetWord(f, a, b, c, d, x, s, t), RotateLeft(u, s), b)
  {
    hide Mixed, Auxiliary, RotateLeft, Add, IsSum, IsSumOfFour;
    u := Mixed(a, Auxiliary(f, b, c, d), x, t);
    MixedIsSum(a, Auxiliary(f, b, c, d), x, t);
    AddIsSum(RotateLeft(u, s), b);
  }

  /** The registers of the previous block are added, word by word. */
  lemma AddRegistersSums(h: Registers<Word>, r: Registers<Word>)
    ensures var sum := AddRegisters(h, r);
            IsSum(sum.a, h.a, r.a) && IsSum(sum.b, h.b, r.b) && IsSum(sum.c, h.c, r.c) && IsSum(sum.d, h.d, r.d)
  {
    hide IsSum, Add;
    AddIsSum(h.a, r.a);
    AddIsSum(h.b, r.b);
    AddIsSum(h.c, r.c);
    AddIsSum(h.d, r.d);
  }

  lemma AddIsSum(a: Word, b: Word)
    ensures IsSum(Add(a, b), a, b)
  {}

  /**
   * A little-endian machine reads the words of the block where they lie, a big-endian one adds them up from their
   * bytes; both get the same words.
   */
  method GatherWords(data: Block, littleEndian: bool) returns (x: seq<Word>)
    ensures x == Words(data)
  {
    if littleEndian {
      x := WordsInMemory(littleEndian, data);
      forall i | 0 <= i < 16 ensures x[i] == Words(data)[i] {
        LittleEndianHostWord(data[4 * i..4 * i + 4]);
      }
      return;
    }
    x := [];
    for i := 0 to 16
      invariant |x| == i && x == Words(data)[..i]
    {
      var xp := data[4 * i..4 * i + 4];
      WordIsSum(xp);
      x := x + [(xp[0] as Word) + ((xp[1] as Word) << 8) + ((xp[2] as Word) << 16) + ((xp[3] as Word) << 24)];
    }
  }

  method AllRounds<W>(op: StepOp<W>, r: Registers<W>, x: seq<W>) returns (r': Registers<W>)
    requires |x| == 16
    ensures r' == Steps(op, 4 * |x|, r, x)
  {
    r' := Round1(op, r, x, r);
    r' := Round2(op, r', x, r);
    r' := Round3(op, r', x, r);
    r' := Round4(op, r', x, r);
  }

  /** `md5_process`, which leaves the registers after one more block. */
  method Process(abcd: Registers<Word>, data: Block, littleEndian: bool) returns (abcd': Registers<Word>)
    ensures abcd' == Compress(abcd, data)
  {
    var x := GatherWords(data, littleEndian);
    var r := AllRounds(SetWord, abcd, x);
    abcd' := AddRegisters(abcd, r);
  }

  lemma WordIsSum(b: seq<Byte>)
    requires |b| == 4
    ensures (b[0] as Word) + ((b[1] as Word) << 8) + ((b[2] as Word) << 16) + ((b[3] as Word) << 24) == LeWord(b)
  {}
}
