/** Base64 as base64.hpp encodes and decodes it, against sections 3.5 and 4 of RFC 4648. */
module Base64 {
  import opened Bytes

  // ---------------------------------------------------------------------------------------------
  // The alphabet
  // ---------------------------------------------------------------------------------------------

  const UPPER: string := "ABCDEFGHIJKLMNOPQRSTUVWXYZ"
  const LOWER: string := "abcdefghijklmnopqrstuvwxyz"
  const OTHER: string := "0123456789+/"

  const BASE64_CHARS: string := UPPER + LOWER + OTHER

  /** `std::string::npos` of a 64-bit library. */
  const NPOS: nat := 0xFFFF_FFFF_FFFF_FFFF

  /** A value below 64. */
  type Sextet = v: Byte | v < 64

  predicate IsBase64(c: char) {
    var n := c as int;
    n == 43 || 47 <= n <= 57 || 65 <= n <= 90 || 97 <= n <= 122
  }

  /** The code of the alphabet's character for a value. */
  function CodeOf(v: nat): nat
    requires v < 64
  {
    if v < 26 then 65 + v else if v < 52 then 71 + v else if v < 62 then v - 4 else if v == 62 then 43 else 47
  }

  lemma UpperAt(v: nat)
    requires v < 26
    ensures |UPPER| == 26 && UPPER[v] as int == 65 + v
  {}

  lemma LowerAt(v: nat)
    requires v < 26
    ensures |LOWER| == 26 && LOWER[v] as int == 97 + v
  {}

  lemma OtherAt(v: nat)
    requires v < 12
    ensures |OTHER| == 12 && OTHER[v] as int == if v < 10 then 48 + v else if v == 10 then 43 else 47
  {}

  lemma AlphabetAt(v: nat)
    requires v < 64
    ensures |BASE64_CHARS| == 64 && BASE64_CHARS[v] as int == CodeOf(v)
  {
    UpperAt(if v < 26 then v else 0);
    LowerAt(if 26 <= v < 52 then v - 26 else 0);
    OtherAt(if 52 <= v then v - 52 else 0);
  }

  lemma AlphabetIsBase64(v: nat)
    requires v < 64
    ensures |BASE64_CHARS| == 64 && IsBase64(BASE64_CHARS[v])
  {
    AlphabetAt(v);
  }

  /** Where the alphabet has a character. */
  function PlaceOf(c: char): (v: nat)
    requires IsBase64(c)
    ensures v < 64 && CodeOf(v) == c as int
  {
    var n := c as int;
    if n == 43 then 62 else if n == 47 then 63 else if n < 58 then n + 4 else if n < 91 then n - 65 else n - 71
  }

  lemma PlaceIsUnique(c: char, v: nat)
    requires v < 64 && IsBase64(c)
    ensures |BASE64_CHARS| == 64 && (BASE64_CHARS[v] == c <==> v == PlaceOf(c))
  {
    AlphabetAt(v);
  }

  lemma SmallByte(x: int)
    requires 0 <= x < 64
    ensures (x as bv8) as int == x
  {}

  /** RFC 4648, table 1, in both directions. */
  function CharOf(v: Sextet): (c: char)
    ensures IsBase64(c) && PlaceOf(c) == v as int
    ensures v as int < 26 ==> c as int == 'A' as int + v as int
    ensures 26 <= v as int < 52 ==> c as int == 'a' as int + (v as int - 26)
    ensures 52 <= v as int < 62 ==> c as int == '0' as int + (v as int - 52)
    ensures v as int == 62 ==> c == '+'
    ensures v as int == 63 ==> c == '/'
  {
    AlphabetAt(v as int);
    AlphabetIsBase64(v as int);
    PlaceIsUnique(BASE64_CHARS[v as int], v as int);
    BASE64_CHARS[v as int]
  }

  function SextetOf(c: char): (v: Sextet)
    requires IsBase64(c)
    ensures v as int == PlaceOf(c)
  {
    SmallByte(PlaceOf(c));
    PlaceOf(c) as Byte
  }

  /** `base64_chars.find`: the first place of a character, or `npos`. */
  method Find(c: char) returns (pos: nat)
    ensures pos == if IsBase64(c) then PlaceOf(c) else NPOS
  {
    AlphabetAt(0);
    for i := 0 to |BASE64_CHARS|
      invariant IsBase64(c) ==> i <= PlaceOf(c)
    {
      AlphabetIsBase64(i);
      if IsBase64(c) {
        PlaceIsUnique(c, i);
      }
      if BASE64_CHARS[i] == c {
        return i;
      }
    }
    return NPOS;
  }

  /** The conversion of a `size_t` to an `unsigned char`. */
  function CastToByte(pos: nat): Byte {
    (pos % 256) as Byte
  }

  lemma CastOfFind(c: char)
    requires IsBase64(c)
    ensures CastToByte(PlaceOf(c)) == SextetOf(c)
  {}

  // ---------------------------------------------------------------------------------------------
  // RFC 4648, section 4: groups of 24 bits
  // ---------------------------------------------------------------------------------------------

  function GroupOfBytes(b0: Byte, b1: Byte, b2: Byte): bv32 {
    ((b0 as bv32) << 16) | ((b1 as bv32) << 8) | (b2 as bv32)
  }

  function GroupOfSextets(s0: Sextet, s1: Sextet, s2: Sextet, s3: Sextet): bv32 {
    ((s0 as bv32) << 18) | ((s1 as bv32) << 12) | ((s2 as bv32) << 6) | (s3 as bv32)
  }

  function BytesOfGroup(g: bv32): (b: seq<Byte>)
    ensures |b| == 3
  {
    [((g >> 16) & 0xFF) as Byte, ((g >> 8) & 0xFF) as Byte, (g & 0xFF) as Byte]
  }

  function SextetsOfGroup(g: bv32): (s: seq<Sextet>)
    ensures |s| == 4
  {
    [((g >> 18) & 0x3F) as Byte, ((g >> 12) & 0x3F) as Byte, ((g >> 6) & 0x3F) as Byte, (g & 0x3F) as Byte]
  }

  /** Regrouping 24 bits loses nothing, in either direction. */
  lemma GroupRoundTrip(b0: Byte, b1: Byte, b2: Byte)
    ensures var s := SextetsOfGroup(GroupOfBytes(b0, b1, b2));
            BytesOfGroup(GroupOfSextets(s[0], s[1], s[2], s[3])) == [b0, b1, b2]
  {}

  // ---------------------------------------------------------------------------------------------
  // Byte strings and their encodings
  // ---------------------------------------------------------------------------------------------

  /** The values of the characters that encode `x`; missing bits of the last group are zero. */
  function ToSextets(x: seq<Byte>): seq<Sextet> {
    if |x| >= 3 then SextetsOfGroup(GroupOfBytes(x[0], x[1], x[2])) + ToSextets(x[3..])
    else if |x| == 2 then SextetsOfGroup(GroupOfBytes(x[0], x[1], 0))[..3]
    else if |x| == 1 then SextetsOfGroup(GroupOfBytes(x[0], 0, 0))[..2]
    else []
  }

  /** The bytes that a string of values holds; bits beyond the last whole byte are dropped. */
  function FromSextets(s: seq<Sextet>): seq<Byte> {
    if |s| >= 4 then BytesOfGroup(GroupOfSextets(s[0], s[1], s[2], s[3])) + FromSextets(s[4..])
    else if |s| == 3 then BytesOfGroup(GroupOfSextets(s[0], s[1], s[2], 0))[..2]
    else if |s| == 2 then BytesOfGroup(GroupOfSextets(s[0], s[1], 0, 0))[..1]
    else []
  }

  function Chars(s: seq<Sextet>): (t: string)
    ensures |t| == |s| && forall i :: 0 <= i < |t| ==> IsBase64(t[i])
  {
    seq(|s|, i requires 0 <= i < |s| => CharOf(s[i]))
  }

  predicate AllBase64(t: string) {
    forall i :: 0 <= i < |t| ==> IsBase64(t[i])
  }

  function Values(t: string): (s: seq<Sextet>)
    requires AllBase64(t)
    ensures |s| == |t|
  {
    seq(|t|, i requires 0 <= i < |t| => SextetOf(t[i]))
  }

  /** As many pad characters as bring `length` characters to a multiple of four. */
  function PadTo4(length: nat): (p: string)
    ensures |p| < 4 && (length + |p|) % 4 == 0
  {
    seq((4 - length % 4) % 4, _ => '=')
  }

  function Encoded(x: seq<Byte>): string {
    var t := Chars(ToSextets(x));
    t + PadTo4(|t|)
  }

  /** How many characters of the alphabet a string starts with. */
  function PrefixLength(t: string): (k: nat)
    ensures k <= |t| && (forall i :: 0 <= i < k ==> IsBase64(t[i])) && (k < |t| ==> !IsBase64(t[k]))
  {
    if t == "" || !IsBase64(t[0]) then 0 else 1 + PrefixLength(t[1..])
  }

  function Decoded(t: string): seq<Byte> {
    FromSextets(Values(t[..PrefixLength(t)]))
  }

  /** The bits of the last character that no byte takes are zero, and the last character is not a group of its own. */
  predicate Canonical(s: seq<Sextet>) {
    && |s| % 4 != 1
    && (|s| % 4 == 2 ==> s[|s| - 1] & 0x0F == 0)
    && (|s| % 4 == 3 ==> s[|s| - 1] & 0x03 == 0)
  }

  lemma {:induction false} SextetCount(x: seq<Byte>)
    ensures |ToSextets(x)| == (4 * |x| + 2) / 3
    decreases |x|
  {
    hide SextetsOfGroup, GroupOfBytes;
    if |x| >= 3 {
      SextetCount(x[3..]);
    }
  }

  lemma {:induction false} ByteCount(s: seq<Sextet>)
    ensures |FromSextets(s)| == 3 * |s| / 4
    decreases |s|
  {
    hide BytesOfGroup, GroupOfSextets;
    if |s| >= 4 {
      ByteCount(s[4..]);
    }
  }

  lemma {:induction false} ToSextetsAppend(a: seq<Byte>, b: seq<Byte>)
    requires |a| % 3 == 0
    ensures ToSextets(a + b) == ToSextets(a) + ToSextets(b)
    decreases |a|
  {
    hide SextetsOfGroup, GroupOfBytes;
    if a == [] {
      assert a + b == b;
    } else {
      assert (a + b)[3..] == a[3..] + b;
      ToSextetsAppend(a[3..], b);
    }
  }

  lemma {:induction false} FromSextetsAppend(a: seq<Sextet>, b: seq<Sextet>)
    requires |a| % 4 == 0
    ensures FromSextets(a + b) == FromSextets(a) + FromSextets(b)
    decreases |a|
  {
    hide BytesOfGroup, GroupOfSextets;
    if a == [] {
      assert a + b == b;
    } else {
      assert (a + b)[4..] == a[4..] + b;
      FromSextetsAppend(a[4..], b);
    }
  }

  lemma GroupOfTwo(b0: Byte, b1: Byte)
    ensures var s := SextetsOfGroup(GroupOfBytes(b0, b1, 0));
            && BytesOfGroup(GroupOfSextets(s[0], s[1], s[2], 0))[..2] == [b0, b1]
            && s[2] & 0x03 == 0
  {}

  lemma GroupOfOne(b0: Byte)
    ensures var s := SextetsOfGroup(GroupOfBytes(b0, 0, 0));
            && BytesOfGroup(GroupOfSextets(s[0], s[1], 0, 0))[..1] == [b0]
            && s[1] & 0x0F == 0
  {}

  lemma {:induction false} FromToSextets(x: seq<Byte>)
    ensures FromSextets(ToSextets(x)) == x
    decreases |x|
  {
    hide SextetsOfGroup, GroupOfBytes, BytesOfGroup, GroupOfSextets;
    var s := ToSextets(x);
    if |x| >= 3 {
      GroupRoundTrip(x[0], x[1], x[2]);
      FromToSextets(x[3..]);
      assert s[4..] == ToSextets(x[3..]);
      assert x == [x[0], x[1], x[2]] + x[3..];
    } else if |x| == 2 {
      GroupOfTwo(x[0], x[1]);
      assert x == [x[0], x[1]];
    } else if |x| == 1 {
      GroupOfOne(x[0]);
      assert x == [x[0]];
    }
  }

  lemma CommonFront<T>(front: seq<T>, a: seq<T>, b: seq<T>)
    ensures front + a == front + b <==> a == b
  {
    assert (front + a)[|front|..] == a && (front + b)[|front|..] == b;
  }

  /** A whole group comes back as it was. */
  lemma ToFromWholeGroup(s: seq<Sextet>)
    requires |s| >= 4
    ensures ToSextets(FromSextets(s)) == s[..4] + ToSextets(FromSextets(s[4..]))
  {
    hide FromSextets, ToSextets, BytesOfGroup, GroupOfSextets;
    var first := BytesOfGroup(GroupOfSextets(s[0], s[1], s[2], s[3]));
    FromSextetsSplits(s);
    ToSextetsAppend(first, FromSextets(s[4..]));
    WholeGroup(s);
  }

  lemma FromSextetsSplits(s: seq<Sextet>)
    requires |s| >= 4
    ensures FromSextets(s) == BytesOfGroup(GroupOfSextets(s[0], s[1], s[2], s[3])) + FromSextets(s[4..])
  {}

  lemma WholeGroup(s: seq<Sextet>)
    requires |s| >= 4
    ensures ToSextets(BytesOfGroup(GroupOfSextets(s[0], s[1], s[2], s[3]))) == s[..4]
  {}

  lemma ToFromThree(s: seq<Sextet>)
    requires |s| == 3
    ensures ToSextets(FromSextets(s)) == s <==> s[2] & 0x03 == 0
  {}

  lemma ToFromTwo(s: seq<Sextet>)
    requires |s| == 2
    ensures ToSextets(FromSextets(s)) == s <==> s[1] & 0x0F == 0
  {}

  lemma CanonicalDrop(s: seq<Sextet>)
    requires |s| >= 4
    ensures Canonical(s) <==> Canonical(s[4..])
  {}

  /** Encoding what was decoded restores the values exactly when they are canonical. */
  lemma {:induction false} ToFromSextets(s: seq<Sextet>)
    ensures ToSextets(FromSextets(s)) == s <==> Canonical(s)
    decreases |s|
  {
    if |s| >= 4 {
      hide ToSextets, FromSextets, Canonical;
      ToFromWholeGroup(s);
      ToFromSextets(s[4..]);
      CommonFront(s[..4], ToSextets(FromSextets(s[4..])), s[4..]);
      CanonicalDrop(s);
      assert s == s[..4] + s[4..];
    } else if |s| == 3 {
      hide ToSextets, FromSextets;
      ToFromThree(s);
    } else if |s| == 2 {
      hide ToSextets, FromSextets;
      ToFromTwo(s);
    }
  }

  // ---------------------------------------------------------------------------------------------
  // The round trips
  // ---------------------------------------------------------------------------------------------

  lemma ValuesOfChars(s: seq<Sextet>)
    ensures Values(Chars(s)) == s
  {}

  lemma CharsOfValues(t: string)
    requires forall i :: 0 <= i < |t| ==> IsBase64(t[i])
    ensures Chars(Values(t)) == t
  {}

  lemma {:induction false} PrefixIs(t: string, k: nat)
    requires k <= |t| && (forall i :: 0 <= i < k ==> IsBase64(t[i])) && (k < |t| ==> !IsBase64(t[k]))
    ensures PrefixLength(t) == k
    decreases |t|
  {}

  lemma PrefixOfPadded(t: string, n: nat)
    requires forall i :: 0 <= i < |t| ==> IsBase64(t[i])
    ensures PrefixLength(t + PadTo4(n)) == |t|
    ensures (t + PadTo4(n))[..|t|] == t
  {
    PrefixIs(t + PadTo4(n), |t|);
  }

  /** Decoding inverts encoding on every byte string. */
  lemma DecodeInvertsEncode(x: seq<Byte>)
    ensures Decoded(Encoded(x)) == x
    ensures |Encoded(x)| == (|x| + 2) / 3 * 4
  {
    hide ToSextets, FromSextets, Chars, Values, PrefixLength;
    var t := Chars(ToSextets(x));
    PrefixOfPadded(t, |t|);
    ValuesOfChars(ToSextets(x));
    FromToSextets(x);
    SextetCount(x);
    PaddedLength(|x|);
  }

  lemma PaddedLength(n: nat)
    ensures var k := (4 * n + 2) / 3; k + (4 - k % 4) % 4 == (n + 2) / 3 * 4
  {
    var q := n / 3;
    assert n == 3 * q || n == 3 * q + 1 || n == 3 * q + 2;
  }

  /** Decoding yields three bytes for four characters of the alphabet prefix, rounded down. */
  lemma DecodedLength(t: string)
    ensures |Decoded(t)| == 3 * PrefixLength(t) / 4
  {
    ByteCount(Values(t[..PrefixLength(t)]));
  }

  /** Only the longest prefix over the alphabet matters. */
  lemma DecodeSeesOnlyPrefix(t: string, u: string)
    requires t[..PrefixLength(t)] == u[..PrefixLength(u)]
    ensures Decoded(t) == Decoded(u)
  {}

  /** Encoding what was decoded gives the alphabet prefix, padded, exactly when that prefix is canonical. */
  lemma EncodeInvertsDecodeIffCanonical(t: string)
    ensures var prefix := t[..PrefixLength(t)];
            Encoded(Decoded(t)) == prefix + PadTo4(|prefix|) <==> Canonical(Values(prefix))
  {
    hide ToSextets, FromSextets, Chars, Values, PrefixLength, Canonical;
    var prefix := t[..PrefixLength(t)];
    var s := Values(prefix);
    var r := ToSextets(FromSextets(s));
    ToFromSextets(s);
    CharsOfValues(prefix);
    if Encoded(Decoded(t)) == prefix + PadTo4(|prefix|) {
      PrefixOfPadded(Chars(r), |r|);
      PrefixOfPadded(prefix, |prefix|);
      ValuesOfChars(r);
    }
  }

  /** Two of the test vectors of RFC 4648, section 10: "foob" and "fooba". */
  lemma TestVectors()
    ensures Encoded([0x66, 0x6f, 0x6f, 0x62]) == "Zm9vYg=="
    ensures Encoded([0x66, 0x6f, 0x6f, 0x62, 0x61]) == "Zm9vYmE="
  {
    FirstVector();
    SecondVector();
  }

  lemma FirstVector()
    ensures Encoded([0x66, 0x6f, 0x6f, 0x62]) == "Zm9vYg=="
  {
    assert SextetsOfGroup(GroupOfBytes(0x66, 0x6f, 0x6f)) == [25, 38, 61, 47];
    assert SextetsOfGroup(GroupOfBytes(0x62, 0, 0))[..2] == [24, 32];
    hide SextetsOfGroup, GroupOfBytes;
    assert [0x66, 0x6f, 0x6f, 0x62][3..] == [0x62];
    assert ToSextets([0x66, 0x6f, 0x6f, 0x62]) == [25, 38, 61, 47, 24, 32];
    assert Chars([25, 38, 61, 47, 24, 32]) == "Zm9vYg" && PadTo4(6) == "==";
  }

  lemma SecondVector()
    ensures Encoded([0x66, 0x6f, 0x6f, 0x62, 0x61]) == "Zm9vYmE="
  {
    assert SextetsOfGroup(GroupOfBytes(0x66, 0x6f, 0x6f)) == [25, 38, 61, 47];
    assert SextetsOfGroup(GroupOfBytes(0x62, 0x61, 0))[..3] == [24, 38, 4];
    hide SextetsOfGroup, GroupOfBytes;
    assert [0x66, 0x6f, 0x6f, 0x62, 0x61][3..] == [0x62, 0x61];
    assert ToSextets([0x66, 0x6f, 0x6f, 0x62, 0x61]) == [25, 38, 61, 47, 24, 38, 4];
    assert Chars([25, 38, 61, 47, 24, 38, 4]) == "Zm9vYmE" && PadTo4(7) == "=";
  }

  /** A string that does not come back: the unused bits of "AB" are not zero, and decoding drops them. */
  lemma UnusedBitsAreLost()
    ensures Encoded(Decoded("AB")) == "AA=="
  {
    assert "AB"[..2] == "AB";
    PrefixIs("AB", 2);
    assert Values("AB") == [0, 1];
    assert FromSextets([0, 1]) == [0] && ToSextets([0]) == [0, 0];
    assert Chars([0, 0]) == "AA" && PadTo4(2) == "==";
  }

  /** And another: a single character left over is less than a byte. */
  lemma LoneCharacterIsLost()
    ensures Encoded(Decoded("A")) == ""
  {
    assert "A"[..1] == "A";
    PrefixIs("A", 1);
    assert Values("A") == [0];
    assert FromSextets([0]) == [] && Encoded([]) == "";
  }

  // ---------------------------------------------------------------------------------------------
  // The code
  // ---------------------------------------------------------------------------------------------

  lemma CharsAppend(a: seq<Sextet>, b: seq<Sextet>)
    ensures Chars(a + b) == Chars(a) + Chars(b)
  {}

  /** The masks and shifts that turn `char_array_3` into `char_array_4`. */
  method SplitGroup(c3: array<Byte>, c4: array<Byte>)
    requires c3.Length == 3 && c4.Length == 4 && c3 != c4
    modifies c4
    ensures c4[..] == SextetsOfGroup(GroupOfBytes(c3[0], c3[1], c3[2]))
  {
    hide SextetsOfGroup, GroupOfBytes, Split0, Split1, Split2, Split3;
    c4[0] := Split0(c3[0]);
    c4[1] := Split1(c3[0], c3[1]);
    c4[2] := Split2(c3[1], c3[2]);
    c4[3] := Split3(c3[2]);
    SplitBits(c3[0], c3[1], c3[2]);
    assert c4[..] == [c4[0], c4[1], c4[2], c4[3]];
  }

  function Split0(b0: Byte): Byte {
    (b0 & 0xFC) >> 2
  }

  function Split1(b0: Byte, b1: Byte): Byte {
    ((b0 & 0x03) << 4) + ((b1 & 0xF0) >> 4)
  }

  function Split2(b1: Byte, b2: Byte): Byte {
    ((b1 & 0x0F) << 2) + ((b2 & 0xC0) >> 6)
  }

  function Split3(b2: Byte): Byte {
    b2 & 0x3F
  }

  lemma SplitBits(b0: Byte, b1: Byte, b2: Byte)
    ensures SextetsOfGroup(GroupOfBytes(b0, b1, b2)) == [Split0(b0), Split1(b0, b1), Split2(b1, b2), Split3(b2)]
  {}

  /** Appends the characters of the first `n` values. */
  method AppendChars(ret: string, c4: array<Byte>, n: nat) returns (ret': string)
    requires n <= c4.Length && forall i :: 0 <= i < n ==> c4[i] < 64
    ensures ret' == ret + Chars(c4[..n])
  {
    ret' := ret;
    for i := 0 to n
      invariant ret' == ret + Chars(c4[..i])
    {
      var v: Sextet := c4[i];
      ret' := ret' + [CharOf(v)];
      assert c4[..i + 1] == c4[..i] + [v];
    }
  }

  /** A full `char_array_3`, the three bytes of the input before `k`. */
  method AppendGroup(ret: string, c3: array<Byte>, c4: array<Byte>, ghost input: seq<Byte>, ghost k: nat)
    returns (ret': string)
    requires c3.Length == 3 && c4.Length == 4 && c3 != c4
    requires 3 <= k <= |input| && k % 3 == 0 && c3[..] == input[k - 3..k] && ret == Chars(ToSextets(input[..k - 3]))
    modifies c4
    ensures ret' == Chars(ToSextets(input[..k]))
  {
    hide ToSextets, SextetsOfGroup, GroupOfBytes, Chars;
    SplitGroup(c3, c4);
    ret' := AppendChars(ret, c4, 4);
    assert c3[..] == [c3[0], c3[1], c3[2]] && c4[..] == c4[..4];
    OneMoreGroup(input, k, c3[0], c3[1], c3[2], c4[..]);
  }

  lemma NextOfWindow<T>(s: seq<T>, from: nat, k: nat)
    requires from <= k < |s|
    ensures s[from..k + 1] == s[from..k] + [s[k]]
  {}

  method Base64Encode(input: seq<Byte>) returns (ret: string)
    ensures ret == Encoded(input)
  {
    hide ToSextets, SextetsOfGroup, GroupOfBytes, Chars;
    ret := "";
    var i := 0;
    var c3, c4 := new Byte[3], new Byte[4];
    var k, len := 0, |input|;
    EmptyEncoding();
    ghost var start := 0;
    while len != 0
      invariant len >= 0 && k + len == |input| && 0 <= i < 3 && start + i == k && start % 3 == 0
      invariant c3[..i] == input[start..k]
      invariant ret == Chars(ToSextets(input[..start]))
    {
      len := len - 1;
      ghost var kept := c3[..i];
      c3[i] := input[k];
      assert c3[..i + 1] == kept + [input[k]];
      NextOfWindow(input, start, k);
      i := i + 1;
      k := k + 1;
      if i == 3 {
        assert c3[..] == c3[..3];
        ret := AppendGroup(ret, c3, c4, input, k);
        i := 0;
        start := k;
      }
    }
    if i != 0 {
      assert input == input[..start] + c3[..i];
      ret := AppendTail(ret, c3, c4, i, input[..start]);
    } else {
      assert input[..|input|] == input;
      WholeGroupsOnly(input);
    }
  }

  /** Whole groups need no padding. */
  lemma WholeGroupsOnly(input: seq<Byte>)
    requires |input| % 3 == 0
    ensures Encoded(input) == Chars(ToSextets(input))
  {
    SextetCount(input);
    hide ToSextets, Chars, PadTo4;
    NoPadding(|input| / 3);
    assert Chars(ToSextets(input)) + "" == Chars(ToSextets(input));
  }

  lemma NoPadding(q: nat)
    ensures (4 * (3 * q) + 2) / 3 == 4 * q && PadTo4(4 * q) == ""
  {}

  /** One or two bytes left over: the group is filled up with zeros, its first i + 1 characters are kept, then padded. */
  method AppendTail(ret: string, c3: array<Byte>, c4: array<Byte>, left: nat, ghost front: seq<Byte>) returns (ret': string)
    requires c3.Length == 3 && c4.Length == 4 && c3 != c4 && 1 <= left < 3
    requires |front| % 3 == 0 && ret == Chars(ToSextets(front))
    modifies c3, c4
    ensures ret' == Encoded(front + old(c3[..left]))
  {
    hide ToSextets, SextetsOfGroup, GroupOfBytes, Chars, PadTo4;
    ghost var back := c3[..left];
    for j := left to 3
      invariant c3[..left] == back
      invariant forall m :: left <= m < j ==> c3[m] == 0
    {
      c3[j] := 0;
    }
    SplitGroup(c3, c4);
    ret' := AppendChars(ret, c4, left + 1);
    assert [c3[0], c3[1], c3[2]][..left] == back;
    TailGroup(c3[0], c3[1], c3[2], left);
    assert c4[..left + 1] == c4[..][..left + 1];
    EncodingSplits(front, back);
    ghost var body := ret';
    var i := left;
    while i < 3
      invariant left <= i <= 3 && ret' == body + seq(i - left, _ => '=')
    {
      ret' := ret' + "=";
      i := i + 1;
    }
    SextetCount(front + back);
    TailPadding(|front| / 3, left);
  }

  lemma TailPadding(q: nat, left: nat)
    requires 1 <= left < 3
    ensures PadTo4((4 * (3 * q + left) + 2) / 3) == seq(3 - left, _ => '=')
  {
    assert (4 * (3 * q + left) + 2) / 3 == 4 * q + left + 1;
  }

  lemma EmptyEncoding()
    ensures Chars(ToSextets([])) == ""
  {}

  lemma EncodingSplits(front: seq<Byte>, back: seq<Byte>)
    requires |front| % 3 == 0
    ensures Chars(ToSextets(front + back)) == Chars(ToSextets(front)) + Chars(ToSextets(back))
  {
    hide ToSextets, Chars;
    ToSextetsAppend(front, back);
    CharsAppend(ToSextets(front), ToSextets(back));
  }

  lemma OneGroup(b0: Byte, b1: Byte, b2: Byte)
    ensures ToSextets([b0, b1, b2]) == SextetsOfGroup(GroupOfBytes(b0, b1, b2))
  {}

  lemma OneMoreGroup(input: seq<Byte>, k: nat, b0: Byte, b1: Byte, b2: Byte, c4: seq<Sextet>)
    requires 3 <= k <= |input| && k % 3 == 0 && input[k - 3..k] == [b0, b1, b2]
    requires c4 == SextetsOfGroup(GroupOfBytes(b0, b1, b2))
    ensures Chars(ToSextets(input[..k])) == Chars(ToSextets(input[..k - 3])) + Chars(c4)
  {
    hide ToSextets, SextetsOfGroup, GroupOfBytes, Chars;
    assert input[..k] == input[..k - 3] + [b0, b1, b2];
    OneGroup(b0, b1, b2);
    EncodingSplits(input[..k - 3], [b0, b1, b2]);
  }

  lemma TailGroup(b0: Byte, b1: Byte, b2: Byte, i: nat)
    requires 1 <= i < 3 && b2 == 0 && (i == 1 ==> b1 == 0)
    ensures ToSextets([b0, b1, b2][..i]) == SextetsOfGroup(GroupOfBytes(b0, b1, b2))[..i + 1]
  {}

  /** The shifts that turn the values in `char_array_4` into `char_array_3`; sums are cut to eight bits. */
  function Join0(v0: Byte, v1: Byte): Byte {
    (v0 << 2) + ((v1 & 0x30) >> 4)
  }

  function Join1(v1: Byte, v2: Byte): Byte {
    ((v1 & 0x0F) << 4) + ((v2 & 0x3C) >> 2)
  }

  function Join2(v2: Byte, v3: Byte): Byte {
    ((v2 & 0x03) << 6) + v3
  }

  lemma JoinBits(s0: Sextet, s1: Sextet, s2: Sextet, s3: Sextet)
    ensures BytesOfGroup(GroupOfSextets(s0, s1, s2, s3)) == [Join0(s0, s1), Join1(s1, s2), Join2(s2, s3)]
  {}

  /** `static_cast<unsigned char>(base64_chars.find(c))`: 255 when the alphabet does not have the character. */
  method LookUp(c: char) returns (v: Byte)
    ensures v == if IsBase64(c) then SextetOf(c) else 0xFF
  {
    var pos := Find(c);
    if IsBase64(c) {
      CastOfFind(c);
    }
    v := CastToByte(pos);
  }

  /** Looks up four characters and joins their values, whatever the lookups return. */
  method JoinGroup(c4: seq<char>) returns (v: seq<Byte>, c3: seq<Byte>)
    requires |c4| == 4
    ensures |v| == 4
    ensures forall j :: 0 <= j < 4 ==> v[j] == if IsBase64(c4[j]) then SextetOf(c4[j]) else 0xFF
    ensures c3 == [Join0(v[0], v[1]), Join1(v[1], v[2]), Join2(v[2], v[3])]
  {
    hide Join0, Join1, Join2;
    v := [];
    for i := 0 to 4
      invariant |v| == i
      invariant forall j :: 0 <= j < i ==> v[j] == if IsBase64(c4[j]) then SextetOf(c4[j]) else 0xFF
    {
      var x := LookUp(c4[i]);
      v := v + [x];
    }
    c3 := [Join0(v[0], v[1]), Join1(v[1], v[2]), Join2(v[2], v[3])];
  }

  lemma ValuesAppend(a: string, b: string)
    requires AllBase64(a) && AllBase64(b)
    ensures AllBase64(a + b) && Values(a + b) == Values(a) + Values(b)
  {
    hide IsBase64;
  }

  method Base64Decode(input: string) returns (ret: seq<Byte>)
    ensures ret == Decoded(input)
  {
    PadIsNotBase64();
    hide FromSextets, Values, PrefixLength, IsBase64, AllBase64;
    ret := [];
    var i, in_, inLen := 0, 0, |input|;
    var c4 := new char[4];
    EmptyDecoding();
    ghost var front := "";
    while inLen != 0 && input[in_] != '=' && IsBase64(input[in_])
      invariant inLen >= 0 && in_ + inLen == |input| && 0 <= i < 4
      invariant |front| % 4 == 0 && AllBase64(front) && AllBase64(c4[..i]) && input[..in_] == front + c4[..i]
      invariant ret == FromSextets(Values(front))
    {
      inLen := inLen - 1;
      ghost var kept := c4[..i];
      c4[i] := input[in_];
      assert c4[..i + 1] == kept + [input[in_]];
      NextCharacter(input, in_, front, kept);
      i := i + 1;
      in_ := in_ + 1;
      if i == 4 {
        assert c4[..] == c4[..4];
        ret := DecodeGroup(ret, c4[..], front);
        front := front + c4[..];
        i := 0;
      }
    }
    AllBeforeThePad(input, in_, front, c4[..i]);
    if i != 0 {
      ret := DecodeTail(ret, c4, i, front);
    }
  }

  lemma PadIsNotBase64()
    ensures !IsBase64('=')
  {}

  lemma EmptyDecoding()
    ensures AllBase64("") && FromSextets(Values("")) == []
  {}

  lemma NextCharacter(input: string, k: nat, front: string, back: string)
    requires k < |input| && input[..k] == front + back && AllBase64(back) && IsBase64(input[k])
    ensures input[..k + 1] == front + (back + [input[k]]) && AllBase64(back + [input[k]])
  {
    hide IsBase64;
    assert input[..k + 1] == input[..k] + [input[k]];
  }

  lemma AllBeforeThePad(input: string, k: nat, front: string, back: string)
    requires k <= |input| && input[..k] == front + back && AllBase64(front) && AllBase64(back)
    requires k < |input| ==> !IsBase64(input[k])
    ensures AllBase64(front + back) && Decoded(input) == FromSextets(Values(front + back))
    ensures back == "" ==> Decoded(input) == FromSextets(Values(front))
  {
    ValuesAppend(front, back);
    hide FromSextets, Values, IsBase64;
    forall j | 0 <= j < k ensures IsBase64(input[j]) {
      assert input[j] == (front + back)[j];
    }
    PrefixIs(input, k);
    assert back == "" ==> front + back == front;
  }

  /** Four characters of the alphabet give three bytes. */
  method DecodeGroup(ret: seq<Byte>, c4: seq<char>, ghost front: string) returns (ret': seq<Byte>)
    requires |c4| == 4 && |front| % 4 == 0 && AllBase64(front) && AllBase64(c4) && ret == FromSextets(Values(front))
    ensures AllBase64(front + c4) && ret' == FromSextets(Values(front + c4))
  {
    hide FromSextets, Join0, Join1, Join2, IsBase64;
    var v, c3 := JoinGroup(c4);
    ret' := ret;
    for i := 0 to 3
      invariant ret' == ret + c3[..i]
    {
      ret' := ret' + [c3[i]];
    }
    assert ret' == ret + c3;
    assert v == Values(c4);
    ValuesAppend(front, c4);
    hide Values;
    FromSextetsAppend(Values(front), v);
    DecodedGroup(v, c3);
  }

  lemma DecodedGroup(v: seq<Sextet>, c3: seq<Byte>)
    requires |v| == 4 && c3 == [Join0(v[0], v[1]), Join1(v[1], v[2]), Join2(v[2], v[3])]
    ensures FromSextets(v) == c3
  {
    JoinBits(v[0], v[1], v[2], v[3]);
    hide Join0, Join1, Join2, BytesOfGroup, GroupOfSextets;
    assert FromSextets(v) == c3 + FromSextets(v[4..]) && v[4..] == [];
  }

  /**
   * Fewer than four characters left over: the rest of the group is filled with zero characters, which the alphabet does
   * not have. Their lookups fail, and what the failed lookups leave behind never reaches the result.
   */
  method DecodeTail(ret: seq<Byte>, c4: array<char>, left: nat, ghost front: string) returns (ret': seq<Byte>)
    requires c4.Length == 4 && 1 <= left < 4
    requires |front| % 4 == 0 && AllBase64(front) && AllBase64(c4[..left]) && ret == FromSextets(Values(front))
    modifies c4
    ensures AllBase64(front + old(c4[..left])) && ret' == FromSextets(Values(front + old(c4[..left])))
  {
    hide FromSextets, Join0, Join1, Join2, IsBase64;
    ghost var back := c4[..left];
    for j := left to 4
      invariant c4[..left] == back
      invariant forall m :: left <= m < j ==> c4[m] == '\0'
    {
      c4[j] := '\0';
    }
    var v, c3 := JoinGroup(c4[..]);
    ret' := ret;
    for j := 0 to left - 1
      invariant ret' == ret + c3[..j]
    {
      ret' := ret' + [c3[j]];
    }
    forall j | 0 <= j < left ensures v[j] == Values(back)[j] {
      assert c4[..][j] == back[j];
    }
    ValuesAppend(front, back);
    hide Values;
    FromSextetsAppend(Values(front), Values(back));
    JoinedTail(Values(back), v, c3);
  }

  /** The bytes that are kept do not depend on the values after the last character. */
  lemma JoinedTail(s: seq<Sextet>, v: seq<Byte>, c3: seq<Byte>)
    requires 1 <= |s| < 4 && |v| == 4 && v[..|s|] == s
    requires c3 == [Join0(v[0], v[1]), Join1(v[1], v[2]), Join2(v[2], v[3])]
    ensures FromSextets(s) == c3[..|s| - 1]
  {
    hide Join0, Join1, Join2;
    assert forall i :: 0 <= i < |s| ==> v[..|s|][i] == v[i];
    if |s| == 3 {
      JoinedThree(s);
      hide FromSextets;
    } else if |s| == 2 {
      JoinedTwo(s);
      hide FromSextets;
    }
  }

  lemma JoinedThree(s: seq<Sextet>)
    requires |s| == 3
    ensures FromSextets(s) == [Join0(s[0], s[1]), Join1(s[1], s[2])]
  {}

  lemma JoinedTwo(s: seq<Sextet>)
    requires |s| == 2
    ensures FromSextets(s) == [Join0(s[0], s[1])]
  {}
}
