/** WebSocket frame headers as frame.hpp writes and reads them (section 5.2 of RFC 6455). */
module FrameHeader {
  import opened Bytes
  import opened MachineWord
  import opened ByteOrder
  import opened FrameMasking

  const MAX_EXTENDED_HEADER_LENGTH: nat := 12

  // ---------------------------------------------------------------------------------------------
  // The layout, read off the bytes
  // ---------------------------------------------------------------------------------------------

  /** The payload length field of the second byte. */
  function SizeCode(b1: Byte): Byte {
    b1 & 0x7F
  }

  predicate MaskBit(b1: Byte) {
    b1 & 0x80 == 0x80
  }

  /** Bytes of extended payload length announced by the second byte. */
  function KeyOffset(b1: Byte): (n: nat) {
    if SizeCode(b1) == 0x7E then 2 else if SizeCode(b1) == 0x7F then 8 else 0
  }

  function HeaderLength(b1: Byte): (n: nat)
    ensures 2 <= n <= 14
  {
    2 + KeyOffset(b1) + (if MaskBit(b1) then 4 else 0)
  }

  /** The number that eight bytes spell, most significant first. */
  function Value64(b: seq<Byte>): Word
    requires |b| >= 8
  {
    BitOr(OfDigits(b[7], b[6], b[5], b[4]), ShiftLeft(OfDigits(b[3], b[2], b[1], b[0]), 4))
  }

  /** The payload length that a header announces. */
  function PayloadSize(b1: Byte, extended: seq<Byte>): Word
    requires |extended| == MAX_EXTENDED_HEADER_LENGTH
  {
    if SizeCode(b1) <= 125 then SizeCode(b1) as Word
    else if SizeCode(b1) == 0x7E then Value16(extended)
    else Value64(extended)
  }

  /** The masking key of a header; all zero when the frame is not masked. */
  function MaskingKey(b1: Byte, extended: seq<Byte>): Key
    requires |extended| == MAX_EXTENDED_HEADER_LENGTH
  {
    if MaskBit(b1) then extended[KeyOffset(b1)..KeyOffset(b1) + 4] else [0, 0, 0, 0]
  }

  // ---------------------------------------------------------------------------------------------
  // What the constructors write
  // ---------------------------------------------------------------------------------------------

  /** The size code for a payload length. */
  function CodeFor(size: Word): (c: Byte)
    ensures c <= 0x7F
  {
    if size <= 125 then size as Byte else if size <= 0xFFFF then 0x7E else 0x7F
  }

  /** Where in the eight big-endian bytes of a length the part that is sent begins. */
  function PayloadOffset(size: Word): (n: nat)
    ensures n <= 8
  {
    if size <= 125 then 8 else if size <= 0xFFFF then 6 else 0
  }

  /** The extended header for a length and what follows the length: a key or nothing. */
  function ExtendedBytes(size: Word, key: seq<Byte>): (e: seq<Byte>)
    requires |key| == 4 || |key| == 0
    ensures |e| == MAX_EXTENDED_HEADER_LENGTH
  {
    var used := BigEndian(size)[PayloadOffset(size)..] + key;
    used + Zeros(MAX_EXTENDED_HEADER_LENGTH - |used|)
  }

  method FirstByte(op: Byte, fin: bool, rsv1: bool, rsv2: bool, rsv3: bool) returns (b0: Byte)
    ensures (b0 & 0x80 == 0x80) == fin && (b0 & 0x40 == 0x40) == rsv1
    ensures (b0 & 0x20 == 0x20) == rsv2 && (b0 & 0x10 == 0x10) == rsv3
    ensures b0 & 0x0F == op & 0x0F
  {
    b0 := 0;
    if fin {
      b0 := b0 | 0x80;
    }
    if rsv1 {
      b0 := b0 | 0x40;
    }
    if rsv2 {
      b0 := b0 | 0x20;
    }
    if rsv3 {
      b0 := b0 | 0x10;
    }
    b0 := b0 | (op & 0x0F);
  }

  method SecondByte(size: Word, mask: bool) returns (b1: Byte)
    ensures MaskBit(b1) == mask && SizeCode(b1) == CodeFor(size)
    ensures (b1 & 0x80 == 0x80) == mask
    ensures b1 & 0x7F == if size <= 125 then size as Byte else if size <= 65535 then 126 else 127
  {
    b1 := 0;
    if mask {
      b1 := b1 | 0x80;
    }
    var basicValue: Byte;
    if size <= 125 {
      basicValue := size as Byte;
    } else if size <= 0xFFFF {
      basicValue := 0x7E;
    } else {
      basicValue := 0x7F;
    }
    b1 := b1 | basicValue;
  }

  /** The first two bytes of a header. */
  class BasicHeader {
    var b0: Byte
    var b1: Byte

    constructor (op: Byte, size: Word, fin: bool, mask: bool, rsv1: bool, rsv2: bool, rsv3: bool)
      ensures GetFin() == fin && GetRsv1() == rsv1 && GetRsv2() == rsv2 && GetRsv3() == rsv3
      ensures GetOpcode() == op & 0x0F
      ensures MaskBit(b1) == mask && SizeCode(b1) == CodeFor(size)
      ensures (b1 & 0x80 == 0x80) == mask
      ensures b1 & 0x7F == if size <= 125 then size as Byte else if size <= 65535 then 126 else 127
    {
      var first := FirstByte(op, fin, rsv1, rsv2, rsv3);
      var second := SecondByte(size, mask);
      b0, b1 := first, second;
    }

    predicate GetFin()
      reads this
    {
      b0 & 0x80 == 0x80
    }

    predicate GetRsv1()
      reads this
    {
      b0 & 0x40 == 0x40
    }

    predicate GetRsv2()
      reads this
    {
      b0 & 0x20 == 0x20
    }

    predicate GetRsv3()
      reads this
    {
      b0 & 0x10 == 0x10
    }

    function GetOpcode(): Byte
      reads this
    {
      b0 & 0x0F
    }

    method SetFin(value: bool)
      modifies this`b0
      ensures GetFin() == value && GetOpcode() == old(GetOpcode())
      ensures GetRsv1() == old(GetRsv1()) && GetRsv2() == old(GetRsv2()) && GetRsv3() == old(GetRsv3())
    {
      b0 := if value then b0 | 0x80 else b0 & !0x80;
    }

    method SetRsv1(value: bool)
      modifies this`b0
      ensures GetRsv1() == value && GetOpcode() == old(GetOpcode())
      ensures GetFin() == old(GetFin()) && GetRsv2() == old(GetRsv2()) && GetRsv3() == old(GetRsv3())
    {
      b0 := if value then b0 | 0x40 else b0 & !0x40;
    }

    method SetRsv2(value: bool)
      modifies this`b0
      ensures GetRsv2() == value && GetOpcode() == old(GetOpcode())
      ensures GetFin() == old(GetFin()) && GetRsv1() == old(GetRsv1()) && GetRsv3() == old(GetRsv3())
    {
      b0 := if value then b0 | 0x20 else b0 & !0x20;
    }

    method SetRsv3(value: bool)
      modifies this`b0
      ensures GetRsv3() == value && GetOpcode() == old(GetOpcode())
      ensures GetFin() == old(GetFin()) && GetRsv1() == old(GetRsv1()) && GetRsv2() == old(GetRsv2())
    {
      b0 := if value then b0 | 0x10 else b0 & !0x10;
    }

    method SetMasked(value: bool)
      modifies this`b1
      ensures MaskBit(b1) == value && SizeCode(b1) == SizeCode(old(b1))
      ensures (b1 & 0x80 == 0x80) == value && b1 & 0x7F == old(b1) & 0x7F
    {
      b1 := if value then b1 | 0x80 else b1 & !0x80;
    }
  }

  /** The part of a header after the first two bytes, in a buffer of fixed size. */
  class ExtendedHeader {
    const bytes: array<Byte>

    ghost predicate Valid() {
      bytes.Length == MAX_EXTENDED_HEADER_LENGTH
    }

    constructor Unmasked(payloadSize: Word, host: Converter)
      requires host.Valid()
      modifies host`typ
      ensures host.Valid() && Valid() && fresh(bytes) && bytes[..] == ExtendedBytes(payloadSize, [])
    {
      bytes := new Byte[MAX_EXTENDED_HEADER_LENGTH](_ => 0);
      new;
      var offset := CopyPayload(payloadSize, host);
      assert bytes[..] == ExtendedBytes(payloadSize, []);
    }

    /** The key is an integer of the host; its four bytes go out as they lie in memory. */
    constructor Masked(payloadSize: Word, maskingKey: Word, host: Converter)
      requires host.Valid() && maskingKey <= 0xFFFF_FFFF
      modifies host`typ
      ensures host.Valid() && Valid() && fresh(bytes)
      ensures bytes[..] == ExtendedBytes(payloadSize, Store(Host32(host.littleEndian), maskingKey))
    {
      bytes := new Byte[MAX_EXTENDED_HEADER_LENGTH](_ => 0);
      new;
      var offset := CopyPayload(payloadSize, host);
      var c := Store(Host32(host.littleEndian), maskingKey);
      hide Store;
      forall i | 0 <= i < 4 {
        bytes[offset + i] := c[i];
      }
      assert bytes[..] == ExtendedBytes(payloadSize, c);
    }

    method CopyPayload(payloadSize: Word, host: Converter) returns (length: nat)
      requires host.Valid() && Valid() && forall i :: 0 <= i < bytes.Length ==> bytes[i] == 0
      modifies host`typ, bytes
      ensures host.Valid()
      ensures length == 8 - PayloadOffset(payloadSize)
      ensures bytes[..length] == BigEndian(payloadSize)[8 - length..]
      ensures forall i :: length <= i < bytes.Length ==> bytes[i] == 0
    {
      var payloadOffset := 0;
      if payloadSize <= 125 {
        payloadOffset := 8;
      } else if payloadSize <= 0xFFFF {
        payloadOffset := 6;
      }
      var temp := host.Htonll(payloadSize);
      var c := Store(Host64(host.littleEndian), temp);
      hide Store, BigEndian;
      length := 8 - payloadOffset;
      forall i | 0 <= i < length {
        bytes[i] := c[payloadOffset + i];
      }
    }

    /** `get_extended_size`: two bytes through the union and `ntohs`. */
    method GetExtendedSize(host: Converter) returns (size: Word)
      requires Valid()
      ensures size == Value16(bytes[..])
    {
      var i := Load16(host.littleEndian, bytes[..2]);
      size := Ntohs(host.littleEndian, i);
      NtohsOfLoad16(host.littleEndian, bytes[..2]);
    }

    /** `get_jumbo_size`: eight bytes through the union and `_ntohll`. */
    method GetJumboSize(host: Converter) returns (size: Word)
      requires Valid() && host.Valid()
      modifies host`typ
      ensures host.Valid() && size == Value64(bytes[..])
    {
      var m := Host64(host.littleEndian);
      var temp := Load(m, bytes[..8]);
      StoreOfLoad(m, bytes[..8]);
      Value64Spells(bytes[..]);
      size := host.Ntohll(temp, Value64(bytes[..]));
    }

    method GetPayloadSize(h: BasicHeader, host: Converter) returns (size: Word)
      requires Valid() && host.Valid()
      modifies host`typ
      ensures host.Valid() && size == PayloadSize(h.b1, bytes[..])
      ensures h.b1 & 0x7F <= 125 ==> size == (h.b1 & 0x7F) as Word
      ensures h.b1 & 0x7F == 126 ==> size == Value16(bytes[..])
      ensures h.b1 & 0x7F == 127 ==> size == Value64(bytes[..])
    {
      var val := SizeCode(h.b1);
      if val <= 125 {
        size := val as Word;
      } else if val == 0x7E {
        size := GetExtendedSize(host);
      } else {
        size := GetJumboSize(host);
      }
    }

    /** The key's bytes; read as an integer they give back the integer the header was made from. */
    method GetMaskingKey(h: BasicHeader) returns (c: Key)
      requires Valid()
      ensures c == MaskingKey(h.b1, bytes[..])
      ensures h.b1 & 0x80 == 0 ==> c == [0, 0, 0, 0]
      ensures h.b1 & 0x80 != 0 && h.b1 & 0x7F <= 125 ==> c == bytes[..4]
      ensures h.b1 & 0x80 != 0 && h.b1 & 0x7F == 126 ==> c == bytes[2..6]
      ensures h.b1 & 0x80 != 0 && h.b1 & 0x7F == 127 ==> c == bytes[8..]
    {
      if !MaskBit(h.b1) {
        c := [0, 0, 0, 0];
      } else {
        var offset := KeyOffset(h.b1);
        c := bytes[offset..offset + 4];
      }
    }
  }

  /** `prepare_header`: exactly as much of the extended header as the first two bytes announce. */
  method PrepareHeader(h: BasicHeader, e: ExtendedHeader) returns (wire: seq<Byte>)
    requires e.Valid()
    ensures wire == [h.b0, h.b1] + e.bytes[..HeaderLength(h.b1) - 2]
    ensures |wire| == HeaderLength(h.b1)
    ensures |wire| == 2 + (if h.b1 & 0x7F == 126 then 2 else if h.b1 & 0x7F == 127 then 8 else 0) + (if h.b1 & 0x80 != 0 then 4 else 0)
  {
    wire := [];
    wire := wire + [h.b0];
    wire := wire + [h.b1];
    wire := wire + e.bytes[..HeaderLength(h.b1) - 2];
  }

  lemma Value64Spells(b: seq<Byte>)
    requires |b| >= 8
    ensures BigEndian(Value64(b)) == b[..8]
  {}

  /** Reading a written length back, in each of its three forms. */
  lemma Value64OfBigEndian(x: Word)
    ensures Value64(BigEndian(x)) == x
  {}

  lemma Value16OfBigEndian(x: Word)
    requires x <= 0xFFFF
    ensures Value16(BigEndian(x)[6..]) == x
  {}

  // ---------------------------------------------------------------------------------------------
  // Round trips
  // ---------------------------------------------------------------------------------------------

  /** The getters recover length and key from what the constructors wrote. */
  lemma LengthRoundTrip(b1: Byte, size: Word, key: seq<Byte>)
    requires SizeCode(b1) == CodeFor(size) && |key| == if MaskBit(b1) then 4 else 0
    ensures PayloadSize(b1, ExtendedBytes(size, key)) == size
  {
    var e := ExtendedBytes(size, key);
    if size <= 125 {
      hide ExtendedBytes;
    } else if size <= 0xFFFF {
      hide BigEndian, Value16;
      Value16OfBigEndian(size);
      assert e[..2] == BigEndian(size)[6..];
      Value16OfPrefix(e);
    } else {
      hide BigEndian, Value64;
      Value64OfBigEndian(size);
      assert e[..8] == BigEndian(size);
      Value64OfPrefix(e);
    }
  }

  lemma Value16OfPrefix(b: seq<Byte>)
    requires |b| >= 2
    ensures Value16(b) == Value16(b[..2])
  {}

  lemma Value64OfPrefix(b: seq<Byte>)
    requires |b| >= 8
    ensures Value64(b) == Value64(b[..8])
  {
    hide OfDigits, BitOr, ShiftLeft;
  }

  lemma KeyRoundTrip(b1: Byte, size: Word, key: seq<Byte>)
    requires SizeCode(b1) == CodeFor(size) && |key| == if MaskBit(b1) then 4 else 0
    ensures MaskingKey(b1, ExtendedBytes(size, key)) == if MaskBit(b1) then key else [0, 0, 0, 0]
    ensures HeaderLength(b1) - 2 == 8 - PayloadOffset(size) + |key|
  {}

  /** A reader that has the first two bytes fills its extended header with as many more as they announce. */
  function Refill(s: seq<Byte>): (e: seq<Byte>)
    requires |s| >= 2 && |s| >= HeaderLength(s[1])
    ensures |e| == MAX_EXTENDED_HEADER_LENGTH
  {
    s[2..HeaderLength(s[1])] + Zeros(MAX_EXTENDED_HEADER_LENGTH - (HeaderLength(s[1]) - 2))
  }

  /**
   * A header survives the wire in front of any payload: its own first two bytes give its length, and from the bytes so
   * delimited the getters recover payload length and key.
   */
  lemma WireRoundTrip(b0: Byte, b1: Byte, size: Word, key: seq<Byte>, payload: seq<Byte>)
    requires SizeCode(b1) == CodeFor(size) && |key| == if MaskBit(b1) then 4 else 0
    ensures var wire := [b0, b1] + ExtendedBytes(size, key)[..HeaderLength(b1) - 2];
            var s := wire + payload;
            && 2 <= HeaderLength(s[1]) == |wire| <= 14
            && s[0] == b0 && s[1] == b1
            && PayloadSize(s[1], Refill(s)) == size
            && MaskingKey(s[1], Refill(s)) == (if MaskBit(b1) then key else [0, 0, 0, 0])
            && s[|wire|..] == payload
  {
    LengthRoundTrip(b1, size, key);
    KeyRoundTrip(b1, size, key);
    hide BigEndian, PayloadSize, MaskingKey, HeaderLength;
    var e := ExtendedBytes(size, key);
    var n := HeaderLength(b1) - 2;
    var s := [b0, b1] + e[..n] + payload;
    assert s[2..n + 2] == e[..n];
    assert e[n..] == Zeros(MAX_EXTENDED_HEADER_LENGTH - n);
    assert Refill(s) == e;
  }

  /** The form chosen is the shortest: any header that announces the same length and is masked alike is no shorter. */
  lemma ShortestForm(b1: Byte, size: Word, other: Byte, extended: seq<Byte>)
    requires SizeCode(b1) == CodeFor(size) && |extended| == MAX_EXTENDED_HEADER_LENGTH
    requires MaskBit(other) == MaskBit(b1) && PayloadSize(other, extended) == size
    ensures HeaderLength(b1) <= HeaderLength(other)
  {}

  /** The key goes out as the host holds it, so reading it back as an integer gives the same integer. */
  lemma KeyIntegerRoundTrip(littleEndian: bool, maskingKey: Word)
    requires maskingKey <= 0xFFFF_FFFF
    ensures Load(Host32(littleEndian), Store(Host32(littleEndian), maskingKey)) == maskingKey
  {}
}
