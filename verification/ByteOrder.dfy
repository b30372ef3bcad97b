/** Host and network byte order: `is_little_endian`, `_htonll` and `_ntohll` of network.hpp, and `ntohs`. */
module ByteOrder {
  import opened Bytes
  import opened MachineWord

  /** Eight-byte and four-byte integers in the memory of a host, whatever its word size. */
  function Host64(littleEndian: bool): Machine {
    Machine(true, littleEndian)
  }

  function Host32(littleEndian: bool): Machine {
    Machine(false, littleEndian)
  }

  /** The eight bytes of an integer, most significant first. */
  function BigEndian(x: Word): (b: seq<Byte>)
    ensures |b| == 8
  {
    [Digit(x, 7), Digit(x, 6), Digit(x, 5), Digit(x, 4), Digit(x, 3), Digit(x, 2), Digit(x, 1), Digit(x, 0)]
  }

  lemma BigEndianAt(x: Word, i: nat)
    requires i < 8
    ensures BigEndian(x)[i] == Digit(x, 7 - i)
  {}

  /** What the bytes of an integer are once they lie in memory in network order. */
  ghost predicate InNetworkOrder(littleEndian: bool, stored: Word, x: Word) {
    Store(Host64(littleEndian), stored) == BigEndian(x)
  }

  lemma NetworkOrderDetermines(littleEndian: bool, stored: Word, stored': Word, x: Word)
    requires InNetworkOrder(littleEndian, stored, x) && InNetworkOrder(littleEndian, stored', x)
    ensures stored == stored'
  {
    var m := Host64(littleEndian);
    hide ByteAt, Digit, BigEndian;
    forall i | 0 <= i < 8 ensures ByteAt(m, stored, i) == ByteAt(m, stored', i) {
      assert Store(m, stored)[i] == Store(m, stored')[i];
    }
    BytesDetermine(m, stored, stored');
  }

  datatype Typ = Unknown | LittleEndian | BigEndianHost

  /** The conversion with its cached byte order. */
  class Converter {
    const littleEndian: bool
    var typ: Typ

    ghost predicate Valid()
      reads this
    {
      typ == Unknown || typ == if littleEndian then LittleEndian else BigEndianHost
    }

    constructor (littleEndian: bool)
      ensures Valid() && this.littleEndian == littleEndian
    {
      this.littleEndian := littleEndian;
      typ := Unknown;
    }

    /** Finds the byte order once, by storing a one and looking at the last byte. */
    method DetectOrder()
      requires Valid()
      modifies this`typ
      ensures Valid() && typ != Unknown
    {
      if typ == Unknown {
        var c := Store(Host64(littleEndian), 1);
        OneInMemory(littleEndian);
        typ := if c[7] == 1 then BigEndianHost else LittleEndian;
      }
    }

    /** `_htonll`: the bytes of the result, as they lie in memory, are those of `src` most significant first. */
    method Htonll(src: Word) returns (r: Word)
      requires Valid()
      modifies this`typ
      ensures Valid() && InNetworkOrder(littleEndian, r, src)
    {
      DetectOrder();
      if typ == BigEndianHost {
        BigEndianHostStores(src);
        return src;
      }
      LittleEndianHostStores(src);
      hide Store, BigEndian, Load;
      var stored := Store(Host64(true), src);
      var c := new Byte[8](i requires 0 <= i < 8 => stored[i]);
      ReverseEight(c);
      r := Load(Host64(true), c[..]);
      StoreOfLoad(Host64(true), c[..]);
      assert c[..] == BigEndian(src);
    }

    /** The four swaps. */
    method ReverseEight(c: array<Byte>)
      requires c.Length == 8
      modifies c
      ensures forall i :: 0 <= i < 8 ==> c[i] == old(c[7 - i])
    {
      c[0], c[7] := c[7], c[0];
      c[1], c[6] := c[6], c[1];
      c[2], c[5] := c[5], c[2];
      c[3], c[4] := c[4], c[3];
    }

    /** `_ntohll`: reads an integer that lies in memory most significant byte first. */
    method Ntohll(src: Word, ghost x: Word) returns (r: Word)
      requires Valid() && InNetworkOrder(littleEndian, src, x)
      modifies this`typ
      ensures Valid() && r == x
    {
      r := Htonll(src);
      TwiceIsIdentity(littleEndian, r, src, x);
    }
  }

  lemma OneInMemory(littleEndian: bool)
    ensures Store(Host64(littleEndian), 1)[7] == if littleEndian then 0 else 1
  {}

  lemma BigEndianHostStores(x: Word)
    ensures Store(Host64(false), x) == BigEndian(x)
  {}

  lemma LittleEndianHostStores(x: Word)
    ensures forall i :: 0 <= i < 8 ==> Store(Host64(true), x)[i] == BigEndian(x)[7 - i]
  {}

  lemma StoreOfLoad(m: Machine, b: seq<Byte>)
    requires |b| == m.WordSize()
    ensures Store(m, Load(m, b)) == b
  {
    hide ByteAt, Load;
    LoadedBytes(m, b);
  }

  lemma LoadOfStore(m: Machine, x: Word)
    requires Fits(m, x)
    ensures Load(m, Store(m, x)) == x
  {
    hide ByteAt, Load, Fits;
    LoadedBytes(m, Store(m, x));
    BytesDetermine(m, Load(m, Store(m, x)), x);
  }

  /** Converting twice gives back the integer. */
  lemma TwiceIsIdentity(littleEndian: bool, r: Word, stored: Word, x: Word)
    requires InNetworkOrder(littleEndian, stored, x) && InNetworkOrder(littleEndian, r, stored)
    ensures r == x
  {
    hide Digit;
    var m := Host64(littleEndian);
    forall i | 0 <= i < 8 ensures Digit(r, i) == Digit(x, i) {
      var j := if littleEndian then i else 7 - i;
      var k := if littleEndian then 7 - j else j;
      assert Store(m, r)[j] == BigEndian(stored)[j] && Store(m, stored)[k] == BigEndian(x)[k];
      BigEndianAt(stored, j);
      BigEndianAt(x, k);
    }
    DigitsDetermine(r, x);
  }

  // ---------------------------------------------------------------------------------------------
  // Two-byte integers
  // ---------------------------------------------------------------------------------------------

  function Load16(littleEndian: bool, b: seq<Byte>): Word
    requires |b| == 2
  {
    if littleEndian then OfDigits(b[0], b[1], 0, 0) else OfDigits(b[1], b[0], 0, 0)
  }

  /** `ntohs` swaps the two bytes on a little-endian host. */
  function Ntohs(littleEndian: bool, i: Word): Word {
    if littleEndian then OfDigits(Digit(i, 1), Digit(i, 0), 0, 0) else i
  }

  lemma NtohsOfLoad16(littleEndian: bool, b: seq<Byte>)
    requires |b| == 2
    ensures Ntohs(littleEndian, Load16(littleEndian, b)) == Value16(b)
  {
    hide Digit, OfDigits;
    DigitOfDigits(b[0], b[1], 0, 0, 0);
    DigitOfDigits(b[0], b[1], 0, 0, 1);
  }

  /** The number that two bytes spell, most significant first. */
  function Value16(b: seq<Byte>): Word
    requires |b| >= 2
  {
    OfDigits(b[1], b[0], 0, 0)
  }

  /** Two bytes make 256 times the first plus the second. */
  lemma Value16IsNumber(b: seq<Byte>)
    requires |b| >= 2
    ensures Value16(b) == 256 * (b[0] as Word) + (b[1] as Word)
  {}
}
