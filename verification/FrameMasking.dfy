/**
 * Masking of WebSocket payloads as frame.hpp does it: byte by byte, word by word with a remainder, and circularly with a
 * prepared key that is rotated from chunk to chunk (section 5.3 of RFC 6455).
 */
module FrameMasking {
  import opened Bytes
  import opened MachineWord

  /** The four bytes of `masking_key_type` in memory order. */
  type Key = k: seq<Byte> | |k| == 4 witness [0, 0, 0, 0]

  /** RFC 6455, section 5.3: octet i of the payload is combined with octet i modulo 4 of the key. */
  function Mask(key: Key, offset: nat, data: seq<Byte>): (r: seq<Byte>)
    ensures |r| == |data|
  {
    seq(|data|, i requires 0 <= i < |data| => data[i] ^ key[(offset + i) % 4])
  }

  lemma MaskAppend(key: Key, offset: nat, a: seq<Byte>, b: seq<Byte>)
    ensures Mask(key, offset, a + b) == Mask(key, offset, a) + Mask(key, offset + |a|, b)
  {}

  /** Masking again with the same key and offset restores the data. */
  lemma MaskTwice(key: Key, offset: nat, data: seq<Byte>)
    ensures Mask(key, offset, Mask(key, offset, data)) == data
  {}

  // ---------------------------------------------------------------------------------------------
  // Prepared keys
  // ---------------------------------------------------------------------------------------------

  /** `prepare_masking_key`. */
  function PrepareMaskingKey(m: Machine, key: Key): Word {
    var lowBits := Load32(m, key);
    if m.wide then BitOr(ShiftLeft(lowBits, 4), lowBits) else lowBits
  }

  /** `circshift_prepared_key`: rotates so that memory byte `offset` comes first. */
  function CircshiftPreparedKey(m: Machine, preparedKey: Word, offset: nat): Word
    requires offset < m.WordSize()
  {
    if offset == 0 then
      preparedKey
    else if m.littleEndian then
      var temp := Cut(m, ShiftLeft(preparedKey, m.WordSize() - offset));
      BitOr(ShiftRight(preparedKey, offset), temp)
    else
      var temp := ShiftRight(preparedKey, m.WordSize() - offset);
      BitOr(Cut(m, ShiftLeft(preparedKey, offset)), temp)
  }

  /** Every byte of the word in memory is the key byte due `offset` octets into the payload. */
  ghost predicate Prepared(m: Machine, w: Word, key: Key, offset: nat) {
    && Fits(m, w)
    && forall i :: 0 <= i < m.WordSize() ==> ByteAt(m, w, i) == key[(offset + i) % 4]
  }

  lemma PrepareDigit(m: Machine, key: Key, j: nat)
    requires j < m.WordSize()
    ensures Digit(PrepareMaskingKey(m, key), j) == if m.littleEndian then key[j % 4] else key[3 - j % 4]
  {
    hide Digit, Load32, BitOr, ShiftLeft;
    var low := Load32(m, key);
    Load32Digit(m, key, j % 4);
    if m.wide {
      DigitUnion(ShiftLeft(low, 4), low, j);
      DigitShiftLeft(low, 4, j);
      Load32Digit(m, key, j);
    }
  }

  lemma PreparedKeyFits(m: Machine, key: Key)
    ensures Fits(m, PrepareMaskingKey(m, key))
  {}

  /** On every machine the prepared key repeats the four key bytes in memory order. */
  lemma PrepareEstablishes(m: Machine, key: Key)
    ensures Prepared(m, PrepareMaskingKey(m, key), key, 0)
  {
    PreparedKeyFits(m, key);
    hide Digit, PrepareMaskingKey;
    forall i | 0 <= i < m.WordSize() ensures ByteAt(m, PrepareMaskingKey(m, key), i) == key[(0 + i) % 4] {
      PrepareDigit(m, key, if m.littleEndian then i else m.WordSize() - 1 - i);
    }
  }

  /** Where byte j of a rotated word comes from. */
  function RotatedFrom(m: Machine, offset: nat, j: nat): nat {
    (j + (if m.littleEndian then offset else m.WordSize() - offset)) % m.WordSize()
  }

  lemma CircshiftDigit(m: Machine, k: Word, offset: nat, j: nat)
    requires Fits(m, k) && 0 < offset < m.WordSize() && j < 8
    ensures Digit(CircshiftPreparedKey(m, k, offset), j) ==
            if j >= m.WordSize() then 0 else Digit(k, RotatedFrom(m, offset, j))
  {
    hide Digit, BitOr, ShiftLeft, ShiftRight, Fits, Cut;
    FitsMeansHighDigitsZero(m, k);
    var left := if m.littleEndian then m.WordSize() - offset else offset;
    var right := m.WordSize() - left;
    DigitShiftLeft(k, left, j);
    DigitCut(m, ShiftLeft(k, left), j);
    DigitShiftRight(k, right, j);
    DigitUnion(ShiftRight(k, right), Cut(m, ShiftLeft(k, left)), j);
    DigitUnion(Cut(m, ShiftLeft(k, left)), ShiftRight(k, right), j);
    if j < m.WordSize() {
      RotatedPlace(m, offset, j);
    }
    hide RotatedFrom;
  }

  lemma RotatedPlace(m: Machine, offset: nat, j: nat)
    requires 0 < offset < m.WordSize() && j < m.WordSize()
    ensures var left := if m.littleEndian then m.WordSize() - offset else offset;
            RotatedFrom(m, offset, j) == if j < left then j + (m.WordSize() - left) else j - left
  {
    if m.wide {
    } else {
    }
  }

  lemma CircshiftByte(m: Machine, k: Word, offset: nat, i: nat)
    requires Fits(m, k) && offset < m.WordSize() && i < m.WordSize()
    ensures ByteAt(m, CircshiftPreparedKey(m, k, offset), i) == ByteAt(m, k, (i + offset) % m.WordSize())
  {
    if offset > 0 {
      hide Digit, CircshiftPreparedKey, Fits, RotatedFrom;
      CircshiftDigit(m, k, offset, if m.littleEndian then i else m.WordSize() - 1 - i);
      PlacesAgree(m, offset, i);
    }
  }

  /** Rotating a word of the machine by `offset` moves memory byte i + offset to place i. */
  lemma CircshiftRotates(m: Machine, k: Word, offset: nat)
    requires Fits(m, k) && offset < m.WordSize()
    ensures Fits(m, CircshiftPreparedKey(m, k, offset))
    ensures forall i :: 0 <= i < m.WordSize() ==>
              ByteAt(m, CircshiftPreparedKey(m, k, offset), i) == ByteAt(m, k, (i + offset) % m.WordSize())
  {
    hide Digit, ByteAt, Fits;
    var r := CircshiftPreparedKey(m, k, offset);
    if offset > 0 {
      hide CircshiftPreparedKey;
      forall i | m.WordSize() <= i < 8 ensures Digit(r, i) == 0 {
        CircshiftDigit(m, k, offset, i);
      }
      FitsMeansHighDigitsZero(m, r);
    }
    forall i | 0 <= i < m.WordSize() ensures ByteAt(m, r, i) == ByteAt(m, k, (i + offset) % m.WordSize()) {
      CircshiftByte(m, k, offset, i);
    }
  }

  lemma PlacesAgree(m: Machine, offset: nat, i: nat)
    requires 0 < offset < m.WordSize() && i < m.WordSize()
    ensures var n := m.WordSize();
            RotatedFrom(m, offset, if m.littleEndian then i else n - 1 - i) ==
            if m.littleEndian then (i + offset) % n else n - 1 - (i + offset) % n
  {
    if m.wide {
      assert (i + offset) % 8 == if i + offset < 8 then i + offset else i + offset - 8;
    } else {
      assert (i + offset) % 4 == if i + offset < 4 then i + offset else i + offset - 4;
    }
  }

  lemma ReduceIndex(offset: nat, i: nat)
    ensures (offset + i % 4) % 4 == (offset + i) % 4
  {}

  lemma SameResidue(offset: nat, a: nat, b: nat, i: nat)
    requires a % 4 == b % 4
    ensures (offset + a + i) % 4 == (offset + b + i) % 4
  {}

  lemma KeyPlace(m: Machine, offset: nat, n: nat, i: nat)
    ensures (offset + (i + n) % m.WordSize()) % 4 == (offset + n + i) % 4
  {
    var w := m.WordSize();
    var q, r := (i + n) / w, (i + n) % w;
    if w == 8 {
      assert i + n == 4 * (2 * q) + r;
      DropFours(offset + r, 2 * q);
    } else {
      assert i + n == 4 * q + r;
      DropFours(offset + r, q);
    }
  }

  lemma DropFours(a: nat, q: nat)
    ensures (a + 4 * q) % 4 == a % 4
  {}

  /** Rotation keeps the invariant of prepared keys. */
  lemma CircshiftKeepsPrepared(m: Machine, w: Word, key: Key, offset: nat, n: nat)
    requires Prepared(m, w, key, offset) && n < m.WordSize()
    ensures Prepared(m, CircshiftPreparedKey(m, w, n), key, offset + n)
  {
    hide ByteAt, CircshiftPreparedKey, Fits;
    CircshiftRotates(m, w, n);
    var r := CircshiftPreparedKey(m, w, n);
    forall i | 0 <= i < m.WordSize() ensures ByteAt(m, r, i) == key[(offset + n + i) % 4] {
      KeyPlace(m, offset, n, i);
      assert ByteAt(m, r, i) == ByteAt(m, w, (i + n) % m.WordSize());
    }
  }

  // ---------------------------------------------------------------------------------------------
  // The circular masks as functions of the data and the prepared key
  // ---------------------------------------------------------------------------------------------

  function WordCircOutput(m: Machine, data: seq<Byte>, preparedKey: Word): (r: seq<Byte>)
    ensures |r| == |data|
  {
    seq(|data|, i requires 0 <= i < |data| => data[i] ^ ByteAt(m, preparedKey, i % m.WordSize()))
  }

  /** Rotates by what is left over after whole words. */
  function WordCircKey(m: Machine, preparedKey: Word, length: nat): Word {
    CircshiftPreparedKey(m, preparedKey, length % m.WordSize())
  }

  /** Memory byte `i` of the prepared key after it was cut to 32 bits. */
  function LowKeyByte(m: Machine, preparedKey: Word, i: nat): Byte
    requires i < 4
  {
    Digit(preparedKey, if m.littleEndian then i else 3 - i)
  }

  function ByteCircOutput(m: Machine, data: seq<Byte>, preparedKey: Word): (r: seq<Byte>)
    ensures |r| == |data|
  {
    seq(|data|, i requires 0 <= i < |data| => data[i] ^ LowKeyByte(m, preparedKey, i % 4))
  }

  /** Rotates by the length modulo four, whatever the word size. */
  function ByteCircKey(m: Machine, preparedKey: Word, length: nat): Word {
    CircshiftPreparedKey(m, preparedKey, length % 4)
  }

  /** The bytes of the word repeat with period four. */
  ghost predicate PeriodFour(m: Machine, w: Word) {
    Fits(m, w) && forall i :: 0 <= i < m.WordSize() ==> ByteAt(m, w, i) == ByteAt(m, w, i % 4)
  }

  lemma PreparedHasPeriodFour(m: Machine, w: Word, key: Key, offset: nat)
    requires Prepared(m, w, key, offset)
    ensures PeriodFour(m, w)
  {
    hide Fits, ByteAt;
    forall i | 0 <= i < m.WordSize() ensures ByteAt(m, w, i) == ByteAt(m, w, i % 4) {
      ReduceIndex(offset, i);
    }
  }

  /** A word of period four is prepared for the key it spells out. */
  lemma PeriodFourIsPrepared(m: Machine, w: Word) returns (key: Key)
    requires PeriodFour(m, w)
    ensures Prepared(m, w, key, 0)
  {
    hide Fits, ByteAt;
    key := [ByteAt(m, w, 0), ByteAt(m, w, 1), ByteAt(m, w, 2), ByteAt(m, w, 3)];
  }

  lemma WordKeyByte(m: Machine, key: Key, offset: nat, w: Word, i: nat)
    requires Prepared(m, w, key, offset)
    ensures ByteAt(m, w, i % m.WordSize()) == key[(offset + i) % 4]
  {}

  /** Both circular masks apply the key at its offset, and both hand back the key for the next chunk. */
  lemma WordCircIsMask(m: Machine, key: Key, offset: nat, data: seq<Byte>, w: Word)
    requires Prepared(m, w, key, offset)
    ensures WordCircOutput(m, data, w) == Mask(key, offset, data)
    ensures Prepared(m, WordCircKey(m, w, |data|), key, offset + |data|)
  {
    hide Prepared, ByteAt, CircshiftPreparedKey;
    forall i | 0 <= i < |data| ensures ByteAt(m, w, i % m.WordSize()) == key[(offset + i) % 4] {
      WordKeyByte(m, key, offset, w, i);
    }
    CircshiftKeepsPrepared(m, w, key, offset, |data| % m.WordSize());
    WordRemainder(m, |data|);
    PreparedModulo(m, WordCircKey(m, w, |data|), key, offset, |data| % m.WordSize(), |data|);
  }

  lemma WordRemainder(m: Machine, n: nat)
    ensures n % m.WordSize() % 4 == n % 4
  {
    if m.wide {
      assert n == 8 * (n / 8) + n % 8;
      DropFours(n % 8, 2 * (n / 8));
    }
  }

  lemma LowKeyByteOfPrepared(m: Machine, w: Word, key: Key, offset: nat, i: nat)
    requires Prepared(m, w, key, offset) && i < 4
    ensures LowKeyByte(m, w, i) == key[(offset + i) % 4]
  {
    hide Fits, Digit;
    if m.wide && !m.littleEndian {
      assert ByteAt(m, w, i + 4) == key[(offset + (i + 4)) % 4];
    } else {
      assert ByteAt(m, w, i) == key[(offset + i) % 4];
    }
  }

  lemma ByteCircIsMask(m: Machine, key: Key, offset: nat, data: seq<Byte>, w: Word)
    requires Prepared(m, w, key, offset)
    ensures ByteCircOutput(m, data, w) == Mask(key, offset, data)
    ensures Prepared(m, ByteCircKey(m, w, |data|), key, offset + |data|)
  {
    hide Fits, LowKeyByte, CircshiftPreparedKey;
    forall i | 0 <= i < |data| ensures LowKeyByte(m, w, i % 4) == key[(offset + i) % 4] {
      LowKeyByteOfPrepared(m, w, key, offset, i % 4);
      ReduceIndex(offset, i);
    }
    CircshiftKeepsPrepared(m, w, key, offset, |data| % 4);
    PreparedModulo(m, ByteCircKey(m, w, |data|), key, offset, |data| % 4, |data|);
  }

  lemma PreparedModulo(m: Machine, w: Word, key: Key, offset: nat, a: nat, b: nat)
    requires Prepared(m, w, key, offset + a) && a % 4 == b % 4
    ensures Prepared(m, w, key, offset + b)
  {
    hide Fits, ByteAt;
    forall i | 0 <= i < m.WordSize() ensures ByteAt(m, w, i) == key[(offset + b + i) % 4] {
      SameResidue(offset, a, b, i);
    }
  }

  /**
   * A message masked chunk by chunk, the key handed from each call to the next; `words[i]` says which of the two
   * circular masks takes chunk i.
   */
  function MaskStream(m: Machine, w: Word, chunks: seq<seq<Byte>>, words: seq<bool>): seq<Byte>
    requires |words| == |chunks|
    decreases |chunks|
  {
    if chunks == [] then []
    else if words[0] then
      WordCircOutput(m, chunks[0], w) + MaskStream(m, WordCircKey(m, w, |chunks[0]|), chunks[1..], words[1..])
    else
      ByteCircOutput(m, chunks[0], w) + MaskStream(m, ByteCircKey(m, w, |chunks[0]|), chunks[1..], words[1..])
  }

  lemma {:induction false} StreamFrom(m: Machine, w: Word, key: Key, offset: nat, chunks: seq<seq<Byte>>, words: seq<bool>)
    requires |words| == |chunks| && Prepared(m, w, key, offset)
    ensures MaskStream(m, w, chunks, words) == Mask(key, offset, Concat(chunks))
    decreases |chunks|
  {
    if chunks != [] {
      hide Prepared, WordCircOutput, WordCircKey, ByteCircOutput, ByteCircKey, Mask;
      var first, n := chunks[0], |chunks[0]|;
      WordCircIsMask(m, key, offset, first, w);
      ByteCircIsMask(m, key, offset, first, w);
      var next := if words[0] then WordCircKey(m, w, n) else ByteCircKey(m, w, n);
      StreamFrom(m, next, key, offset + n, chunks[1..], words[1..]);
      MaskAppend(key, offset, first, Concat(chunks[1..]));
    } else {
      assert Mask(key, offset, []) == [];
    }
  }

  /**
   * The fast form refines the simple one: however a payload is cut, on every machine, streaming it through the circular
   * masks from a prepared key gives the bytes of one pass of the byte mask.
   */
  lemma StreamEqualsByteMask(m: Machine, key: Key, chunks: seq<seq<Byte>>, words: seq<bool>)
    requires |words| == |chunks|
    ensures MaskStream(m, PrepareMaskingKey(m, key), chunks, words) == Mask(key, 0, Concat(chunks))
  {
    PrepareEstablishes(m, key);
    StreamFrom(m, PrepareMaskingKey(m, key), key, 0, chunks, words);
  }

  /** Both masks do the same to every payload: same bytes out, same key handed on. */
  ghost predicate MasksAgree(m: Machine, w: Word) {
    forall data: seq<Byte> ::
      ByteCircOutput(m, data, w) == WordCircOutput(m, data, w) && ByteCircKey(m, w, |data|) == WordCircKey(m, w, |data|)
  }

  lemma PeriodFourAgrees(m: Machine, w: Word, data: seq<Byte>)
    requires PeriodFour(m, w)
    ensures ByteCircOutput(m, data, w) == WordCircOutput(m, data, w)
    ensures ByteCircKey(m, w, |data|) == WordCircKey(m, w, |data|)
  {
    hide Fits, ByteAt, PeriodFour, ByteCircKey, WordCircKey, ByteCircOutput, WordCircOutput, Mask;
    var key := PeriodFourIsPrepared(m, w);
    WordCircIsMask(m, key, 0, data, w);
    ByteCircIsMask(m, key, 0, data, w);
    BytesDetermine(m, ByteCircKey(m, w, |data|), WordCircKey(m, w, |data|));
  }

  /** The two circular masks agree on every payload exactly when the prepared key has period four. */
  lemma MasksAgreeIffPeriodFour(m: Machine, w: Word)
    requires Fits(m, w)
    ensures MasksAgree(m, w) <==> PeriodFour(m, w)
  {
    hide Fits, ByteAt, ByteCircKey, WordCircKey, ByteCircOutput, WordCircOutput;
    if PeriodFour(m, w) {
      forall data: seq<Byte>
        ensures ByteCircOutput(m, data, w) == WordCircOutput(m, data, w)
        ensures ByteCircKey(m, w, |data|) == WordCircKey(m, w, |data|)
      {
        PeriodFourAgrees(m, w, data);
      }
    }
    if MasksAgree(m, w) {
      AgreementForcesPeriod(m, w);
    }
  }

  lemma AgreementForcesPeriod(m: Machine, w: Word)
    requires Fits(m, w)
    requires var zeros := [0, 0, 0, 0, 0, 0, 0, 0]; ByteCircOutput(m, zeros, w) == WordCircOutput(m, zeros, w)
    ensures PeriodFour(m, w)
  {
    hide Fits, ByteAt, LowKeyByte;
    var zeros: seq<Byte> := [0, 0, 0, 0, 0, 0, 0, 0];
    forall i | 0 <= i < m.WordSize() ensures ByteAt(m, w, i) == LowKeyByte(m, w, i % 4) {
      assert ByteCircOutput(m, zeros, w)[i] == WordCircOutput(m, zeros, w)[i];
      XorZero(LowKeyByte(m, w, i % 4));
      XorZero(ByteAt(m, w, i));
    }
  }

  lemma XorZero(x: Byte)
    ensures 0 ^ x == x
  {}

  // ---------------------------------------------------------------------------------------------
  // The code, over buffers. Input and output may be the same buffer.
  // ---------------------------------------------------------------------------------------------

  /** `byte_mask`: the key index runs round after each byte. */
  method ByteMask(input: array<Byte>, output: array<Byte>, length: nat, key: Key, keyOffset: nat)
    requires length <= input.Length && length <= output.Length
    modifies output
    ensures output[..length] == Mask(key, keyOffset, old(input[..length]))
    ensures output[length..] == old(output[length..])
  {
    var keyIndex := keyOffset % 4;
    for i := 0 to length
      invariant keyIndex == (keyOffset + i) % 4
      invariant forall j :: 0 <= j < i ==> output[j] == old(input[j]) ^ key[(keyOffset + j) % 4]
      invariant forall j :: i <= j < length ==> input[j] == old(input[j])
      invariant forall j :: i <= j < output.Length ==> output[j] == old(output[j])
    {
      output[i] := input[i] ^ key[keyIndex];
      NextIndex(keyOffset, i, keyIndex);
      keyIndex := keyIndex + 1;
      keyIndex := keyIndex % 4;
    }
  }

  lemma NextIndex(keyOffset: nat, i: nat, keyIndex: nat)
    requires keyIndex == (keyOffset + i) % 4
    ensures (keyIndex + 1) % 4 == (keyOffset + (i + 1)) % 4
  {
    DropFours(keyIndex + 1, (keyOffset + i) / 4);
  }

  lemma StoredXor(m: Machine, b: seq<Byte>, w: Word, j: nat)
    requires j < m.WordSize() == |b|
    ensures Store(m, BitXor(Load(m, b), w))[j] == b[j] ^ ByteAt(m, w, j)
  {
    hide Digit, Load, BitXor;
    LoadedBytes(m, b);
    DigitXor(Load(m, b), w, if m.littleEndian then j else |b| - 1 - j);
    assert ByteAt(m, Load(m, b), j) == b[j];
  }

  lemma WordsAndLeftover(m: Machine, length: nat)
    ensures var w := m.WordSize();
            0 <= length - length / w * w == length % w < w && length / w * w % w == 0
  {
    if m.wide {
      assert length == 8 * (length / 8) + length % 8;
    } else {
      assert length == 4 * (length / 4) + length % 4;
    }
  }

  /** `output_word[i] = input_word[i] ^ prepared_key`. */
  method MaskWord(m: Machine, input: array<Byte>, output: array<Byte>, at: nat, preparedKey: Word)
    requires at + m.WordSize() <= input.Length && at + m.WordSize() <= output.Length
    modifies output
    ensures forall j :: at <= j < at + m.WordSize() ==> output[j] == old(input[j]) ^ ByteAt(m, preparedKey, j - at)
    ensures forall j :: 0 <= j < output.Length && !(at <= j < at + m.WordSize()) ==> output[j] == old(output[j])
  {
    hide ByteAt, Load, BitXor, Store;
    var bytes := input[at..at + m.WordSize()];
    var word := Store(m, BitXor(Load(m, bytes), preparedKey));
    forall j | 0 <= j < m.WordSize() ensures word[j] == bytes[j] ^ ByteAt(m, preparedKey, j) {
      StoredXor(m, bytes, preparedKey, j);
    }
    forall j | at <= j < at + m.WordSize() {
      output[j] := word[j - at];
    }
  }

  method MaskWords(m: Machine, input: array<Byte>, output: array<Byte>, n: nat, preparedKey: Word)
    requires n * m.WordSize() <= input.Length && n * m.WordSize() <= output.Length
    modifies output
    ensures forall j :: 0 <= j < n * m.WordSize() ==> output[j] == old(input[j]) ^ ByteAt(m, preparedKey, j % m.WordSize())
    ensures forall j :: n * m.WordSize() <= j < output.Length ==> output[j] == old(output[j])
  {
    hide ByteAt;
    var w := m.WordSize();
    ghost var at := 0;
    for i := 0 to n
      invariant at == i * w && at % w == 0
      invariant forall j :: 0 <= j < at ==> output[j] == old(input[j]) ^ ByteAt(m, preparedKey, j % w)
      invariant forall j :: at <= j < input.Length ==> input[j] == old(input[j])
      invariant forall j :: at <= j < output.Length ==> output[j] == old(output[j])
    {
      WordFits(i, n, w);
      MaskWord(m, input, output, i * w, preparedKey);
      PlacesInWord(m, at);
      at := at + w;
    }
  }

  lemma WordFits(i: nat, n: nat, w: nat)
    requires i < n
    ensures i * w + w == (i + 1) * w <= n * w
  {}

  lemma PlacesInWord(m: Machine, at: nat)
    requires at % m.WordSize() == 0
    ensures (at + m.WordSize()) % m.WordSize() == 0
    ensures forall j :: at <= j < at + m.WordSize() ==> j % m.WordSize() == j - at
  {
    var q := at / m.WordSize();
    if m.wide {
      assert at == 8 * q && at + 8 == 8 * (q + 1);
      assert forall j :: at <= j < at + 8 ==> j % 8 == j - 8 * q;
    } else {
      assert at == 4 * q && at + 4 == 4 * (q + 1);
      assert forall j :: at <= j < at + 4 ==> j % 4 == j - 4 * q;
    }
  }

  /** `word_mask_exact`: whole words with the prepared key, the remainder byte by byte. */
  method WordMaskExact(m: Machine, input: array<Byte>, output: array<Byte>, length: nat, key: Key)
    requires length <= input.Length && length <= output.Length
    modifies output
    ensures output[..length] == Mask(key, 0, old(input[..length]))
    ensures output[length..] == old(output[length..])
  {
    var preparedKey := PrepareMaskingKey(m, key);
    PrepareEstablishes(m, key);
    hide ByteAt, PrepareMaskingKey, Fits;
    var w := m.WordSize();
    var n := length / w;
    var start := n * w;
    assert start <= length < start + w;
    MaskWords(m, input, output, n, preparedKey);
    forall j | 0 <= j < start ensures output[j] == old(input[j]) ^ key[j % 4] {
      WordKeyByte(m, key, 0, preparedKey, j);
    }
    for i := start to length
      invariant forall j :: 0 <= j < i ==> output[j] == old(input[j]) ^ key[j % 4]
      invariant forall j :: i <= j < input.Length ==> input[j] == old(input[j])
      invariant forall j :: i <= j < output.Length ==> output[j] == old(output[j])
    {
      output[i] := input[i] ^ key[i % 4];
    }
  }

  /** The partial word at the end, with the first bytes of the prepared key. */
  method MaskPartialWord(m: Machine, input: array<Byte>, output: array<Byte>, start: nat, l: nat, preparedKey: Word)
    requires l < m.WordSize() && start + l <= input.Length && start + l <= output.Length
    modifies output
    ensures forall j :: start <= j < start + l ==> output[j] == old(input[j]) ^ ByteAt(m, preparedKey, j - start)
    ensures forall j :: 0 <= j < output.Length && !(start <= j < start + l) ==> output[j] == old(output[j])
  {
    hide ByteAt;
    for i := 0 to l
      invariant forall j :: start <= j < start + i ==> output[j] == old(input[j]) ^ ByteAt(m, preparedKey, j - start)
      invariant forall j :: start + i <= j < input.Length ==> input[j] == old(input[j])
      invariant forall j :: 0 <= j < output.Length && !(start <= j < start + i) ==> output[j] == old(output[j])
    {
      output[start + i] := input[start + i] ^ ByteAt(m, preparedKey, i);
    }
  }

  lemma CircParts(m: Machine, data: seq<Byte>, out: seq<Byte>, start: nat, w: Word)
    requires start % m.WordSize() == 0 && start <= |out| == |data| < start + m.WordSize()
    requires forall j :: 0 <= j < start ==> out[j] == data[j] ^ ByteAt(m, w, j % m.WordSize())
    requires forall j :: start <= j < |data| ==> out[j] == data[j] ^ ByteAt(m, w, j - start)
    ensures out == WordCircOutput(m, data, w)
  {
    PlacesInWord(m, start);
    hide ByteAt;
  }

  /** `word_mask_circ`: whole words, a partial word at the end, and the key for the next chunk. */
  method WordMaskCirc(m: Machine, input: array<Byte>, output: array<Byte>, length: nat, preparedKey: Word)
    returns (nextKey: Word)
    requires length <= input.Length && length <= output.Length
    modifies output
    ensures output[..length] == WordCircOutput(m, old(input[..length]), preparedKey)
    ensures output[length..] == old(output[length..])
    ensures nextKey == WordCircKey(m, preparedKey, length)
  {
    hide ByteAt, CircshiftPreparedKey;
    var w := m.WordSize();
    var n := length / w;
    var l := length - n * w;
    WordsAndLeftover(m, length);
    MaskWords(m, input, output, n, preparedKey);
    var start := length - l;
    MaskPartialWord(m, input, output, start, l, preparedKey);
    CircParts(m, old(input[..length]), output[..length], start, preparedKey);
    nextKey := CircshiftPreparedKey(m, preparedKey, l);
  }

  /** `byte_mask_circ`: the low 32 bits of the prepared key, byte by byte. */
  method ByteMaskCirc(m: Machine, input: array<Byte>, output: array<Byte>, length: nat, preparedKey: Word)
    returns (nextKey: Word)
    requires length <= input.Length && length <= output.Length
    modifies output
    ensures output[..length] == ByteCircOutput(m, old(input[..length]), preparedKey)
    ensures output[length..] == old(output[length..])
    ensures nextKey == ByteCircKey(m, preparedKey, length)
  {
    hide LowKeyByte, CircshiftPreparedKey;
    for i := 0 to length
      invariant forall j :: 0 <= j < i ==> output[j] == old(input[j]) ^ LowKeyByte(m, preparedKey, j % 4)
      invariant forall j :: i <= j < input.Length ==> input[j] == old(input[j])
      invariant forall j :: i <= j < output.Length ==> output[j] == old(output[j])
    {
      output[i] := input[i] ^ LowKeyByte(m, preparedKey, i % 4);
    }
    nextKey := CircshiftPreparedKey(m, preparedKey, length % 4);
  }
}
