/** A digest from the test suite of RFC 1321, appendix A.5, worked out step by step: it pins every constant of the model. */
module Md5Example {
  import opened Bytes
  import opened Md5Block
  import opened Md5

  /** The words of the padded message "message digest". */
  const WORDS: seq<Word> := [
    0x7373656d, 0x20656761, 0x65676964, 0x00807473, 0x00000000, 0x00000000, 0x00000000, 0x00000000,
    0x00000000, 0x00000000, 0x00000000, 0x00000000, 0x00000000, 0x00000000, 0x00000070, 0x00000000
  ]

  /** "message digest" in ASCII. */
  const MESSAGE: seq<Byte> := [0x6d, 0x65, 0x73, 0x73, 0x61, 0x67, 0x65, 0x20, 0x64, 0x69, 0x67, 0x65, 0x73, 0x74]

  /** After `i` steps on the example the registers are these. */
  ghost predicate At(i: nat, a: Word, b: Word, c: Word, d: Word) {
    i <= 64 && Steps(SetWord, i, INITIAL, WORDS) == Registers(a, b, c, d)
  }

  /** Step i takes word k, which is x, shift s and constant t, and gives v. */
  lemma OneStep(i: nat, f: Aux, a: Word, b: Word, c: Word, d: Word, k: nat, x: Word, s: Amount, t: Word, v: Word)
    requires i < 64 && At(i, a, b, c, d)
    requires AuxOf(i) == f && WordIndex(i) == k && WORDS[k] == x && ShiftAmount(i) == s && StepConstant(i) == t
    requires SetWord(f, a, b, c, d, x, s, t) == v
    ensures At(i + 1, d, v, b, c)
  {
    hide SetWord, WordIndex, ShiftAmount, StepConstant;
  }

  lemma Steps0()
    ensures At(0, 0x67452301, 0xefcdab89, 0x98badcfe, 0x10325476)
  {}

  lemma Steps4()
    ensures At(4, 0x5ed29dae, 0xb9940c11, 0x9073e056, 0xe2a2fc32)
  {
    hide At;
    Steps0();
    OneStep(0, F, 0x67452301, 0xefcdab89, 0x98badcfe, 0x10325476, 0, 0x7373656d, 7, 0xd76aa478, 0x5ed29dae);
    OneStep(1, F, 0x10325476, 0x5ed29dae, 0xefcdab89, 0x98badcfe, 1, 0x20656761, 12, 0xe8c7b756, 0xe2a2fc32);
    OneStep(2, F, 0x98badcfe, 0xe2a2fc32, 0x5ed29dae, 0xefcdab89, 2, 0x65676964, 17, 0x242070db, 0x9073e056);
    OneStep(3, F, 0xefcdab89, 0x9073e056, 0xe2a2fc32, 0x5ed29dae, 3, 0x00807473, 22, 0xc1bdceee, 0xb9940c11);
  }

  lemma Steps8()
    ensures At(8, 0xfa62d3a4, 0xc63616cd, 0xa089a530, 0xb88dc1c7)
  {
    hide At;
    Steps4();
    OneStep(4, F, 0x5ed29dae, 0xb9940c11, 0x9073e056, 0xe2a2fc32, 4, 0x00000000, 7, 0xf57c0faf, 0xfa62d3a4);
    OneStep(5, F, 0xe2a2fc32, 0xfa62d3a4, 0xb9940c11, 0x9073e056, 5, 0x00000000, 12, 0x4787c62a, 0xb88dc1c7);
    OneStep(6, F, 0x9073e056, 0xb88dc1c7, 0xfa62d3a4, 0xb9940c11, 6, 0x00000000, 17, 0xa8304613, 0xa089a530);
    OneStep(7, F, 0xb9940c11, 0xa089a530, 0xb88dc1c7, 0xfa62d3a4, 7, 0x00000000, 22, 0xfd469501, 0xc63616cd);
  }

  lemma Steps12()
    ensures At(12, 0xfcced5db, 0x5ff4a4e8, 0x4731c077, 0x9bb4c658)
  {
    hide At;
    Steps8();
    OneStep(8, F, 0xfa62d3a4, 0xc63616cd, 0xa089a530, 0xb88dc1c7, 8, 0x00000000, 7, 0x698098d8, 0xfcced5db);
    OneStep(9, F, 0xb88dc1c7, 0xfcced5db, 0xc63616cd, 0xa089a530, 9, 0x00000000, 12, 0x8b44f7af, 0x9bb4c658);
    OneStep(10, F, 0xa089a530, 0x9bb4c658, 0xfcced5db, 0xc63616cd, 10, 0x00000000, 17, 0xffff5bb1, 0x4731c077);
    OneStep(11, F, 0xc63616cd, 0x4731c077, 0x9bb4c658, 0xfcced5db, 11, 0x00000000, 22, 0x895cd7be, 0x5ff4a4e8);
  }

  lemma Steps16()
    ensures At(16, 0x27c95b7f, 0xb760921a, 0x872d34d8, 0x034e9992)
  {
    hide At;
    Steps12();
    OneStep(12, F, 0xfcced5db, 0x5ff4a4e8, 0x4731c077, 0x9bb4c658, 12, 0x00000000, 7, 0x6b901122, 0x27c95b7f);
    OneStep(13, F, 0x9bb4c658, 0x27c95b7f, 0x5ff4a4e8, 0x4731c077, 13, 0x00000000, 12, 0xfd987193, 0x034e9992);
    OneStep(14, F, 0x4731c077, 0x034e9992, 0x27c95b7f, 0x5ff4a4e8, 14, 0x00000070, 17, 0xa679438e, 0x872d34d8);
    OneStep(15, F, 0x5ff4a4e8, 0x872d34d8, 0x034e9992, 0x27c95b7f, 15, 0x00000000, 22, 0x49b40821, 0xb760921a);
  }

  lemma Steps20()
    ensures At(20, 0x6d3425b2, 0xf615fbe5, 0x62cdb24b, 0x551aefa3)
  {
    hide At;
    Steps16();
    OneStep(16, G, 0x27c95b7f, 0xb760921a, 0x872d34d8, 0x034e9992, 1, 0x20656761, 5, 0xf61e2562, 0x6d3425b2);
    OneStep(17, G, 0x034e9992, 0x6d3425b2, 0xb760921a, 0x872d34d8, 6, 0x00000000, 9, 0xc040b340, 0x551aefa3);
    OneStep(18, G, 0x872d34d8, 0x551aefa3, 0x6d3425b2, 0xb760921a, 11, 0x00000000, 14, 0x265e5a51, 0x62cdb24b);
    OneStep(19, G, 0xb760921a, 0x62cdb24b, 0x551aefa3, 0x6d3425b2, 0, 0x7373656d, 20, 0xe9b6c7aa, 0xf615fbe5);
  }

  lemma Steps24()
    ensures At(24, 0x3d3c3afc, 0xe7f48f59, 0x99351d3c, 0x343bff12)
  {
    hide At;
    Steps20();
    OneStep(20, G, 0x6d3425b2, 0xf615fbe5, 0x62cdb24b, 0x551aefa3, 5, 0x00000000, 5, 0xd62f105d, 0x3d3c3afc);
    OneStep(21, G, 0x551aefa3, 0x3d3c3afc, 0xf615fbe5, 0x62cdb24b, 10, 0x00000000, 9, 0x02441453, 0x343bff12);
    OneStep(22, G, 0x62cdb24b, 0x343bff12, 0x3d3c3afc, 0xf615fbe5, 15, 0x00000000, 14, 0xd8a1e681, 0x99351d3c);
    OneStep(23, G, 0xf615fbe5, 0x99351d3c, 0x343bff12, 0x3d3c3afc, 4, 0x00000000, 20, 0xe7d3fbc8, 0xe7f48f59);
  }

  lemma Steps28()
    ensures At(28, 0x7247931a, 0x2460ff57, 0x709f1676, 0xe37cf5f6)
  {
    hide At;
    Steps24();
    OneStep(24, G, 0x3d3c3afc, 0xe7f48f59, 0x99351d3c, 0x343bff12, 9, 0x00000000, 5, 0x21e1cde6, 0x7247931a);
    OneStep(25, G, 0x343bff12, 0x7247931a, 0xe7f48f59, 0x99351d3c, 14, 0x00000070, 9, 0xc33707d6, 0xe37cf5f6);
    OneStep(26, G, 0x99351d3c, 0xe37cf5f6, 0x7247931a, 0xe7f48f59, 3, 0x00807473, 14, 0xf4d50d87, 0x709f1676);
    OneStep(27, G, 0xe7f48f59, 0x709f1676, 0xe37cf5f6, 0x7247931a, 8, 0x00000000, 20, 0x455a14ed, 0x2460ff57);
  }

  lemma Steps32()
    ensures At(32, 0xc64f6e00, 0x29209d1f, 0x99ccfca3, 0x4e341514)
  {
    hide At;
    Steps28();
    OneStep(28, G, 0x7247931a, 0x2460ff57, 0x709f1676, 0xe37cf5f6, 13, 0x00000000, 5, 0xa9e3e905, 0xc64f6e00);
    OneStep(29, G, 0xe37cf5f6, 0xc64f6e00, 0x2460ff57, 0x709f1676, 2, 0x65676964, 9, 0xfcefa3f8, 0x4e341514);
    OneStep(30, G, 0x709f1676, 0x4e341514, 0xc64f6e00, 0x2460ff57, 7, 0x00000000, 14, 0x676f02d9, 0x99ccfca3);
    OneStep(31, G, 0x2460ff57, 0x99ccfca3, 0x4e341514, 0xc64f6e00, 12, 0x00000000, 20, 0x8d2a4c8a, 0x29209d1f);
  }

  lemma Steps36()
    ensures At(36, 0x7b425bcb, 0x77401eff, 0x8139174f, 0x1d72c0d5)
  {
    hide At;
    Steps32();
    OneStep(32, H, 0xc64f6e00, 0x29209d1f, 0x99ccfca3, 0x4e341514, 5, 0x00000000, 4, 0xfffa3942, 0x7b425bcb);
    OneStep(33, H, 0x4e341514, 0x7b425bcb, 0x29209d1f, 0x99ccfca3, 8, 0x00000000, 11, 0x8771f681, 0x1d72c0d5);
    OneStep(34, H, 0x99ccfca3, 0x1d72c0d5, 0x7b425bcb, 0x29209d1f, 11, 0x00000000, 16, 0x6d9d6122, 0x8139174f);
    OneStep(35, H, 0x29209d1f, 0x8139174f, 0x1d72c0d5, 0x7b425bcb, 14, 0x00000070, 23, 0xfde5380c, 0x77401eff);
  }

  lemma Steps40()
    ensures At(40, 0x2e678c51, 0x1eaad7f9, 0x26bbf48d, 0xaf1a865c)
  {
    hide At;
    Steps36();
    OneStep(36, H, 0x7b425bcb, 0x77401eff, 0x8139174f, 0x1d72c0d5, 1, 0x20656761, 4, 0xa4beea44, 0x2e678c51);
    OneStep(37, H, 0x1d72c0d5, 0x2e678c51, 0x77401eff, 0x8139174f, 4, 0x00000000, 11, 0x4bdecfa9, 0xaf1a865c);
    OneStep(38, H, 0x8139174f, 0xaf1a865c, 0x2e678c51, 0x77401eff, 7, 0x00000000, 16, 0xf6bb4b60, 0x26bbf48d);
    OneStep(39, H, 0x77401eff, 0x26bbf48d, 0xaf1a865c, 0x2e678c51, 10, 0x00000000, 23, 0xbebfbc70, 0x1eaad7f9);
  }

  lemma Steps44()
    ensures At(44, 0xff95dbf7, 0x49bd582a, 0x580f8d8e, 0x9ff8129c)
  {
    hide At;
    Steps40();
    OneStep(40, H, 0x2e678c51, 0x1eaad7f9, 0x26bbf48d, 0xaf1a865c, 13, 0x00000000, 4, 0x289b7ec6, 0xff95dbf7);
    OneStep(41, H, 0xaf1a865c, 0xff95dbf7, 0x1eaad7f9, 0x26bbf48d, 0, 0x7373656d, 11, 0xeaa127fa, 0x9ff8129c);
    OneStep(42, H, 0x26bbf48d, 0x9ff8129c, 0xff95dbf7, 0x1eaad7f9, 3, 0x00807473, 16, 0xd4ef3085, 0x580f8d8e);
    OneStep(43, H, 0x1eaad7f9, 0x580f8d8e, 0x9ff8129c, 0xff95dbf7, 6, 0x00000000, 23, 0x04881d05, 0x49bd582a);
  }

  lemma Steps48()
    ensures At(48, 0xc5148eb0, 0x8f920a7f, 0x8ee8cb35, 0x9551398b)
  {
    hide At;
    Steps44();
    OneStep(44, H, 0xff95dbf7, 0x49bd582a, 0x580f8d8e, 0x9ff8129c, 9, 0x00000000, 4, 0xd9d4d039, 0xc5148eb0);
    OneStep(45, H, 0x9ff8129c, 0xc5148eb0, 0x49bd582a, 0x580f8d8e, 12, 0x00000000, 11, 0xe6db99e5, 0x9551398b);
    OneStep(46, H, 0x580f8d8e, 0x9551398b, 0xc5148eb0, 0x49bd582a, 15, 0x00000000, 16, 0x1fa27cf8, 0x8ee8cb35);
    OneStep(47, H, 0x49bd582a, 0x8ee8cb35, 0x9551398b, 0xc5148eb0, 2, 0x65676964, 23, 0xc4ac5665, 0x8f920a7f);
  }

  lemma Steps52()
    ensures At(52, 0x1158f562, 0xed9ac5d4, 0x3250a790, 0x3a3bd4bf)
  {
    hide At;
    Steps48();
    OneStep(48, I, 0xc5148eb0, 0x8f920a7f, 0x8ee8cb35, 0x9551398b, 0, 0x7373656d, 6, 0xf4292244, 0x1158f562);
    OneStep(49, I, 0x9551398b, 0x1158f562, 0x8f920a7f, 0x8ee8cb35, 7, 0x00000000, 10, 0x432aff97, 0x3a3bd4bf);
    OneStep(50, I, 0x8ee8cb35, 0x3a3bd4bf, 0x1158f562, 0x8f920a7f, 14, 0x00000070, 15, 0xab9423a7, 0x3250a790);
    OneStep(51, I, 0x8f920a7f, 0x3250a790, 0x3a3bd4bf, 0x1158f562, 5, 0x00000000, 21, 0xfc93a039, 0xed9ac5d4);
  }

  lemma Steps56()
    ensures At(56, 0x7e40a029, 0xc004fc5d, 0x555e3d90, 0x778e9f99)
  {
    hide At;
    Steps52();
    OneStep(52, I, 0x1158f562, 0xed9ac5d4, 0x3250a790, 0x3a3bd4bf, 12, 0x00000000, 6, 0x655b59c3, 0x7e40a029);
    OneStep(53, I, 0x3a3bd4bf, 0x7e40a029, 0xed9ac5d4, 0x3250a790, 3, 0x00807473, 10, 0x8f0ccc92, 0x778e9f99);
    OneStep(54, I, 0x3250a790, 0x778e9f99, 0x7e40a029, 0xed9ac5d4, 10, 0x00000000, 15, 0xffeff47d, 0x555e3d90);
    OneStep(55, I, 0xed9ac5d4, 0x555e3d90, 0x778e9f99, 0x7e40a029, 1, 0x20656761, 21, 0x85845dd1, 0xc004fc5d);
  }

  lemma Steps60()
    ensures At(60, 0x853d163f, 0x671dc236, 0x61367f65, 0x57ff85d4)
  {
    hide At;
    Steps56();
    OneStep(56, I, 0x7e40a029, 0xc004fc5d, 0x555e3d90, 0x778e9f99, 8, 0x00000000, 6, 0x6fa87e4f, 0x853d163f);
    OneStep(57, I, 0x778e9f99, 0x853d163f, 0xc004fc5d, 0x555e3d90, 15, 0x00000000, 10, 0xfe2ce6e0, 0x57ff85d4);
    OneStep(58, I, 0x555e3d90, 0x57ff85d4, 0x853d163f, 0xc004fc5d, 6, 0x00000000, 15, 0xa3014314, 0x61367f65);
    OneStep(59, I, 0xc004fc5d, 0x61367f65, 0x57ff85d4, 0x853d163f, 13, 0x00000000, 21, 0x4e0811a1, 0x671dc236);
  }

  lemma Steps64()
    ensures At(64, 0x162448f8, 0x9dc60bf3, 0x98747d54, 0xc02f9d34)
  {
    hide At;
    Steps60();
    OneStep(60, I, 0x853d163f, 0x671dc236, 0x61367f65, 0x57ff85d4, 4, 0x00000000, 6, 0xf7537e82, 0x162448f8);
    OneStep(61, I, 0x57ff85d4, 0x162448f8, 0x671dc236, 0x61367f65, 11, 0x00000000, 10, 0xbd3af235, 0xc02f9d34);
    OneStep(62, I, 0x61367f65, 0xc02f9d34, 0x162448f8, 0x671dc236, 2, 0x65676964, 15, 0x2ad7d2bb, 0x98747d54);
    OneStep(63, I, 0x671dc236, 0x98747d54, 0xc02f9d34, 0x162448f8, 9, 0x00000000, 21, 0xeb86d391, 0x9dc60bf3);
  }

  lemma ExampleCompressed(block: Block)
    requires Words(block) == WORDS
    ensures Compress(INITIAL, block) == Registers(0x7d696bf9, 0x8d93b77c, 0x312f5a52, 0xd061f1aa)
  {
    Steps64();
    hide Steps, Words;
  }

  lemma ExampleLength()
    ensures LeBytes(112, 8) == [112, 0, 0, 0, 0, 0, 0, 0]
  {
    assert LeDigits(0, 1) == [0] && LeDigits(0, 3) == [0] + LeDigits(0, 2);
    assert LeDigits(0, 7) == [0, 0, 0, 0, 0, 0, 0] by {
      assert LeDigits(0, 5) == [0, 0] + LeDigits(0, 3);
    }
    assert LeDigits(112, 8) == [112] + LeDigits(0, 7);
  }

  lemma ExamplePadded()
    ensures var p := Pad(MESSAGE);
            && |p| == 64 && p[..14] == MESSAGE && p[14] == 0x80 && (forall i :: 15 <= i < 56 ==> p[i] == 0)
            && p[56..] == [112, 0, 0, 0, 0, 0, 0, 0]
  {
    ExampleLength();
    hide LeBytes;
    assert ZeroCount(14) == 41;
  }

  lemma ExampleWord(p: Block, i: nat)
    requires p[..14] == MESSAGE && p[14] == 0x80 && (forall i :: 15 <= i < 56 ==> p[i] == 0)
    requires p[56..] == [112, 0, 0, 0, 0, 0, 0, 0] && i < 16
    ensures LeWord([p[4 * i], p[4 * i + 1], p[4 * i + 2], p[4 * i + 3]]) == WORDS[i]
  {
    if i < 4 {
      assert forall j :: 0 <= j < 14 ==> p[j] == MESSAGE[j];
      match i case 0 => case 1 => case 2 => case _ =>
    } else if i < 14 {
      assert LeWord([0, 0, 0, 0]) == 0;
    } else {
      assert forall j :: 56 <= j < 64 ==> p[j] == p[56..][j - 56];
    }
  }

  lemma FourBytes(p: seq<Byte>, j: nat)
    requires j + 4 <= |p|
    ensures p[j..j + 4] == [p[j], p[j + 1], p[j + 2], p[j + 3]]
  {}

  lemma ExampleWords()
    ensures |Pad(MESSAGE)| == 64 && Words(Pad(MESSAGE)) == WORDS
  {
    ExamplePadded();
    hide Pad, LeWord;
    var p := Pad(MESSAGE);
    forall i | 0 <= i < 16 ensures Words(p)[i] == WORDS[i] {
      ExampleWord(p, i);
      FourBytes(p, 4 * i);
    }
  }

  lemma ExampleOutput()
    ensures Output(Registers(0x7d696bf9, 0x8d93b77c, 0x312f5a52, 0xd061f1aa)) == [
      0xf9, 0x6b, 0x69, 0x7d, 0x7c, 0xb7, 0x93, 0x8d,
      0x52, 0x5a, 0x2f, 0x31, 0xaa, 0xf1, 0x61, 0xd0]
  {}

  /** MD5 ("message digest") = f96b697d7cb7938d525a2f31aaf161d0. */
  lemma MessageDigest()
    ensures Digest(MESSAGE) == [
      0xf9, 0x6b, 0x69, 0x7d, 0x7c, 0xb7, 0x93, 0x8d,
      0x52, 0x5a, 0x2f, 0x31, 0xaa, 0xf1, 0x61, 0xd0]
  {
    hide Pad, Compress, Words, Output;
    ExampleWords();
    var p: Block := Pad(MESSAGE);
    ExampleCompressed(p);
    assert [] + p == p;
    FoldBlock(Compress, INITIAL, [], p);
    ExampleOutput();
  }
}
