/**
 The published HELLO of the compatibility fixtures, byte for byte, and the check value of its checksum. What
 the model makes of the default policy with the echo plugin is exactly these bytes.
 */
module Fixture {
  import opened Types
  import opened Wire
  import opened Crc
  import opened EngineModel
  import opened EngineRuns
  import opened EngineNumbers
  import opened EngineMeet
  import F = FrameCodec
  import H = Hellos
  import P = Replay
  import X = Extensions

  // ---------------------------------------------------------------- the register, byte by byte

  lemma Push(c: bv32, b: byte, next: bv32, rest: Bytes)
    requires Step8(Xor(c, Word(b))) == next
    ensures Feed(c, [b] + rest) == Feed(next, rest)
    ensures rest == [] ==> Feed(c, [b]) == next
  {
    hide Step8, Xor, Word;
    assert ([b] + rest)[1..] == rest;
    if rest == [] {
      assert [b] + rest == [b];
      FeedNothing(next);
    }
  }

  lemma DigitsSteps()
    ensures Step8(Xor(0xFFFFFFFF, Word(0x31))) == 0x6F0A661C
    ensures Step8(Xor(0x6F0A661C, Word(0x32))) == 0x8CAA3B9F
    ensures Step8(Xor(0x8CAA3B9F, Word(0x33))) == 0xEF84D04D
    ensures Step8(Xor(0xEF84D04D, Word(0x34))) == 0x09C50B11
    ensures Step8(Xor(0x09C50B11, Word(0x35))) == 0xE72EDCCA
    ensures Step8(Xor(0xE72EDCCA, Word(0x36))) == 0xBECA8E79
    ensures Step8(Xor(0xBECA8E79, Word(0x37))) == 0xEDBD6815
    ensures Step8(Xor(0xEDBD6815, Word(0x38))) == 0x9F787F65
    ensures Step8(Xor(0x9F787F65, Word(0x39))) == 0x1CF96D7C
  {
  }

  lemma Digits()
    ensures Feed(0xFFFFFFFF, [0x31, 0x32, 0x33, 0x34, 0x35, 0x36, 0x37, 0x38, 0x39]) == 0x1CF96D7C
  {
    hide Step8, Xor, Word, Feed;
    DigitsSteps();
    assert [0x31] + [0x32, 0x33, 0x34, 0x35, 0x36, 0x37, 0x38, 0x39] == [0x31, 0x32, 0x33, 0x34, 0x35, 0x36, 0x37, 0x38, 0x39];
    Push(0xFFFFFFFF, 0x31, 0x6F0A661C, [0x32, 0x33, 0x34, 0x35, 0x36, 0x37, 0x38, 0x39]);
    assert [0x32] + [0x33, 0x34, 0x35, 0x36, 0x37, 0x38, 0x39] == [0x32, 0x33, 0x34, 0x35, 0x36, 0x37, 0x38, 0x39];
    Push(0x6F0A661C, 0x32, 0x8CAA3B9F, [0x33, 0x34, 0x35, 0x36, 0x37, 0x38, 0x39]);
    assert [0x33] + [0x34, 0x35, 0x36, 0x37, 0x38, 0x39] == [0x33, 0x34, 0x35, 0x36, 0x37, 0x38, 0x39];
    Push(0x8CAA3B9F, 0x33, 0xEF84D04D, [0x34, 0x35, 0x36, 0x37, 0x38, 0x39]);
    assert [0x34] + [0x35, 0x36, 0x37, 0x38, 0x39] == [0x34, 0x35, 0x36, 0x37, 0x38, 0x39];
    Push(0xEF84D04D, 0x34, 0x09C50B11, [0x35, 0x36, 0x37, 0x38, 0x39]);
    assert [0x35] + [0x36, 0x37, 0x38, 0x39] == [0x35, 0x36, 0x37, 0x38, 0x39];
    Push(0x09C50B11, 0x35, 0xE72EDCCA, [0x36, 0x37, 0x38, 0x39]);
    assert [0x36] + [0x37, 0x38, 0x39] == [0x36, 0x37, 0x38, 0x39];
    Push(0xE72EDCCA, 0x36, 0xBECA8E79, [0x37, 0x38, 0x39]);
    assert [0x37] + [0x38, 0x39] == [0x37, 0x38, 0x39];
    Push(0xBECA8E79, 0x37, 0xEDBD6815, [0x38, 0x39]);
    assert [0x38] + [0x39] == [0x38, 0x39];
    Push(0xEDBD6815, 0x38, 0x9F787F65, [0x39]);
    Push(0x9F787F65, 0x39, 0x1CF96D7C, []);
  }

  /** The check value by which catalogues identify this checksum: that of the digits 1 to 9. */
  lemma CheckValue()
    ensures Crc32c([0x31, 0x32, 0x33, 0x34, 0x35, 0x36, 0x37, 0x38, 0x39]) == 0xE306_9283
  {
    hide Feed;
    Digits();
  }

  // ---------------------------------------------------------------- the published frame

  const CHUNK0: Bytes := [0x4C, 0x54, 0x58, 0x31, 0x01, 0x00, 0x00, 0x00]
  const CHUNK1: Bytes := [0x00, 0x00, 0x00, 0x00, 0x00, 0x00, 0x00, 0x01, 0x34]
  const CHUNK2: Bytes := [0x00, 0x01, 0x00, 0x01, 0x00, 0x01, 0x00, 0x00]
  const CHUNK3: Bytes := [0x00, 0x10, 0x00, 0x00, 0x00, 0x10, 0x00, 0x00]
  const CHUNK4: Bytes := [0x01, 0x00, 0x00, 0x00, 0x00, 0x00, 0x00, 0x00, 0x00, 0x00]
  const CHUNK5: Bytes := [0x00, 0x00, 0x00, 0x00, 0x00, 0x00, 0x00, 0x00, 0x00, 0x01]
  const CHUNK6: Bytes := [0x00, 0x00, 0x00, 0x07, 0x45, 0x43, 0x48, 0x4F]
  const CHUNK7: Bytes := [0x5F, 0x76, 0x30, 0x31, 0x00, 0x00, 0x00, 0x04]

  lemma Part0Steps()
    ensures Step8(Xor(0xFFFFFFFF, Word(0x4C))) == 0xA1BA7EC2
    ensures Step8(Xor(0xA1BA7EC2, Word(0x54))) == 0xB4A8A181
    ensures Step8(Xor(0xB4A8A181, Word(0x58))) == 0xABD592C6
    ensures Step8(Xor(0xABD592C6, Word(0x31))) == 0x270FDE0C
    ensures Step8(Xor(0x270FDE0C, Word(0x01))) == 0xBF0F430D
    ensures Step8(Xor(0xBF0F430D, Word(0x00))) == 0xBF974390
    ensures Step8(Xor(0xBF974390, Word(0x00))) == 0x92176B54
    ensures Step8(Xor(0x92176B54, Word(0x00))) == 0x962D5AA7
  {
  }

  lemma Part0()
    ensures Feed(0xFFFFFFFF, [0x4C, 0x54, 0x58, 0x31, 0x01, 0x00, 0x00, 0x00]) == 0x962D5AA7
  {
    hide Step8, Xor, Word, Feed;
    Part0Steps();
    assert [0x4C] + [0x54, 0x58, 0x31, 0x01, 0x00, 0x00, 0x00] == [0x4C, 0x54, 0x58, 0x31, 0x01, 0x00, 0x00, 0x00];
    Push(0xFFFFFFFF, 0x4C, 0xA1BA7EC2, [0x54, 0x58, 0x31, 0x01, 0x00, 0x00, 0x00]);
    assert [0x54] + [0x58, 0x31, 0x01, 0x00, 0x00, 0x00] == [0x54, 0x58, 0x31, 0x01, 0x00, 0x00, 0x00];
    Push(0xA1BA7EC2, 0x54, 0xB4A8A181, [0x58, 0x31, 0x01, 0x00, 0x00, 0x00]);
    assert [0x58] + [0x31, 0x01, 0x00, 0x00, 0x00] == [0x58, 0x31, 0x01, 0x00, 0x00, 0x00];
    Push(0xB4A8A181, 0x58, 0xABD592C6, [0x31, 0x01, 0x00, 0x00, 0x00]);
    assert [0x31] + [0x01, 0x00, 0x00, 0x00] == [0x31, 0x01, 0x00, 0x00, 0x00];
    Push(0xABD592C6, 0x31, 0x270FDE0C, [0x01, 0x00, 0x00, 0x00]);
    assert [0x01] + [0x00, 0x00, 0x00] == [0x01, 0x00, 0x00, 0x00];
    Push(0x270FDE0C, 0x01, 0xBF0F430D, [0x00, 0x00, 0x00]);
    assert [0x00] + [0x00, 0x00] == [0x00, 0x00, 0x00];
    Push(0xBF0F430D, 0x00, 0xBF974390, [0x00, 0x00]);
    assert [0x00] + [0x00] == [0x00, 0x00];
    Push(0xBF974390, 0x00, 0x92176B54, [0x00]);
    Push(0x92176B54, 0x00, 0x962D5AA7, []);
  }

  lemma Part1Steps()
    ensures Step8(Xor(0x962D5AA7, Word(0x00))) == 0x7617FC17
    ensures Step8(Xor(0x7617FC17, Word(0x00))) == 0xC4E2B478
    ensures Step8(Xor(0xC4E2B478, Word(0x00))) == 0xFB85EE76
    ensures Step8(Xor(0xFB85EE76, Word(0x00))) == 0x57C2360B
    ensures Step8(Xor(0x57C2360B, Word(0x00))) == 0x99DE690D
    ensures Step8(Xor(0x99DE690D, Word(0x00))) == 0xBFB192BA
    ensures Step8(Xor(0xBFB192BA, Word(0x00))) == 0xD948EB63
    ensures Step8(Xor(0xD948EB63, Word(0x01))) == 0x8024AB7E
    ensures Step8(Xor(0x8024AB7E, Word(0x34))) == 0x2A19112F
  {
  }

  lemma Part1()
    ensures Feed(0x962D5AA7, [0x00, 0x00, 0x00, 0x00, 0x00, 0x00, 0x00, 0x01, 0x34]) == 0x2A19112F
  {
    hide Step8, Xor, Word, Feed;
    Part1Steps();
    assert [0x00] + [0x00, 0x00, 0x00, 0x00, 0x00, 0x00, 0x01, 0x34] == [0x00, 0x00, 0x00, 0x00, 0x00, 0x00, 0x00, 0x01, 0x34];
    Push(0x962D5AA7, 0x00, 0x7617FC17, [0x00, 0x00, 0x00, 0x00, 0x00, 0x00, 0x01, 0x34]);
    assert [0x00] + [0x00, 0x00, 0x00, 0x00, 0x00, 0x01, 0x34] == [0x00, 0x00, 0x00, 0x00, 0x00, 0x00, 0x01, 0x34];
    Push(0x7617FC17, 0x00, 0xC4E2B478, [0x00, 0x00, 0x00, 0x00, 0x00, 0x01, 0x34]);
    assert [0x00] + [0x00, 0x00, 0x00, 0x00, 0x01, 0x34] == [0x00, 0x00, 0x00, 0x00, 0x00, 0x01, 0x34];
    Push(0xC4E2B478, 0x00, 0xFB85EE76, [0x00, 0x00, 0x00, 0x00, 0x01, 0x34]);
    assert [0x00] + [0x00, 0x00, 0x00, 0x01, 0x34] == [0x00, 0x00, 0x00, 0x00, 0x01, 0x34];
    Push(0xFB85EE76, 0x00, 0x57C2360B, [0x00, 0x00, 0x00, 0x01, 0x34]);
    assert [0x00] + [0x00, 0x00, 0x01, 0x34] == [0x00, 0x00, 0x00, 0x01, 0x34];
    Push(0x57C2360B, 0x00, 0x99DE690D, [0x00, 0x00, 0x01, 0x34]);
    assert [0x00] + [0x00, 0x01, 0x34] == [0x00, 0x00, 0x01, 0x34];
    Push(0x99DE690D, 0x00, 0xBFB192BA, [0x00, 0x01, 0x34]);
    assert [0x00] + [0x01, 0x34] == [0x00, 0x01, 0x34];
    Push(0xBFB192BA, 0x00, 0xD948EB63, [0x01, 0x34]);
    assert [0x01] + [0x34] == [0x01, 0x34];
    Push(0xD948EB63, 0x01, 0x8024AB7E, [0x34]);
    Push(0x8024AB7E, 0x34, 0x2A19112F, []);
  }

  lemma Part2Steps()
    ensures Step8(Xor(0x2A19112F, Word(0x00))) == 0x7E84ABEB
    ensures Step8(Xor(0x7E84ABEB, Word(0x01))) == 0x88AC0489
    ensures Step8(Xor(0x88AC0489, Word(0x00))) == 0xFACC4CB0
    ensures Step8(Xor(0xFACC4CB0, Word(0x01))) == 0x40843D86
    ensures Step8(Xor(0x40843D86, Word(0x00))) == 0xA41758AD
    ensures Step8(Xor(0xA41758AD, Word(0x01))) == 0xEFAC6D2E
    ensures Step8(Xor(0xEFAC6D2E, Word(0x00))) == 0x8C2A9D94
    ensures Step8(Xor(0x8C2A9D94, Word(0x00))) == 0x55BE4195
  {
  }

  lemma Part2()
    ensures Feed(0x2A19112F, [0x00, 0x01, 0x00, 0x01, 0x00, 0x01, 0x00, 0x00]) == 0x55BE4195
  {
    hide Step8, Xor, Word, Feed;
    Part2Steps();
    assert [0x00] + [0x01, 0x00, 0x01, 0x00, 0x01, 0x00, 0x00] == [0x00, 0x01, 0x00, 0x01, 0x00, 0x01, 0x00, 0x00];
    Push(0x2A19112F, 0x00, 0x7E84ABEB, [0x01, 0x00, 0x01, 0x00, 0x01, 0x00, 0x00]);
    assert [0x01] + [0x00, 0x01, 0x00, 0x01, 0x00, 0x00] == [0x01, 0x00, 0x01, 0x00, 0x01, 0x00, 0x00];
    Push(0x7E84ABEB, 0x01, 0x88AC0489, [0x00, 0x01, 0x00, 0x01, 0x00, 0x00]);
    assert [0x00] + [0x01, 0x00, 0x01, 0x00, 0x00] == [0x00, 0x01, 0x00, 0x01, 0x00, 0x00];
    Push(0x88AC0489, 0x00, 0xFACC4CB0, [0x01, 0x00, 0x01, 0x00, 0x00]);
    assert [0x01] + [0x00, 0x01, 0x00, 0x00] == [0x01, 0x00, 0x01, 0x00, 0x00];
    Push(0xFACC4CB0, 0x01, 0x40843D86, [0x00, 0x01, 0x00, 0x00]);
    assert [0x00] + [0x01, 0x00, 0x00] == [0x00, 0x01, 0x00, 0x00];
    Push(0x40843D86, 0x00, 0xA41758AD, [0x01, 0x00, 0x00]);
    assert [0x01] + [0x00, 0x00] == [0x01, 0x00, 0x00];
    Push(0xA41758AD, 0x01, 0xEFAC6D2E, [0x00, 0x00]);
    assert [0x00] + [0x00] == [0x00, 0x00];
    Push(0xEFAC6D2E, 0x00, 0x8C2A9D94, [0x00]);
    Push(0x8C2A9D94, 0x00, 0x55BE4195, []);
  }

  lemma Part3Steps()
    ensures Step8(Xor(0x55BE4195, Word(0x00))) == 0xA70C564A
    ensures Step8(Xor(0xA70C564A, Word(0x10))) == 0x3A60FEBD
    ensures Step8(Xor(0x3A60FEBD, Word(0x00))) == 0x0D075EE4
    ensures Step8(Xor(0x0D075EE4, Word(0x00))) == 0x24A7385B
    ensures Step8(Xor(0x24A7385B, Word(0x00))) == 0xC888D6D0
    ensures Step8(Xor(0xC888D6D0, Word(0x10))) == 0xC345AE12
    ensures Step8(Xor(0xC345AE12, Word(0x00))) == 0xF1A6F236
    ensures Step8(Xor(0xF1A6F236, Word(0x00))) == 0x16B308AB
  {
  }

  lemma Part3()
    ensures Feed(0x55BE4195, [0x00, 0x10, 0x00, 0x00, 0x00, 0x10, 0x00, 0x00]) == 0x16B308AB
  {
    hide Step8, Xor, Word, Feed;
    Part3Steps();
    assert [0x00] + [0x10, 0x00, 0x00, 0x00, 0x10, 0x00, 0x00] == [0x00, 0x10, 0x00, 0x00, 0x00, 0x10, 0x00, 0x00];
    Push(0x55BE4195, 0x00, 0xA70C564A, [0x10, 0x00, 0x00, 0x00, 0x10, 0x00, 0x00]);
    assert [0x10] + [0x00, 0x00, 0x00, 0x10, 0x00, 0x00] == [0x10, 0x00, 0x00, 0x00, 0x10, 0x00, 0x00];
    Push(0xA70C564A, 0x10, 0x3A60FEBD, [0x00, 0x00, 0x00, 0x10, 0x00, 0x00]);
    assert [0x00] + [0x00, 0x00, 0x10, 0x00, 0x00] == [0x00, 0x00, 0x00, 0x10, 0x00, 0x00];
    Push(0x3A60FEBD, 0x00, 0x0D075EE4, [0x00, 0x00, 0x10, 0x00, 0x00]);
    assert [0x00] + [0x00, 0x10, 0x00, 0x00] == [0x00, 0x00, 0x10, 0x00, 0x00];
    Push(0x0D075EE4, 0x00, 0x24A7385B, [0x00, 0x10, 0x00, 0x00]);
    assert [0x00] + [0x10, 0x00, 0x00] == [0x00, 0x10, 0x00, 0x00];
    Push(0x24A7385B, 0x00, 0xC888D6D0, [0x10, 0x00, 0x00]);
    assert [0x10] + [0x00, 0x00] == [0x10, 0x00, 0x00];
    Push(0xC888D6D0, 0x10, 0xC345AE12, [0x00, 0x00]);
    assert [0x00] + [0x00] == [0x00, 0x00];
    Push(0xC345AE12, 0x00, 0xF1A6F236, [0x00]);
    Push(0xF1A6F236, 0x00, 0x16B308AB, []);
  }

  lemma Part4Steps()
    ensures Step8(Xor(0x16B308AB, Word(0x01))) == 0xC9BF2E96
    ensures Step8(Xor(0xC9BF2E96, Word(0x00))) == 0xB4C0A4D1
    ensures Step8(Xor(0xB4C0A4D1, Word(0x00))) == 0x210CA20C
    ensures Step8(Xor(0x210CA20C, Word(0x00))) == 0x4D62C372
    ensures Step8(Xor(0x4D62C372, Word(0x00))) == 0x90EE4639
    ensures Step8(Xor(0x90EE4639, Word(0x00))) == 0x48C17C3B
    ensures Step8(Xor(0x48C17C3B, Word(0x00))) == 0xA92223F6
    ensures Step8(Xor(0xA92223F6, Word(0x00))) == 0xD566AABE
    ensures Step8(Xor(0xD566AABE, Word(0x00))) == 0x1EB8AB44
    ensures Step8(Xor(0x1EB8AB44, Word(0x00))) == 0x86FF3208
  {
  }

  lemma Part4()
    ensures Feed(0x16B308AB, [0x01, 0x00, 0x00, 0x00, 0x00, 0x00, 0x00, 0x00, 0x00, 0x00]) == 0x86FF3208
  {
    hide Step8, Xor, Word, Feed;
    Part4Steps();
    assert [0x01] + [0x00, 0x00, 0x00, 0x00, 0x00, 0x00, 0x00, 0x00, 0x00] == [0x01, 0x00, 0x00, 0x00, 0x00, 0x00, 0x00, 0x00, 0x00, 0x00];
    Push(0x16B308AB, 0x01, 0xC9BF2E96, [0x00, 0x00, 0x00, 0x00, 0x00, 0x00, 0x00, 0x00, 0x00]);
    assert [0x00] + [0x00, 0x00, 0x00, 0x00, 0x00, 0x00, 0x00, 0x00] == [0x00, 0x00, 0x00, 0x00, 0x00, 0x00, 0x00, 0x00, 0x00];
    Push(0xC9BF2E96, 0x00, 0xB4C0A4D1, [0x00, 0x00, 0x00, 0x00, 0x00, 0x00, 0x00, 0x00]);
    assert [0x00] + [0x00, 0x00, 0x00, 0x00, 0x00, 0x00, 0x00] == [0x00, 0x00, 0x00, 0x00, 0x00, 0x00, 0x00, 0x00];
    Push(0xB4C0A4D1, 0x00, 0x210CA20C, [0x00, 0x00, 0x00, 0x00, 0x00, 0x00, 0x00]);
    assert [0x00] + [0x00, 0x00, 0x00, 0x00, 0x00, 0x00] == [0x00, 0x00, 0x00, 0x00, 0x00, 0x00, 0x00];
    Push(0x210CA20C, 0x00, 0x4D62C372, [0x00, 0x00, 0x00, 0x00, 0x00, 0x00]);
    assert [0x00] + [0x00, 0x00, 0x00, 0x00, 0x00] == [0x00, 0x00, 0x00, 0x00, 0x00, 0x00];
    Push(0x4D62C372, 0x00, 0x90EE4639, [0x00, 0x00, 0x00, 0x00, 0x00]);
    assert [0x00] + [0x00, 0x00, 0x00, 0x00] == [0x00, 0x00, 0x00, 0x00, 0x00];
    Push(0x90EE4639, 0x00, 0x48C17C3B, [0x00, 0x00, 0x00, 0x00]);
    assert [0x00] + [0x00, 0x00, 0x00] == [0x00, 0x00, 0x00, 0x00];
    Push(0x48C17C3B, 0x00, 0xA92223F6, [0x00, 0x00, 0x00]);
    assert [0x00] + [0x00, 0x00] == [0x00, 0x00, 0x00];
    Push(0xA92223F6, 0x00, 0xD566AABE, [0x00, 0x00]);
    assert [0x00] + [0x00] == [0x00, 0x00];
    Push(0xD566AABE, 0x00, 0x1EB8AB44, [0x00]);
    Push(0x1EB8AB44, 0x00, 0x86FF3208, []);
  }

  lemma Part5Steps()
    ensures Step8(Xor(0x86FF3208, Word(0x00))) == 0x8A5FA7FD
    ensures Step8(Xor(0x8A5FA7FD, Word(0x00))) == 0x4CCC7C01
    ensures Step8(Xor(0x4CCC7C01, Word(0x00))) == 0xF2274F7F
    ensures Step8(Xor(0xF2274F7F, Word(0x00))) == 0x2F794F66
    ensures Step8(Xor(0x2F794F66, Word(0x00))) == 0x47480DC5
    ensures Step8(Xor(0x47480DC5, Word(0x00))) == 0xF63B7AD5
    ensures Step8(Xor(0xF63B7AD5, Word(0x00))) == 0xE6D4CECD
    ensures Step8(Xor(0xE6D4CECD, Word(0x00))) == 0x7C43BED9
    ensures Step8(Xor(0x7C43BED9, Word(0x00))) == 0xAB1D79D9
    ensures Step8(Xor(0xAB1D79D9, Word(0x01))) == 0x59A1A41D
  {
  }

  lemma Part5()
    ensures Feed(0x86FF3208, [0x00, 0x00, 0x00, 0x00, 0x00, 0x00, 0x00, 0x00, 0x00, 0x01]) == 0x59A1A41D
  {
    hide Step8, Xor, Word, Feed;
    Part5Steps();
    assert [0x00] + [0x00, 0x00, 0x00, 0x00, 0x00, 0x00, 0x00, 0x00, 0x01] == [0x00, 0x00, 0x00, 0x00, 0x00, 0x00, 0x00, 0x00, 0x00, 0x01];
    Push(0x86FF3208, 0x00, 0x8A5FA7FD, [0x00, 0x00, 0x00, 0x00, 0x00, 0x00, 0x00, 0x00, 0x01]);
    assert [0x00] + [0x00, 0x00, 0x00, 0x00, 0x00, 0x00, 0x00, 0x01] == [0x00, 0x00, 0x00, 0x00, 0x00, 0x00, 0x00, 0x00, 0x01];
    Push(0x8A5FA7FD, 0x00, 0x4CCC7C01, [0x00, 0x00, 0x00, 0x00, 0x00, 0x00, 0x00, 0x01]);
    assert [0x00] + [0x00, 0x00, 0x00, 0x00, 0x00, 0x00, 0x01] == [0x00, 0x00, 0x00, 0x00, 0x00, 0x00, 0x00, 0x01];
    Push(0x4CCC7C01, 0x00, 0xF2274F7F, [0x00, 0x00, 0x00, 0x00, 0x00, 0x00, 0x01]);
    assert [0x00] + [0x00, 0x00, 0x00, 0x00, 0x00, 0x01] == [0x00, 0x00, 0x00, 0x00, 0x00, 0x00, 0x01];
    Push(0xF2274F7F, 0x00, 0x2F794F66, [0x00, 0x00, 0x00, 0x00, 0x00, 0x01]);
    assert [0x00] + [0x00, 0x00, 0x00, 0x00, 0x01] == [0x00, 0x00, 0x00, 0x00, 0x00, 0x01];
    Push(0x2F794F66, 0x00, 0x47480DC5, [0x00, 0x00, 0x00, 0x00, 0x01]);
    assert [0x00] + [0x00, 0x00, 0x00, 0x01] == [0x00, 0x00, 0x00, 0x00, 0x01];
    Push(0x47480DC5, 0x00, 0xF63B7AD5, [0x00, 0x00, 0x00, 0x01]);
    assert [0x00] + [0x00, 0x00, 0x01] == [0x00, 0x00, 0x00, 0x01];
    Push(0xF63B7AD5, 0x00, 0xE6D4CECD, [0x00, 0x00, 0x01]);
    assert [0x00] + [0x00, 0x01] == [0x00, 0x00, 0x01];
    Push(0xE6D4CECD, 0x00, 0x7C43BED9, [0x00, 0x01]);
    assert [0x00] + [0x01] == [0x00, 0x01];
    Push(0x7C43BED9, 0x00, 0xAB1D79D9, [0x01]);
    Push(0xAB1D79D9, 0x01, 0x59A1A41D, []);
  }

  lemma Part6Steps()
    ensures Step8(Xor(0x59A1A41D, Word(0x00))) == 0xAF2F2A18
    ensures Step8(Xor(0xAF2F2A18, Word(0x00))) == 0x9A28B08A
    ensures Step8(Xor(0x9A28B08A, Word(0x00))) == 0xE98E3BF0
    ensures Step8(Xor(0xE98E3BF0, Word(0x07))) == 0x274D85A5
    ensures Step8(Xor(0x274D85A5, Word(0x45))) == 0xE317E59F
    ensures Step8(Xor(0xE317E59F, Word(0x43))) == 0x9E73399E
    ensures Step8(Xor(0x9E73399E, Word(0x48))) == 0xF5EC757A
    ensures Step8(Xor(0xF5EC757A, Word(0x4F))) == 0x05E7B1D8
  {
  }

  lemma Part6()
    ensures Feed(0x59A1A41D, [0x00, 0x00, 0x00, 0x07, 0x45, 0x43, 0x48, 0x4F]) == 0x05E7B1D8
  {
    hide Step8, Xor, Word, Feed;
    Part6Steps();
    assert [0x00] + [0x00, 0x00, 0x07, 0x45, 0x43, 0x48, 0x4F] == [0x00, 0x00, 0x00, 0x07, 0x45, 0x43, 0x48, 0x4F];
    Push(0x59A1A41D, 0x00, 0xAF2F2A18, [0x00, 0x00, 0x07, 0x45, 0x43, 0x48, 0x4F]);
    assert [0x00] + [0x00, 0x07, 0x45, 0x43, 0x48, 0x4F] == [0x00, 0x00, 0x07, 0x45, 0x43, 0x48, 0x4F];
    Push(0xAF2F2A18, 0x00, 0x9A28B08A, [0x00, 0x07, 0x45, 0x43, 0x48, 0x4F]);
    assert [0x00] + [0x07, 0x45, 0x43, 0x48, 0x4F] == [0x00, 0x07, 0x45, 0x43, 0x48, 0x4F];
    Push(0x9A28B08A, 0x00, 0xE98E3BF0, [0x07, 0x45, 0x43, 0x48, 0x4F]);
    assert [0x07] + [0x45, 0x43, 0x48, 0x4F] == [0x07, 0x45, 0x43, 0x48, 0x4F];
    Push(0xE98E3BF0, 0x07, 0x274D85A5, [0x45, 0x43, 0x48, 0x4F]);
    assert [0x45] + [0x43, 0x48, 0x4F] == [0x45, 0x43, 0x48, 0x4F];
    Push(0x274D85A5, 0x45, 0xE317E59F, [0x43, 0x48, 0x4F]);
    assert [0x43] + [0x48, 0x4F] == [0x43, 0x48, 0x4F];
    Push(0xE317E59F, 0x43, 0x9E73399E, [0x48, 0x4F]);
    assert [0x48] + [0x4F] == [0x48, 0x4F];
    Push(0x9E73399E, 0x48, 0xF5EC757A, [0x4F]);
    Push(0xF5EC757A, 0x4F, 0x05E7B1D8, []);
  }

  lemma Part7Steps()
    ensures Step8(Xor(0x05E7B1D8, Word(0x5F))) == 0x5639B822
    ensures Step8(Xor(0x5639B822, Word(0x76))) == 0x96E97474
    ensures Step8(Xor(0x96E97474, Word(0x30))) == 0x867763D7
    ensures Step8(Xor(0x867763D7, Word(0x31))) == 0xC5173891
    ensures Step8(Xor(0xC5173891, Word(0x00))) == 0x6006682C
    ensures Step8(Xor(0x6006682C, Word(0x00))) == 0x6D9E4766
    ensures Step8(Xor(0x6D9E4766, Word(0x00))) == 0x470AEACD
    ensures Step8(Xor(0x470AEACD, Word(0x04))) == 0xBB78F7E2
  {
  }

  lemma Part7()
    ensures Feed(0x05E7B1D8, [0x5F, 0x76, 0x30, 0x31, 0x00, 0x00, 0x00, 0x04]) == 0xBB78F7E2
  {
    hide Step8, Xor, Word, Feed;
    Part7Steps();
    assert [0x5F] + [0x76, 0x30, 0x31, 0x00, 0x00, 0x00, 0x04] == [0x5F, 0x76, 0x30, 0x31, 0x00, 0x00, 0x00, 0x04];
    Push(0x05E7B1D8, 0x5F, 0x5639B822, [0x76, 0x30, 0x31, 0x00, 0x00, 0x00, 0x04]);
    assert [0x76] + [0x30, 0x31, 0x00, 0x00, 0x00, 0x04] == [0x76, 0x30, 0x31, 0x00, 0x00, 0x00, 0x04];
    Push(0x5639B822, 0x76, 0x96E97474, [0x30, 0x31, 0x00, 0x00, 0x00, 0x04]);
    assert [0x30] + [0x31, 0x00, 0x00, 0x00, 0x04] == [0x30, 0x31, 0x00, 0x00, 0x00, 0x04];
    Push(0x96E97474, 0x30, 0x867763D7, [0x31, 0x00, 0x00, 0x00, 0x04]);
    assert [0x31] + [0x00, 0x00, 0x00, 0x04] == [0x31, 0x00, 0x00, 0x00, 0x04];
    Push(0x867763D7, 0x31, 0xC5173891, [0x00, 0x00, 0x00, 0x04]);
    assert [0x00] + [0x00, 0x00, 0x04] == [0x00, 0x00, 0x00, 0x04];
    Push(0xC5173891, 0x00, 0x6006682C, [0x00, 0x00, 0x04]);
    assert [0x00] + [0x00, 0x04] == [0x00, 0x00, 0x04];
    Push(0x6006682C, 0x00, 0x6D9E4766, [0x00, 0x04]);
    assert [0x00] + [0x04] == [0x00, 0x04];
    Push(0x6D9E4766, 0x00, 0x470AEACD, [0x04]);
    Push(0x470AEACD, 0x04, 0xBB78F7E2, []);
  }

  /** Magic, type, flags, lengths and numbers. */
  const FRONT: Bytes := CHUNK0 + CHUNK1

  /** Versions, limits, features and the plugin count; then the plugin. */
  const HEAD: Bytes := CHUNK2 + CHUNK3 + CHUNK4 + CHUNK5
  const PLUGIN: Bytes := CHUNK6 + CHUNK7

  const BODY: Bytes := FRONT + (HEAD + PLUGIN)
  const HELLO: Bytes := BODY + [0x44, 0x87, 0x08, 0x1D]

  lemma FixtureChecksum()
    ensures Crc32c(BODY) == 0x4487_081D
  {
    hide Feed;
    var c: bv32 := 0xFFFF_FFFF;
    Part0();
    Part1();
    Part2();
    Part3();
    Part4();
    Part5();
    Part6();
    Part7();
    FeedSplit(c, FRONT, HEAD + PLUGIN);
    FeedSplit(c, CHUNK0, CHUNK1);
    var d := Feed(c, FRONT);
    FeedSplit(d, HEAD, PLUGIN);
    FeedSplit(d, CHUNK2 + CHUNK3 + CHUNK4, CHUNK5);
    FeedSplit(d, CHUNK2 + CHUNK3, CHUNK4);
    FeedSplit(d, CHUNK2, CHUNK3);
    FeedSplit(Feed(d, HEAD), CHUNK6, CHUNK7);
  }

  const ECHO: H.Descriptor := H.Descriptor(7, 0x4543_484F_5F76_3031, 4)
  const DEFAULTS: H.Policy := H.Policy(1, 1, 0x1_0000, 0x10_0000, 0x10_0000, 0x100, 0, 0, 4096)

  lemma FixtureNumbers()
    ensures U16Bytes(0) == [0, 0] && U16Bytes(1) == [0, 1] && U16Bytes(0x100) == [1, 0] && U24Bytes(0) == [0, 0, 0]
    ensures U32Bytes(0x1_0000) == [0, 1, 0, 0] && U32Bytes(0x10_0000) == [0, 0x10, 0, 0]
    ensures U32Bytes(1) == [0, 0, 0, 1] && U32Bytes(7) == [0, 0, 0, 7] && U32Bytes(4) == [0, 0, 0, 4]
    ensures U32Bytes(F.LTX_MAGIC) == [0x4C, 0x54, 0x58, 0x31] && U32Bytes(0x4487_081D) == [0x44, 0x87, 0x08, 0x1D]
    ensures U64Bytes(0) == [0, 0, 0, 0, 0, 0, 0, 0]
    ensures U64Bytes(0x4543_484F_5F76_3031) == [0x45, 0x43, 0x48, 0x4F, 0x5F, 0x76, 0x30, 0x31]
  {
  }

  lemma FixtureHead(h: H.Hello)
    requires h == H.Hello(1, 1, DEFAULTS, [ECHO])
    ensures H.Head(h) == HEAD
  {
    hide U16Bytes, U32Bytes, U64Bytes;
    FixtureNumbers();
    assert U16Bytes(1) + U16Bytes(1) + U32Bytes(0x1_0000) == CHUNK2;
    assert U32Bytes(0x10_0000) + U32Bytes(0x10_0000) == CHUNK3;
    assert U16Bytes(0x100) + U64Bytes(0) == CHUNK4;
    assert U64Bytes(0) + U16Bytes(1) == CHUNK5;
    assert H.Head(h) == U16Bytes(1) + U16Bytes(1) + U32Bytes(0x1_0000) + (U32Bytes(0x10_0000) + U32Bytes(0x10_0000))
                        + (U16Bytes(0x100) + U64Bytes(0)) + (U64Bytes(0) + U16Bytes(1));
  }

  lemma FixturePlugin()
    ensures H.DescriptorsBytes([ECHO]) == PLUGIN
  {
    hide U32Bytes, U64Bytes;
    FixtureNumbers();
    assert [ECHO][1..] == [] && H.DescriptorsBytes([]) == [];
    assert H.DescriptorsBytes([ECHO]) == H.DescriptorBytes(ECHO) + [];
    assert U32Bytes(7) + U64Bytes(0x4543_484F_5F76_3031) + U32Bytes(4) == PLUGIN;
  }

  lemma FixturePayload()
    ensures H.EncodeHelloSpec(H.Hello(1, 1, DEFAULTS, [ECHO])) == Ok(HEAD + PLUGIN)
  {
    hide H.Head, H.DescriptorsBytes;
    H.OnePlugin(ECHO);
    FixtureHead(H.Hello(1, 1, DEFAULTS, [ECHO]));
    FixturePlugin();
  }

  function FixtureFrame(): F.Frame { F.Frame(F.Hello, 0, CONTROL, 1, [], HEAD + PLUGIN) }

  lemma FixtureBody()
    ensures F.Unsealed(FixtureFrame(), []) == BODY
  {
    hide U16Bytes, U24Bytes, U32Bytes;
    FixtureNumbers();
    UlebOne(52);
    assert |HEAD + PLUGIN| == 52;
    assert U32Bytes(F.LTX_MAGIC) + [1, 0] + U16Bytes(0) == CHUNK0;
    assert U24Bytes(0) + [0] + U32Bytes(1) + [52] == CHUNK1;
    assert F.FixedPrefix(FixtureFrame(), 0) + [52] == FRONT;
    assert FRONT + [] + (HEAD + PLUGIN) == BODY;
  }

  lemma FixtureEncoded(limits: F.FrameLimits)
    requires 73 <= limits.maxFrame
    ensures F.EncodeSpec(limits, FixtureFrame()) == Ok(HELLO)
  {
    hide Crc32c, F.Unsealed;
    assert X.Canonical([]) == [] && X.WriteExtensionsSpec([]) == Ok([]);
    FixtureBody();
    FixtureChecksum();
    FixtureNumbers();
  }

  /** A connection with the default policy and the echo plugin starts with exactly the published bytes. */
  lemma StartsWithFixture(host: Host)
    requires host.plugins == [ECHO]
    ensures StartSpec(host, NewConn(DEFAULTS)).1 == Ok([HELLO])
  {
    hide H.EncodeHelloSpec, F.EncodeSpec, EmitSpec, Begun, NewConn, P.Contains;
    FixturePayload();
    BegunClean(DEFAULTS);
    var c := Begun(DEFAULTS);
    FixtureEncoded(Limits(DEFAULTS));
    assert |HELLO| == 73;
    NotContained(c);
    SettledFields(c, Numbered(c));
    EmitsIff(Numbered(c), FixtureFrame());
    EmitOutcome(Numbered(c), FixtureFrame());
    StartIs(host, DEFAULTS);
  }

  lemma StartIs(host: Host, policy: H.Policy)
    requires 1 <= policy.replayWindow && H.EncodeHelloSpec(LocalHello(host, policy)).Ok?
    ensures StartSpec(host, NewConn(policy))
         == EmitSpec(Numbered(Begun(policy)), FrameOf(Begun(policy), F.Hello, CONTROL, HelloPayload(host, policy), []))
  {
    hide EmitSpec, H.EncodeHelloSpec;
  }
}
