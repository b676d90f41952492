/**
 What fixes the definition of SHA-1 from outside: its round constants are the leading bits of
 square roots, and the message "abc" has the digest that Appendix A of FIPS PUB 180-1
 gives, with the schedule and the registers of the 80 rounds that are listed there.
 */
module Sha1Vectors {

  import opened Sha1Spec
  import Sha1

  // ---- the constants -------------------------------------------------------

  /** The four constants are the square roots of 2, 3, 5 and 10, times 2^30 and rounded down. */
  lemma ConstantsAreRoots(t: nat)
    requires t < 80
    ensures var n := if t < 20 then 2 else if t < 40 then 3 else if t < 60 then 5 else 10;
            var k := K(t) as nat;
            k * k <= n * 0x1000_0000_0000_0000 < (k + 1) * (k + 1)
  {
    if t < 20 {
      assert K(t) as nat == 0x5A827999;
    } else if t < 40 {
      assert K(t) as nat == 0x6ED9EBA1;
    } else if t < 60 {
      assert K(t) as nat == 0x8F1BBCDC;
    } else {
      assert K(t) as nat == 0xCA62C1D6;
    }
  }

  // ---- the message "abc" ---------------------------------------------------

  const ABC: seq<bv8> := [0x61, 0x62, 0x63]

  function Pick(i: int, w0: bv32, w1: bv32, w2: bv32, w3: bv32, w4: bv32, w5: bv32, w6: bv32, w7: bv32): bv32 {
    if i == 0 then w0 else if i == 1 then w1 else if i == 2 then w2 else if i == 3 then w3
    else if i == 4 then w4 else if i == 5 then w5 else if i == 6 then w6 else w7
  }

  /** The schedule: word t. */
  function Word(t: nat): bv32 {
    if t < 8 then
      Pick(t - 0, 0x61626380, 0x00000000, 0x00000000, 0x00000000, 0x00000000, 0x00000000, 0x00000000, 0x00000000)
    else if t < 16 then
      Pick(t - 8, 0x00000000, 0x00000000, 0x00000000, 0x00000000, 0x00000000, 0x00000000, 0x00000000, 0x00000018)
    else if t < 24 then
      Pick(t - 16, 0xC2C4C700, 0x00000000, 0x00000030, 0x85898E01, 0x00000000, 0x00000060, 0x0B131C03, 0x00000030)
    else if t < 32 then
      Pick(t - 24, 0x85898EC1, 0x16263806, 0x00000000, 0x00000180, 0x2C4C700C, 0x000000F0, 0x93AFB507, 0x5898E048)
    else if t < 40 then
      Pick(t - 32, 0x8E9A9202, 0x00000600, 0xB131C0F0, 0x16263BC6, 0x4EBED41E, 0x626380A1, 0x16263806, 0x000018C0)
    else if t < 48 then
      Pick(t - 40, 0xD2E138C4, 0x00000F00, 0x3AFB5079, 0x898E04E5, 0xE2BA3C2B, 0x000060C0, 0x053A37CD, 0x74458547)
    else if t < 56 then
      Pick(t - 48, 0xDA9415ED, 0x26380A16, 0x626383A1, 0x4EBF54DE, 0x3835B44B, 0x0000F600, 0x1E84C7A3, 0x98E04D98)
    else if t < 64 then
      Pick(t - 56, 0x651D16A0, 0x62658CA1, 0x458544D6, 0x44584CB7, 0x7BA06619, 0x6380AEA2, 0x0AE55269, 0x627B49A1)
    else if t < 72 then
      Pick(t - 64, 0x7CD45C9D, 0x000F0000, 0xFB50753A, 0xEC6765E8, 0xBA3C2BE2, 0x0060C000, 0x3A37CD05, 0x458546F4)
    else
      Pick(t - 72, 0xB8599DD6, 0x380A1A26, 0x01E02203, 0xE7CC3456, 0xE6E60B69, 0x00F60A00, 0x5795EF4F, 0x822E0879)
  }

  /** The first register: after round t - 5 if t is at least 5; the others are earlier values of it, rotated. */
  function First(t: nat): bv32 {
    if t < 8 then
      Pick(t - 0, 0x0F4B87C3, 0x40C951D8, 0x62EB73FA, 0xEFCDAB89, 0x67452301, 0x0116FC33, 0x8990536D, 0xA1390F08)
    else if t < 16 then
      Pick(t - 8, 0xCDD8E11B, 0xCFD499DE, 0x3FC7CA40, 0x993E30C1, 0x9E8C07D4, 0x4B6AE328, 0x8351F929, 0xFBDA9E89)
    else if t < 24 then
      Pick(t - 16, 0x63188FE4, 0x4607B664, 0x9128F695, 0x196BEE77, 0x20BDD62F, 0x4E925823, 0x82AA6728, 0xDC64901D)
    else if t < 32 then
      Pick(t - 24, 0xFD9E1D7D, 0x1A37B0CA, 0x33A23BFC, 0x21283486, 0xD541F12D, 0xC7567DC6, 0x48413BA4, 0xBE35FBD5)
    else if t < 40 then
      Pick(t - 32, 0x4AA84D97, 0x8370B52E, 0xC5FBAF5D, 0x1267B407, 0x3B845D33, 0x046FAA0A, 0x2C0EBC11, 0x21796AD4)
    else if t < 48 then
      Pick(t - 40, 0xDCBBB0CB, 0x0F511FD8, 0xDC63973F, 0x4C986405, 0x32DE1CBA, 0xFC87DEDF, 0x970A0D5C, 0x7F193DC5)
    else if t < 56 then
      Pick(t - 48, 0xEE1B1AAF, 0x40F28E09, 0x1C51E1F2, 0xA01B846C, 0xBEAD02CA, 0xBAF39337, 0x120731C5, 0x641DB2CE)
    else if t < 64 then
      Pick(t - 56, 0x3847AD66, 0xE490436D, 0x27E9F1D8, 0x7B71F76D, 0x5E6456AF, 0xC846093F, 0xD262FF50, 0x09D785FD)
    else if t < 72 then
      Pick(t - 64, 0x3F52DE5A, 0xD756C147, 0x548C9CB2, 0xB66C020B, 0x6B61C9E1, 0x19DFA7AC, 0x101655F9, 0x0C3DF2B4)
    else if t < 80 then
      Pick(t - 72, 0x78DD4D2B, 0x497093C0, 0x3F2588C2, 0xC199F8C7, 0x39859DE7, 0xEDB42DE4, 0x11793F6F, 0x5EE76897)
    else
      Pick(t - 80, 0x63F7DAB7, 0xA079B7D9, 0x860D21CC, 0x5738D5E1, 0x42541B35, 0x00000000, 0x00000000, 0x00000000)
  }

  /** The registers before round t. */
  function RegsAt(t: nat): Regs {
    Regs(First(t + 4), First(t + 3), Rol30(First(t + 2)), Rol30(First(t + 1)), Rol30(First(t)))
  }

  ghost predicate WordIs(t: nat)
    requires t >= 16
  {
    Word(t) == Rol1(Xor4(Word(t - 3), Word(t - 8), Word(t - 14), Word(t - 16)))
  }

  lemma WordRow16()
    ensures WordIs(16) && WordIs(17) && WordIs(18) && WordIs(19) && WordIs(20) && WordIs(21) && WordIs(22) && WordIs(23)
    ensures WordIs(24) && WordIs(25) && WordIs(26) && WordIs(27) && WordIs(28) && WordIs(29) && WordIs(30) && WordIs(31)
  {
  }

  lemma WordRow32()
    ensures WordIs(32) && WordIs(33) && WordIs(34) && WordIs(35) && WordIs(36) && WordIs(37) && WordIs(38) && WordIs(39)
    ensures WordIs(40) && WordIs(41) && WordIs(42) && WordIs(43) && WordIs(44) && WordIs(45) && WordIs(46) && WordIs(47)
  {
  }

  lemma WordRow48()
    ensures WordIs(48) && WordIs(49) && WordIs(50) && WordIs(51) && WordIs(52) && WordIs(53) && WordIs(54) && WordIs(55)
    ensures WordIs(56) && WordIs(57) && WordIs(58) && WordIs(59) && WordIs(60) && WordIs(61) && WordIs(62) && WordIs(63)
  {
  }

  lemma WordRow64()
    ensures WordIs(64) && WordIs(65) && WordIs(66) && WordIs(67) && WordIs(68) && WordIs(69) && WordIs(70) && WordIs(71)
    ensures WordIs(72) && WordIs(73) && WordIs(74) && WordIs(75) && WordIs(76) && WordIs(77) && WordIs(78) && WordIs(79)
  {
  }

  lemma AllWords(t: nat)
    requires 16 <= t < 80
    ensures WordIs(t)
  {
    hide *;
    if t < 32 {
      WordRow16();
      assert t == 16 || t == 17 || t == 18 || t == 19 || t == 20 || t == 21 || t == 22 || t == 23
             || t == 24 || t == 25 || t == 26 || t == 27 || t == 28 || t == 29 || t == 30 || t == 31;
    } else if t < 48 {
      WordRow32();
      assert t == 32 || t == 33 || t == 34 || t == 35 || t == 36 || t == 37 || t == 38 || t == 39
             || t == 40 || t == 41 || t == 42 || t == 43 || t == 44 || t == 45 || t == 46 || t == 47;
    } else if t < 64 {
      WordRow48();
      assert t == 48 || t == 49 || t == 50 || t == 51 || t == 52 || t == 53 || t == 54 || t == 55
             || t == 56 || t == 57 || t == 58 || t == 59 || t == 60 || t == 61 || t == 62 || t == 63;
    } else {
      WordRow64();
      assert t == 64 || t == 65 || t == 66 || t == 67 || t == 68 || t == 69 || t == 70 || t == 71
             || t == 72 || t == 73 || t == 74 || t == 75 || t == 76 || t == 77 || t == 78 || t == 79;
    }
  }

  lemma {:induction false} ScheduleIs(block: seq<bv32>, t: nat)
    requires |block| == 16 && (forall i | 0 <= i < 16 :: block[i] == Word(i)) && t < 80
    ensures W(block, t) == Word(t)
  {
    hide Word, Rol1, Xor4;
    if t >= 16 {
      ScheduleIs(block, t - 3);
      ScheduleIs(block, t - 8);
      ScheduleIs(block, t - 14);
      ScheduleIs(block, t - 16);
      AllWords(t);
    }
  }

  ghost predicate RoundIs(t: nat) {
    var r := RegsAt(t);
    First(t + 5) == Sum5(Rol5(r.a), F(t, r.b, r.c, r.d), r.e, Word(t), K(t))
  }

  lemma RoundRow0()
    ensures RoundIs(0) && RoundIs(1) && RoundIs(2) && RoundIs(3) && RoundIs(4)
    ensures RoundIs(5) && RoundIs(6) && RoundIs(7) && RoundIs(8) && RoundIs(9)
  {
  }

  lemma RoundRow10()
    ensures RoundIs(10) && RoundIs(11) && RoundIs(12) && RoundIs(13) && RoundIs(14)
    ensures RoundIs(15) && RoundIs(16) && RoundIs(17) && RoundIs(18) && RoundIs(19)
  {
  }

  lemma RoundRow20()
    ensures RoundIs(20) && RoundIs(21) && RoundIs(22) && RoundIs(23) && RoundIs(24)
    ensures RoundIs(25) && RoundIs(26) && RoundIs(27) && RoundIs(28) && RoundIs(29)
  {
  }

  lemma RoundRow30()
    ensures RoundIs(30) && RoundIs(31) && RoundIs(32) && RoundIs(33) && RoundIs(34)
    ensures RoundIs(35) && RoundIs(36) && RoundIs(37) && RoundIs(38) && RoundIs(39)
  {
  }

  lemma RoundRow40()
    ensures RoundIs(40) && RoundIs(41) && RoundIs(42) && RoundIs(43) && RoundIs(44)
    ensures RoundIs(45) && RoundIs(46) && RoundIs(47) && RoundIs(48) && RoundIs(49)
  {
  }

  lemma RoundRow50()
    ensures RoundIs(50) && RoundIs(51) && RoundIs(52) && RoundIs(53) && RoundIs(54)
    ensures RoundIs(55) && RoundIs(56) && RoundIs(57) && RoundIs(58) && RoundIs(59)
  {
  }

  lemma RoundRow60()
    ensures RoundIs(60) && RoundIs(61) && RoundIs(62) && RoundIs(63) && RoundIs(64)
    ensures RoundIs(65) && RoundIs(66) && RoundIs(67) && RoundIs(68) && RoundIs(69)
  {
  }

  lemma RoundRow70()
    ensures RoundIs(70) && RoundIs(71) && RoundIs(72) && RoundIs(73) && RoundIs(74)
    ensures RoundIs(75) && RoundIs(76) && RoundIs(77) && RoundIs(78) && RoundIs(79)
  {
  }

  lemma AllRounds(t: nat)
    requires 0 <= t < 80
    ensures RoundIs(t)
  {
    hide *;
    if t < 10 {
      RoundRow0();
      assert t == 0 || t == 1 || t == 2 || t == 3 || t == 4
             || t == 5 || t == 6 || t == 7 || t == 8 || t == 9;
    } else if t < 20 {
      RoundRow10();
      assert t == 10 || t == 11 || t == 12 || t == 13 || t == 14
             || t == 15 || t == 16 || t == 17 || t == 18 || t == 19;
    } else if t < 30 {
      RoundRow20();
      assert t == 20 || t == 21 || t == 22 || t == 23 || t == 24
             || t == 25 || t == 26 || t == 27 || t == 28 || t == 29;
    } else if t < 40 {
      RoundRow30();
      assert t == 30 || t == 31 || t == 32 || t == 33 || t == 34
             || t == 35 || t == 36 || t == 37 || t == 38 || t == 39;
    } else if t < 50 {
      RoundRow40();
      assert t == 40 || t == 41 || t == 42 || t == 43 || t == 44
             || t == 45 || t == 46 || t == 47 || t == 48 || t == 49;
    } else if t < 60 {
      RoundRow50();
      assert t == 50 || t == 51 || t == 52 || t == 53 || t == 54
             || t == 55 || t == 56 || t == 57 || t == 58 || t == 59;
    } else if t < 70 {
      RoundRow60();
      assert t == 60 || t == 61 || t == 62 || t == 63 || t == 64
             || t == 65 || t == 66 || t == 67 || t == 68 || t == 69;
    } else {
      RoundRow70();
      assert t == 70 || t == 71 || t == 72 || t == 73 || t == 74
             || t == 75 || t == 76 || t == 77 || t == 78 || t == 79;
    }
  }

  lemma {:induction false} RegistersAre(block: seq<bv32>, t: nat)
    requires |block| == 16 && (forall i | 0 <= i < 16 :: block[i] == Word(i)) && t <= 80
    ensures Rounds(block, RegsAt(0), t) == RegsAt(t)
  {
    hide Word, First, Rol5, Rol30, F, K, Sum5, W;
    if t > 0 {
      RegistersAre(block, t - 1);
      ScheduleIs(block, t - 1);
      AllRounds(t - 1);
    }
  }

  lemma StartIs()
    ensures RegsAt(0) == INIT
  {
  }

  lemma EndIs()
    ensures AddRegs(INIT, RegsAt(80)) == Regs(0xA9993E36, 0x4706816A, 0xBA3E2571, 0x7850C26C, 0x9CD0D89D)
  {
  }

  /** The padding of "abc", as one block. */
  lemma PaddedAbc()
    ensures Pad(ABC) == ABC + [0x80] + Zeros(52) + [0, 0, 0, 0, 0, 0, 0, 24]
  {
    hide Byte;
    LengthOfAbc();
    assert Padding(3) == [0x80] + Zeros(52) + LengthBytes(3);
  }

  lemma LengthOfAbc()
    ensures LengthBytes(3) == [0, 0, 0, 0, 0, 0, 0, 24]
  {
    assert 24 / 0x100_0000 == 0 && 24 / 0x1_0000 == 0 && 24 / 0x100 == 0;
    assert Byte(0) == 0 && Byte(24) == 24;
    hide Byte;
  }

  lemma WordsOfAbc(m: seq<bv8>)
    requires m == ABC + [0x80] + Zeros(52) + [0, 0, 0, 0, 0, 0, 0, 24]
    ensures |m| == 64 && forall i | 0 <= i < 16 :: Words(m)[i] == Word(i)
  {
    hide Words;
    assert m[0] == 0x61 && m[1] == 0x62 && m[2] == 0x63 && m[3] == 0x80 && m[63] == 24;
    assert forall k | 4 <= k < 63 :: m[k] == 0;
    forall i | 0 <= i < 16
      ensures Words(m)[i] == Word(i)
    {
      if 0 < i < 15 {
        assert BigEndian(0, 0, 0, 0) == 0 && Word(i) == 0;
      }
    }
  }

  /** Appendix A: the digest of "abc". */
  lemma DigestOfAbc()
    ensures Digest(ABC) == [0xA9, 0x99, 0x3E, 0x36, 0x47, 0x06, 0x81, 0x6A, 0xBA, 0x3E,
                            0x25, 0x71, 0x78, 0x50, 0xC2, 0x6C, 0x9C, 0xD0, 0xD8, 0x9D]
  {
    hide Word, First, Rounds, Pad, RegsAt, Words;
    PaddedAbc();
    var m := Pad(ABC);
    WordsOfAbc(m);
    assert m[..0] == [] && m[0..] == m;
    assert Chain(m) == Compress(INIT, Words(m));
    RegistersAre(Words(m), 80);
    StartIs();
    EndIs();
  }

  lemma OnePiece(m: seq<bv8>)
    ensures Sha1.Concat([m]) == m
  {
  }

  /** What the code computes for "abc". */
  method HashAbc() returns (digest: seq<bv8>)
    ensures digest == [0xA9, 0x99, 0x3E, 0x36, 0x47, 0x06, 0x81, 0x6A, 0xBA, 0x3E,
                       0x25, 0x71, 0x78, 0x50, 0xC2, 0x6C, 0x9C, 0xD0, 0xD8, 0x9D]
  {
    hide Digest;
    digest := Sha1.HashPieces([ABC]);
    assert Sha1.Concat([ABC]) == ABC by {
      OnePiece(ABC);
    }
    DigestOfAbc();
  }
}
