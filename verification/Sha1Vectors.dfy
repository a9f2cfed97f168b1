/**
 SHA-1 on the test message of FIPS PUB 180-1, appendix A, worked out round by round as the standard lists it. The
 schedule is kept in a window of sixteen words that moves with the rounds.
 */
module Sha1Vectors {
  import opened Base
  import opened Sha1Spec

  datatype Window = Window(
    w0: Word, w1: Word, w2: Word, w3: Word, w4: Word, w5: Word, w6: Word, w7: Word,
    w8: Word, w9: Word, w10: Word, w11: Word, w12: Word, w13: Word, w14: Word, w15: Word)

  /** The registers before a round, and the words of the schedule from that round on. */
  datatype State = State(g: Digest, v: Window)

  function Step(s: State, t: nat): State {
    var v := s.v;
    State(Round(s.g, t, v.w0),
          Window(v.w1, v.w2, v.w3, v.w4, v.w5, v.w6, v.w7, v.w8, v.w9, v.w10, v.w11, v.w12, v.w13, v.w14, v.w15,
                 Expanded(v.w13, v.w8, v.w2, v.w0)))
  }

  /** The state after `n` rounds from round `t` on. */
  function Steps(s: State, t: nat, n: nat): State
    decreases n
  {
    if n == 0 then s else Steps(Step(s, t), t + 1, n - 1)
  }

  predicate Shows(v: Window, b: Block, t: nat) {
    && v.w0 == Schedule(b, t) && v.w1 == Schedule(b, t + 1) && v.w2 == Schedule(b, t + 2) && v.w3 == Schedule(b, t + 3)
    && v.w4 == Schedule(b, t + 4) && v.w5 == Schedule(b, t + 5) && v.w6 == Schedule(b, t + 6)
    && v.w7 == Schedule(b, t + 7) && v.w8 == Schedule(b, t + 8) && v.w9 == Schedule(b, t + 9)
    && v.w10 == Schedule(b, t + 10) && v.w11 == Schedule(b, t + 11) && v.w12 == Schedule(b, t + 12)
    && v.w13 == Schedule(b, t + 13) && v.w14 == Schedule(b, t + 14) && v.w15 == Schedule(b, t + 15)
  }

  lemma NextWord(b: Block, t: nat)
    ensures Schedule(b, t + 16) ==
            Expanded(Schedule(b, t + 13), Schedule(b, t + 8), Schedule(b, t + 2), Schedule(b, t))
  {
    hide Expanded;
  }

  lemma ShowsNext(s: State, b: Block, t: nat)
    requires Shows(s.v, b, t)
    ensures Shows(Step(s, t).v, b, t + 1)
  {
    hide Schedule, Expanded, Round;
    NextWord(b, t);
  }

  lemma NextRound(g: Digest, b: Block, t: nat)
    ensures Rounds(g, b, t + 1) == Round(Rounds(g, b, t), t, Schedule(b, t))
  {
    hide Round, Schedule;
  }

  lemma StepRounds(s: State, b: Block, t: nat)
    requires Shows(s.v, b, t)
    ensures Step(s, t).g == Round(s.g, t, Schedule(b, t))
  {
    hide Schedule, Round, Expanded;
  }

  /** The window computes what the definition says. */
  lemma {:induction false} StepsAreRounds(g: Digest, b: Block, s: State, t: nat, n: nat)
    requires Shows(s.v, b, t) && s.g == Rounds(g, b, t)
    ensures Steps(s, t, n).g == Rounds(g, b, t + n)
    decreases n
  {
    hide Schedule, Rounds, Round, Shows, Step, Steps;
    if n == 0 {
      NoSteps(s, t);
    } else {
      NextStep(s, t, n);
      ShowsNext(s, b, t);
      NextRound(g, b, t);
      StepRounds(s, b, t);
      StepsAreRounds(g, b, Step(s, t), t + 1, n - 1);
    }
  }

  lemma {:induction false} StepsSplit(s: State, t: nat, n: nat, k: nat)
    ensures Steps(s, t, n + k) == Steps(Steps(s, t, n), t + n, k)
    decreases n
  {
    hide Step;
    if n > 0 {
      StepsSplit(Step(s, t), t + 1, n - 1, k);
    }
  }

  function After(s: State, a: Word, w: Word): State {
    var v := s.v;
    State(Digest(a, s.g.a, Rotl30(s.g.b), s.g.c, s.g.d),
          Window(v.w1, v.w2, v.w3, v.w4, v.w5, v.w6, v.w7, v.w8, v.w9, v.w10, v.w11, v.w12, v.w13, v.w14, v.w15, w))
  }

  // One round in each of the four quarters, given the register and the word that it adds.

  lemma Go0(s: State, t: nat, n: nat, a: Word, w: Word) returns (r: State)
    requires n > 0 && t < 20
    requires a == Sum(Rotl5(s.g.a), Choose(s.g.b, s.g.c, s.g.d), s.g.e, s.v.w0, 0x5A827999)
    requires w == Expanded(s.v.w13, s.v.w8, s.v.w2, s.v.w0)
    ensures Steps(s, t, n) == Steps(r, t + 1, n - 1) && r == After(s, a, w)
  {
    hide Sum, Rotl5, Rotl30, Choose, Parity, Majority, Expanded;
    r := Step(s, t);
  }

  lemma Go20(s: State, t: nat, n: nat, a: Word, w: Word) returns (r: State)
    requires n > 0 && 20 <= t < 40
    requires a == Sum(Rotl5(s.g.a), Parity(s.g.b, s.g.c, s.g.d), s.g.e, s.v.w0, 0x6ED9EBA1)
    requires w == Expanded(s.v.w13, s.v.w8, s.v.w2, s.v.w0)
    ensures Steps(s, t, n) == Steps(r, t + 1, n - 1) && r == After(s, a, w)
  {
    hide Sum, Rotl5, Rotl30, Choose, Parity, Majority, Expanded;
    r := Step(s, t);
  }

  lemma Go40(s: State, t: nat, n: nat, a: Word, w: Word) returns (r: State)
    requires n > 0 && 40 <= t < 60
    requires a == Sum(Rotl5(s.g.a), Majority(s.g.b, s.g.c, s.g.d), s.g.e, s.v.w0, 0x8F1BBCDC)
    requires w == Expanded(s.v.w13, s.v.w8, s.v.w2, s.v.w0)
    ensures Steps(s, t, n) == Steps(r, t + 1, n - 1) && r == After(s, a, w)
  {
    hide Sum, Rotl5, Rotl30, Choose, Parity, Majority, Expanded;
    r := Step(s, t);
  }

  lemma Go60(s: State, t: nat, n: nat, a: Word, w: Word) returns (r: State)
    requires n > 0 && 60 <= t < 80
    requires a == Sum(Rotl5(s.g.a), Parity(s.g.b, s.g.c, s.g.d), s.g.e, s.v.w0, 0xCA62C1D6)
    requires w == Expanded(s.v.w13, s.v.w8, s.v.w2, s.v.w0)
    ensures Steps(s, t, n) == Steps(r, t + 1, n - 1) && r == After(s, a, w)
  {
    hide Sum, Rotl5, Rotl30, Choose, Parity, Majority, Expanded;
    r := Step(s, t);
  }

  lemma NoSteps(s: State, t: nat)
    ensures Steps(s, t, 0) == s
  {
  }

  lemma NextStep(s: State, t: nat, n: nat)
    requires n > 0
    ensures Steps(s, t, n) == Steps(Step(s, t), t + 1, n - 1)
  {
    hide Step;
  }

  /** The first sixteen words are those of the block. */
  function FirstWindow(b: Block): Window {
    Window(
      BigEndianWord(b[0], b[1], b[2], b[3]), BigEndianWord(b[4], b[5], b[6], b[7]),
      BigEndianWord(b[8], b[9], b[10], b[11]), BigEndianWord(b[12], b[13], b[14], b[15]),
      BigEndianWord(b[16], b[17], b[18], b[19]), BigEndianWord(b[20], b[21], b[22], b[23]),
      BigEndianWord(b[24], b[25], b[26], b[27]), BigEndianWord(b[28], b[29], b[30], b[31]),
      BigEndianWord(b[32], b[33], b[34], b[35]), BigEndianWord(b[36], b[37], b[38], b[39]),
      BigEndianWord(b[40], b[41], b[42], b[43]), BigEndianWord(b[44], b[45], b[46], b[47]),
      BigEndianWord(b[48], b[49], b[50], b[51]), BigEndianWord(b[52], b[53], b[54], b[55]),
      BigEndianWord(b[56], b[57], b[58], b[59]), BigEndianWord(b[60], b[61], b[62], b[63]))
  }

  lemma FirstShows(b: Block)
    ensures Shows(FirstWindow(b), b, 0)
  {
    hide BigEndianWord, Expanded;
  }

  lemma CompressBySteps(g: Digest, b: Block)
    ensures Compress(g, b) == Add(g, Steps(State(g, FirstWindow(b)), 0, 80).g)
  {
    hide Schedule, Rounds, Steps, FirstWindow, Add, Shows;
    FirstShows(b);
    assert Rounds(g, b, 0) == g by { NoRounds(g, b); }
    StepsAreRounds(g, b, State(g, FirstWindow(b)), 0, 80);
  }

  lemma NoRounds(g: Digest, b: Block)
    ensures Rounds(g, b, 0) == g
  {
  }

  // ---- "abc" ----

  const Abc0 := State(
    Digest(0x67452301, 0xEFCDAB89, 0x98BADCFE, 0x10325476, 0xC3D2E1F0),
    Window(0x61626380, 0x00000000, 0x00000000, 0x00000000, 0x00000000, 0x00000000, 0x00000000, 0x00000000,
           0x00000000, 0x00000000, 0x00000000, 0x00000000, 0x00000000, 0x00000000, 0x00000000, 0x00000018))

  const Abc10 := State(
    Digest(0x8351F929, 0x4B6AE328, 0x27A301F5, 0x664F8C30, 0x0FF1F290),
    Window(0x00000000, 0x00000000, 0x00000000, 0x00000000, 0x00000000, 0x00000018, 0xC2C4C700, 0x00000000,
           0x00000030, 0x85898E01, 0x00000000, 0x00000060, 0x0B131C03, 0x00000030, 0x85898EC1, 0x16263806))

  const Abc20 := State(
    Digest(0xFD9E1D7D, 0xDC64901D, 0x20AA99CA, 0xD3A49608, 0xC82F758B),
    Window(0x00000000, 0x00000060, 0x0B131C03, 0x00000030, 0x85898EC1, 0x16263806, 0x00000000, 0x00000180,
           0x2C4C700C, 0x000000F0, 0x93AFB507, 0x5898E048, 0x8E9A9202, 0x00000600, 0xB131C0F0, 0x16263BC6))

  const Abc30 := State(
    Digest(0xC5FBAF5D, 0x8370B52E, 0xD2AA1365, 0x6F8D7EF5, 0x12104EE9),
    Window(0x93AFB507, 0x5898E048, 0x8E9A9202, 0x00000600, 0xB131C0F0, 0x16263BC6, 0x4EBED41E, 0x626380A1,
           0x16263806, 0x000018C0, 0xD2E138C4, 0x00000F00, 0x3AFB5079, 0x898E04E5, 0xE2BA3C2B, 0x000060C0))

  const Abc40 := State(
    Digest(0x32DE1CBA, 0x4C986405, 0xF718E5CF, 0x03D447F6, 0xF72EEC32),
    Window(0xD2E138C4, 0x00000F00, 0x3AFB5079, 0x898E04E5, 0xE2BA3C2B, 0x000060C0, 0x053A37CD, 0x74458547,
           0xDA9415ED, 0x26380A16, 0x626383A1, 0x4EBF54DE, 0x3835B44B, 0x0000F600, 0x1E84C7A3, 0x98E04D98))

  const Abc50 := State(
    Digest(0x120731C5, 0xBAF39337, 0xAFAB40B2, 0x2806E11B, 0x8714787C),
    Window(0x626383A1, 0x4EBF54DE, 0x3835B44B, 0x0000F600, 0x1E84C7A3, 0x98E04D98, 0x651D16A0, 0x62658CA1,
           0x458544D6, 0x44584CB7, 0x7BA06619, 0x6380AEA2, 0x0AE55269, 0x627B49A1, 0x7CD45C9D, 0x000F0000))

  const Abc60 := State(
    Digest(0x3F52DE5A, 0x09D785FD, 0x3498BFD4, 0xF211824F, 0xD79915AB),
    Window(0x7BA06619, 0x6380AEA2, 0x0AE55269, 0x627B49A1, 0x7CD45C9D, 0x000F0000, 0xFB50753A, 0xEC6765E8,
           0xBA3C2BE2, 0x0060C000, 0x3A37CD05, 0x458546F4, 0xB8599DD6, 0x380A1A26, 0x01E02203, 0xE7CC3456))

  const Abc70 := State(
    Digest(0x3F2588C2, 0x497093C0, 0xDE37534A, 0x030F7CAD, 0x4405957E),
    Window(0x3A37CD05, 0x458546F4, 0xB8599DD6, 0x380A1A26, 0x01E02203, 0xE7CC3456, 0xE6E60B69, 0x00F60A00,
           0x5795EF4F, 0x822E0879, 0x7E577CE2, 0x07EF2103, 0x8544E945, 0xEB39DAB8, 0xC205991A, 0x80AECB63))

  const Abc80 := State(
    Digest(0x42541B35, 0x5738D5E1, 0x21834873, 0x681E6DF6, 0xD8FDF6AD),
    Window(0x7E577CE2, 0x07EF2103, 0x8544E945, 0xEB39DAB8, 0xC205991A, 0x80AECB63, 0x7D84CA48, 0x7B499B62,
           0x8E8010A8, 0x4B5B8A77, 0x3216B69A, 0x0507E88D, 0x705BEE96, 0x60C0FF00, 0xA28362D0, 0x1DA6B91D))

  lemma AbcFrom0()
    ensures Steps(Abc0, 0, 10) == Abc10
  {
    hide Step, Steps;
    var s := Abc0;
    s := Go0(s, 0, 10, 0x0116FC33, 0xC2C4C700);
    s := Go0(s, 1, 9, 0x8990536D, 0x00000000);
    s := Go0(s, 2, 8, 0xA1390F08, 0x00000030);
    s := Go0(s, 3, 7, 0xCDD8E11B, 0x85898E01);
    s := Go0(s, 4, 6, 0xCFD499DE, 0x00000000);
    s := Go0(s, 5, 5, 0x3FC7CA40, 0x00000060);
    s := Go0(s, 6, 4, 0x993E30C1, 0x0B131C03);
    s := Go0(s, 7, 3, 0x9E8C07D4, 0x00000030);
    s := Go0(s, 8, 2, 0x4B6AE328, 0x85898EC1);
    s := Go0(s, 9, 1, 0x8351F929, 0x16263806);
    NoSteps(s, 10);
  }

  lemma AbcFrom10()
    ensures Steps(Abc10, 10, 10) == Abc20
  {
    hide Step, Steps;
    var s := Abc10;
    s := Go0(s, 10, 10, 0xFBDA9E89, 0x00000000);
    s := Go0(s, 11, 9, 0x63188FE4, 0x00000180);
    s := Go0(s, 12, 8, 0x4607B664, 0x2C4C700C);
    s := Go0(s, 13, 7, 0x9128F695, 0x000000F0);
    s := Go0(s, 14, 6, 0x196BEE77, 0x93AFB507);
    s := Go0(s, 15, 5, 0x20BDD62F, 0x5898E048);
    s := Go0(s, 16, 4, 0x4E925823, 0x8E9A9202);
    s := Go0(s, 17, 3, 0x82AA6728, 0x00000600);
    s := Go0(s, 18, 2, 0xDC64901D, 0xB131C0F0);
    s := Go0(s, 19, 1, 0xFD9E1D7D, 0x16263BC6);
    NoSteps(s, 20);
  }

  lemma AbcFrom20()
    ensures Steps(Abc20, 20, 10) == Abc30
  {
    hide Step, Steps;
    var s := Abc20;
    s := Go20(s, 20, 10, 0x1A37B0CA, 0x4EBED41E);
    s := Go20(s, 21, 9, 0x33A23BFC, 0x626380A1);
    s := Go20(s, 22, 8, 0x21283486, 0x16263806);
    s := Go20(s, 23, 7, 0xD541F12D, 0x000018C0);
    s := Go20(s, 24, 6, 0xC7567DC6, 0xD2E138C4);
    s := Go20(s, 25, 5, 0x48413BA4, 0x00000F00);
    s := Go20(s, 26, 4, 0xBE35FBD5, 0x3AFB5079);
    s := Go20(s, 27, 3, 0x4AA84D97, 0x898E04E5);
    s := Go20(s, 28, 2, 0x8370B52E, 0xE2BA3C2B);
    s := Go20(s, 29, 1, 0xC5FBAF5D, 0x000060C0);
    NoSteps(s, 30);
  }

  lemma AbcFrom30()
    ensures Steps(Abc30, 30, 10) == Abc40
  {
    hide Step, Steps;
    var s := Abc30;
    s := Go20(s, 30, 10, 0x1267B407, 0x053A37CD);
    s := Go20(s, 31, 9, 0x3B845D33, 0x74458547);
    s := Go20(s, 32, 8, 0x046FAA0A, 0xDA9415ED);
    s := Go20(s, 33, 7, 0x2C0EBC11, 0x26380A16);
    s := Go20(s, 34, 6, 0x21796AD4, 0x626383A1);
    s := Go20(s, 35, 5, 0xDCBBB0CB, 0x4EBF54DE);
    s := Go20(s, 36, 4, 0x0F511FD8, 0x3835B44B);
    s := Go20(s, 37, 3, 0xDC63973F, 0x0000F600);
    s := Go20(s, 38, 2, 0x4C986405, 0x1E84C7A3);
    s := Go20(s, 39, 1, 0x32DE1CBA, 0x98E04D98);
    NoSteps(s, 40);
  }

  lemma AbcFrom40()
    ensures Steps(Abc40, 40, 10) == Abc50
  {
    hide Step, Steps;
    var s := Abc40;
    s := Go40(s, 40, 10, 0xFC87DEDF, 0x651D16A0);
    s := Go40(s, 41, 9, 0x970A0D5C, 0x62658CA1);
    s := Go40(s, 42, 8, 0x7F193DC5, 0x458544D6);
    s := Go40(s, 43, 7, 0xEE1B1AAF, 0x44584CB7);
    s := Go40(s, 44, 6, 0x40F28E09, 0x7BA06619);
    s := Go40(s, 45, 5, 0x1C51E1F2, 0x6380AEA2);
    s := Go40(s, 46, 4, 0xA01B846C, 0x0AE55269);
    s := Go40(s, 47, 3, 0xBEAD02CA, 0x627B49A1);
    s := Go40(s, 48, 2, 0xBAF39337, 0x7CD45C9D);
    s := Go40(s, 49, 1, 0x120731C5, 0x000F0000);
    NoSteps(s, 50);
  }

  lemma AbcFrom50()
    ensures Steps(Abc50, 50, 10) == Abc60
  {
    hide Step, Steps;
    var s := Abc50;
    s := Go40(s, 50, 10, 0x641DB2CE, 0xFB50753A);
    s := Go40(s, 51, 9, 0x3847AD66, 0xEC6765E8);
    s := Go40(s, 52, 8, 0xE490436D, 0xBA3C2BE2);
    s := Go40(s, 53, 7, 0x27E9F1D8, 0x0060C000);
    s := Go40(s, 54, 6, 0x7B71F76D, 0x3A37CD05);
    s := Go40(s, 55, 5, 0x5E6456AF, 0x458546F4);
    s := Go40(s, 56, 4, 0xC846093F, 0xB8599DD6);
    s := Go40(s, 57, 3, 0xD262FF50, 0x380A1A26);
    s := Go40(s, 58, 2, 0x09D785FD, 0x01E02203);
    s := Go40(s, 59, 1, 0x3F52DE5A, 0xE7CC3456);
    NoSteps(s, 60);
  }

  lemma AbcFrom60()
    ensures Steps(Abc60, 60, 10) == Abc70
  {
    hide Step, Steps;
    var s := Abc60;
    s := Go60(s, 60, 10, 0xD756C147, 0xE6E60B69);
    s := Go60(s, 61, 9, 0x548C9CB2, 0x00F60A00);
    s := Go60(s, 62, 8, 0xB66C020B, 0x5795EF4F);
    s := Go60(s, 63, 7, 0x6B61C9E1, 0x822E0879);
    s := Go60(s, 64, 6, 0x19DFA7AC, 0x7E577CE2);
    s := Go60(s, 65, 5, 0x101655F9, 0x07EF2103);
    s := Go60(s, 66, 4, 0x0C3DF2B4, 0x8544E945);
    s := Go60(s, 67, 3, 0x78DD4D2B, 0xEB39DAB8);
    s := Go60(s, 68, 2, 0x497093C0, 0xC205991A);
    s := Go60(s, 69, 1, 0x3F2588C2, 0x80AECB63);
    NoSteps(s, 70);
  }

  lemma AbcFrom70()
    ensures Steps(Abc70, 70, 10) == Abc80
  {
    hide Step, Steps;
    var s := Abc70;
    s := Go60(s, 70, 10, 0xC199F8C7, 0x7D84CA48);
    s := Go60(s, 71, 9, 0x39859DE7, 0x7B499B62);
    s := Go60(s, 72, 8, 0xEDB42DE4, 0x8E8010A8);
    s := Go60(s, 73, 7, 0x11793F6F, 0x4B5B8A77);
    s := Go60(s, 74, 6, 0x5EE76897, 0x3216B69A);
    s := Go60(s, 75, 5, 0x63F7DAB7, 0x0507E88D);
    s := Go60(s, 76, 4, 0xA079B7D9, 0x705BEE96);
    s := Go60(s, 77, 3, 0x860D21CC, 0x60C0FF00);
    s := Go60(s, 78, 2, 0x5738D5E1, 0xA28362D0);
    s := Go60(s, 79, 1, 0x42541B35, 0x1DA6B91D);
    NoSteps(s, 80);
  }

  lemma Abc()
    ensures Steps(Abc0, 0, 80) == Abc80
  {
    hide Steps;
    AbcFrom0();
    AbcFrom10();
    StepsSplit(Abc0, 0, 10, 10);
    AbcFrom20();
    StepsSplit(Abc0, 0, 20, 10);
    AbcFrom30();
    StepsSplit(Abc0, 0, 30, 10);
    AbcFrom40();
    StepsSplit(Abc0, 0, 40, 10);
    AbcFrom50();
    StepsSplit(Abc0, 0, 50, 10);
    AbcFrom60();
    StepsSplit(Abc0, 0, 60, 10);
    AbcFrom70();
    StepsSplit(Abc0, 0, 70, 10);
  }

  // ---- the digests ----

  const ABC: seq<byte> := [0x61, 0x62, 0x63]

  lemma LengthOctets(n: nat)
    requires n < 65536
    ensures BigEndian(n, 8) == [0, 0, 0, 0, 0, 0, (n / 256) as byte, (n % 256) as byte]
  {
    var k := n / 256;
    assert k / 256 == 0;
    assert BigEndian(0, 6) == [0, 0, 0, 0, 0, 0] by {
      assert BigEndian(0, 1) == [0] && BigEndian(0, 2) == [0, 0] && BigEndian(0, 3) == [0, 0, 0];
      assert BigEndian(0, 4) == [0, 0, 0, 0] && BigEndian(0, 5) == [0, 0, 0, 0, 0];
    }
    assert BigEndian(k, 7) == BigEndian(0, 6) + [(k % 256) as byte];
    assert BigEndian(n, 8) == BigEndian(k, 7) + [(n % 256) as byte];
  }

  lemma OneBlock(g: Digest, b: Block)
    ensures Hash(g, b) == Compress(g, b)
  {
    hide Compress;
    HashBlock(g, [], b);
    assert [] + b == b;
  }

  lemma AbcOctets()
    ensures var p := Pad(ABC);
            && |p| == 64 && p[0] == 0x61 && p[1] == 0x62 && p[2] == 0x63 && p[3] == 0x80
            && (forall i :: 4 <= i < 63 ==> p[i] == 0) && p[63] == 24
  {
    hide BigEndian;
    LengthOctets(24);
    assert Pad(ABC) == ABC + [0x80] + Zeros(52) + [0, 0, 0, 0, 0, 0, 0, 24];
  }

  lemma AbcWords()
    ensures |Pad(ABC)| == 64 && FirstWindow(Pad(ABC)) == Abc0.v
  {
    hide Pad;
    AbcOctets();
  }

  /** The digest of "abc", as the standard gives it in appendix A. */
  lemma Sha1OfAbc()
    ensures Sha1([0x61, 0x62, 0x63]) == Digest(0xA9993E36, 0x4706816A, 0xBA3E2571, 0x7850C26C, 0x9CD0D89D)
  {
    hide Pad, Compress, Hash, Steps, FirstWindow;
    AbcWords();
    OneBlock(H0, Pad(ABC));
    CompressBySteps(H0, Pad(ABC));
    Abc();
  }
}
