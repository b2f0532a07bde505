/** The digests of the test suite of RFC 1321 (section A.5) for the empty message and
    for "abc", operation by operation. */
module Md5Vectors {
  import opened Md5

  /** The four operations that bring the registers back to their places. */
  lemma FourOps(i: nat, w: Words, x: Block, a: bv32, b: bv32, c: bv32, d: bv32)
    requires i + 4 <= 64 && i % 4 == 0
    requires a == Op(i / 16, w.a, w.b, w.c, w.d, x[Which(i)], Shift(i), Sine(i))
    requires d == Op(i / 16, w.d, a, w.b, w.c, x[Which(i + 1)], Shift(i + 1), Sine(i + 1))
    requires c == Op(i / 16, w.c, d, a, w.b, x[Which(i + 2)], Shift(i + 2), Sine(i + 2))
    requires b == Op(i / 16, w.b, c, d, a, x[Which(i + 3)], Shift(i + 3), Sine(i + 3))
    ensures Four(i, w, x) == Words(a, b, c, d)
  {
    hide Op, Which, Shift, Sine;
    assert (i + 1) / 16 == i / 16 && (i + 2) / 16 == i / 16 && (i + 3) / 16 == i / 16;
  }

  // ----- the empty message -----

  function EmptyBlock(): Block {
    [0x80, 0, 0, 0, 0, 0, 0, 0, 0, 0, 0, 0, 0, 0, 0, 0]
  }

  lemma EmptyWords()
    ensures var x := EmptyBlock();
            && x[0] == 0x80 && x[1] == 0 && x[2] == 0 && x[3] == 0
            && x[4] == 0 && x[5] == 0 && x[6] == 0 && x[7] == 0
            && x[8] == 0 && x[9] == 0 && x[10] == 0 && x[11] == 0
            && x[12] == 0 && x[13] == 0 && x[14] == 0 && x[15] == 0
  {
  }

  lemma EmptyOps1()
    ensures Op(0, 0x67452301, 0xefcdab89, 0x98badcfe, 0x10325476, 0x80, 7, 3614090360) == 0xa5202774
    ensures Op(0, 0x10325476, 0xa5202774, 0xefcdab89, 0x98badcfe, 0, 12, 3905402710) == 0xf59592dd
    ensures Op(0, 0x98badcfe, 0xf59592dd, 0xa5202774, 0xefcdab89, 0, 17, 606105819) == 0xe7f06b23
    ensures Op(0, 0xefcdab89, 0xe7f06b23, 0xf59592dd, 0xa5202774, 0, 22, 3250441966) == 0x1b163203
    ensures Op(0, 0xa5202774, 0x1b163203, 0xe7f06b23, 0xf59592dd, 0, 7, 4118548399) == 0x32033344
    ensures Op(0, 0xf59592dd, 0x32033344, 0x1b163203, 0xe7f06b23, 0, 12, 1200080426) == 0x2f35d494
    ensures Op(0, 0xe7f06b23, 0x2f35d494, 0x32033344, 0x1b163203, 0, 17, 2821735955) == 0xf5b158db
    ensures Op(0, 0x1b163203, 0xf5b158db, 0x2f35d494, 0x32033344, 0, 22, 4249261313) == 0x9bc13ce9
    ensures Op(0, 0x32033344, 0x9bc13ce9, 0xf5b158db, 0x2f35d494, 0, 7, 1770035416) == 0x3893b991
    ensures Op(0, 0x2f35d494, 0x3893b991, 0x9bc13ce9, 0xf5b158db, 0, 12, 2336552879) == 0xfce4a312
    ensures Op(0, 0xf5b158db, 0xfce4a312, 0x3893b991, 0x9bc13ce9, 0, 17, 4294925233) == 0xe1ef0576
    ensures Op(0, 0x9bc13ce9, 0xe1ef0576, 0xfce4a312, 0x3893b991, 0, 22, 2304563134) == 0x70768a29
    ensures Op(0, 0x3893b991, 0x70768a29, 0xe1ef0576, 0xfce4a312, 0, 7, 1804603682) == 0xf56c7cf1
    ensures Op(0, 0xfce4a312, 0xf56c7cf1, 0x70768a29, 0xe1ef0576, 0, 12, 4254626195) == 0x374943a7
    ensures Op(0, 0xe1ef0576, 0x374943a7, 0xf56c7cf1, 0x70768a29, 0, 17, 2792965006) == 0x5aa53f75
    ensures Op(0, 0x70768a29, 0x5aa53f75, 0x374943a7, 0xf56c7cf1, 0, 22, 1236535329) == 0xd6819c6a
  {
    hide Which, Shift, Sine;
  }

  lemma EmptyRound1()
    ensures Steps(0, 16, Words(0x67452301, 0xefcdab89, 0x98badcfe, 0x10325476), EmptyBlock()) ==
              Words(0xf56c7cf1, 0xd6819c6a, 0x5aa53f75, 0x374943a7)
  {
    hide Op, Four, Steps, Which, Shift, Sine, EmptyBlock;
    Table1();
    Table1More();
    EmptyWords();
    EmptyOps1();
    var x := EmptyBlock();
    FourOps(0, Words(0x67452301, 0xefcdab89, 0x98badcfe, 0x10325476), x,
            0xa5202774, 0x1b163203, 0xe7f06b23, 0xf59592dd);
    FourOps(4, Words(0xa5202774, 0x1b163203, 0xe7f06b23, 0xf59592dd), x,
            0x32033344, 0x9bc13ce9, 0xf5b158db, 0x2f35d494);
    FourOps(8, Words(0x32033344, 0x9bc13ce9, 0xf5b158db, 0x2f35d494), x,
            0x3893b991, 0x70768a29, 0xe1ef0576, 0xfce4a312);
    FourOps(12, Words(0x3893b991, 0x70768a29, 0xe1ef0576, 0xfce4a312), x,
            0xf56c7cf1, 0xd6819c6a, 0x5aa53f75, 0x374943a7);
    SixteenSteps(0, Words(0x67452301, 0xefcdab89, 0x98badcfe, 0x10325476),
                 Words(0xa5202774, 0x1b163203, 0xe7f06b23, 0xf59592dd),
                 Words(0x32033344, 0x9bc13ce9, 0xf5b158db, 0x2f35d494),
                 Words(0x3893b991, 0x70768a29, 0xe1ef0576, 0xfce4a312),
                 Words(0xf56c7cf1, 0xd6819c6a, 0x5aa53f75, 0x374943a7), x);
  }

  lemma EmptyOps2()
    ensures Op(1, 0xf56c7cf1, 0xd6819c6a, 0x5aa53f75, 0x374943a7, 0, 5, 4129170786) == 0x1c7d7513
    ensures Op(1, 0x374943a7, 0x1c7d7513, 0xd6819c6a, 0x5aa53f75, 0, 9, 3225465664) == 0x7bd57a3a
    ensures Op(1, 0x5aa53f75, 0x7bd57a3a, 0x1c7d7513, 0xd6819c6a, 0, 14, 643717713) == 0xc095f13a
    ensures Op(1, 0xd6819c6a, 0xc095f13a, 0x7bd57a3a, 0x1c7d7513, 0x80, 20, 3921069994) == 0xbd782e17
    ensures Op(1, 0x1c7d7513, 0xbd782e17, 0xc095f13a, 0x7bd57a3a, 0, 5, 3593408605) == 0x3d1e3e6c
    ensures Op(1, 0x7bd57a3a, 0x3d1e3e6c, 0xbd782e17, 0xc095f13a, 0, 9, 38016083) == 0x68b7b3e3
    ensures Op(1, 0xc095f13a, 0x68b7b3e3, 0x3d1e3e6c, 0xbd782e17, 0, 14, 3634488961) == 0xeb41643e
    ensures Op(1, 0xbd782e17, 0xeb41643e, 0x68b7b3e3, 0x3d1e3e6c, 0, 20, 3889429448) == 0xe422531a
    ensures Op(1, 0x3d1e3e6c, 0xe422531a, 0xeb41643e, 0x68b7b3e3, 0, 5, 568446438) == 0x306ec122
    ensures Op(1, 0x68b7b3e3, 0x306ec122, 0xe422531a, 0xeb41643e, 0, 9, 3275163606) == 0xd28c77c2
    ensures Op(1, 0xeb41643e, 0xd28c77c2, 0x306ec122, 0xe422531a, 0, 14, 4107603335) == 0xa3c663da
    ensures Op(1, 0xe422531a, 0xa3c663da, 0xd28c77c2, 0x306ec122, 0, 20, 1163531501) == 0xa0572807
    ensures Op(1, 0x306ec122, 0xa0572807, 0xa3c663da, 0xd28c77c2, 0, 5, 2850285829) == 0x13707036
    ensures Op(1, 0xd28c77c2, 0x13707036, 0xa0572807, 0xa3c663da, 0, 9, 4243563512) == 0xae7813db
    ensures Op(1, 0xa3c663da, 0xae7813db, 0x13707036, 0xa0572807, 0, 14, 1735328473) == 0x1c31c384
    ensures Op(1, 0xa0572807, 0x1c31c384, 0xae7813db, 0x13707036, 0, 20, 2368359562) == 0xa2205f1f
  {
    hide Which, Shift, Sine;
  }

  lemma EmptyRound2()
    ensures Steps(16, 32, Words(0xf56c7cf1, 0xd6819c6a, 0x5aa53f75, 0x374943a7), EmptyBlock()) ==
              Words(0x13707036, 0xa2205f1f, 0x1c31c384, 0xae7813db)
  {
    hide Op, Four, Steps, Which, Shift, Sine, EmptyBlock;
    Table2();
    Table2More();
    EmptyWords();
    EmptyOps2();
    var x := EmptyBlock();
    FourOps(16, Words(0xf56c7cf1, 0xd6819c6a, 0x5aa53f75, 0x374943a7), x,
            0x1c7d7513, 0xbd782e17, 0xc095f13a, 0x7bd57a3a);
    FourOps(20, Words(0x1c7d7513, 0xbd782e17, 0xc095f13a, 0x7bd57a3a), x,
            0x3d1e3e6c, 0xe422531a, 0xeb41643e, 0x68b7b3e3);
    FourOps(24, Words(0x3d1e3e6c, 0xe422531a, 0xeb41643e, 0x68b7b3e3), x,
            0x306ec122, 0xa0572807, 0xa3c663da, 0xd28c77c2);
    FourOps(28, Words(0x306ec122, 0xa0572807, 0xa3c663da, 0xd28c77c2), x,
            0x13707036, 0xa2205f1f, 0x1c31c384, 0xae7813db);
    SixteenSteps(16, Words(0xf56c7cf1, 0xd6819c6a, 0x5aa53f75, 0x374943a7),
                 Words(0x1c7d7513, 0xbd782e17, 0xc095f13a, 0x7bd57a3a),
                 Words(0x3d1e3e6c, 0xe422531a, 0xeb41643e, 0x68b7b3e3),
                 Words(0x306ec122, 0xa0572807, 0xa3c663da, 0xd28c77c2),
                 Words(0x13707036, 0xa2205f1f, 0x1c31c384, 0xae7813db), x);
  }

  lemma EmptyOps3a()
    ensures Op(2, 0x13707036, 0xa2205f1f, 0x1c31c384, 0xae7813db, 0, 4, 4294588738) == 0xdf63eaa1
    ensures Op(2, 0xae7813db, 0xdf63eaa1, 0xa2205f1f, 0x1c31c384, 0, 11, 2272392833) == 0xc3689f5b
    ensures Op(2, 0x1c31c384, 0xc3689f5b, 0xdf63eaa1, 0xa2205f1f, 0, 16, 1839030562) == 0x12f3e755
    ensures Op(2, 0xa2205f1f, 0x12f3e755, 0xc3689f5b, 0xdf63eaa1, 0, 23, 4259657740) == 0x004b6669
  {
    assert Mix(2, 0xa2205f1f, 0x1c31c384, 0xae7813db) == 0x10698f40;
    assert Mix(2, 0xdf63eaa1, 0xa2205f1f, 0x1c31c384) == 0x6172763a;
    assert Mix(2, 0xc3689f5b, 0xdf63eaa1, 0xa2205f1f) == 0xbe2b2ae5;
    assert Mix(2, 0x12f3e755, 0xc3689f5b, 0xdf63eaa1) == 0x0ef892af;
  }

  lemma EmptyOps3b()
    ensures Op(2, 0xdf63eaa1, 0x004b6669, 0x12f3e755, 0xc3689f5b, 0, 4, 2763975236) == 0x5f7a9b2e
    ensures Op(2, 0xc3689f5b, 0x5f7a9b2e, 0x004b6669, 0x12f3e755, 0, 11, 1272893353) == 0xabc34e16
    ensures Op(2, 0x12f3e755, 0xabc34e16, 0x5f7a9b2e, 0x004b6669, 0, 16, 4139469664) == 0x91ca4cb7
    ensures Op(2, 0x004b6669, 0x91ca4cb7, 0xabc34e16, 0x5f7a9b2e, 0, 23, 3200236656) == 0xc5dc8c15
  {
    assert Mix(2, 0x004b6669, 0x12f3e755, 0xc3689f5b) == 0xd1d01e67;
    assert Mix(2, 0x5f7a9b2e, 0x004b6669, 0x12f3e755) == 0x4dc21a12;
    assert Mix(2, 0xabc34e16, 0x5f7a9b2e, 0x004b6669) == 0xf4f2b351;
    assert Mix(2, 0x91ca4cb7, 0xabc34e16, 0x5f7a9b2e) == 0x6573998f;
  }

  lemma EmptyOps3c()
    ensures Op(2, 0x5f7a9b2e, 0xc5dc8c15, 0x91ca4cb7, 0xabc34e16, 0, 4, 681279174) == 0x4497169d
    ensures Op(2, 0xabc34e16, 0x4497169d, 0xc5dc8c15, 0x91ca4cb7, 0x80, 11, 3936430074) == 0x76fd93d4
    ensures Op(2, 0x91ca4cb7, 0x76fd93d4, 0x4497169d, 0xc5dc8c15, 0, 16, 3572445317) == 0xfd95f243
    ensures Op(2, 0xc5dc8c15, 0xfd95f243, 0x76fd93d4, 0x4497169d, 0, 23, 76029189) == 0x0fe32453
  {
    assert Mix(2, 0xc5dc8c15, 0x91ca4cb7, 0xabc34e16) == 0xffd58eb4;
    assert Mix(2, 0x4497169d, 0xc5dc8c15, 0x91ca4cb7) == 0x1081d63f;
    assert Mix(2, 0x76fd93d4, 0x4497169d, 0xc5dc8c15) == 0xf7b6095c;
    assert Mix(2, 0xfd95f243, 0x76fd93d4, 0x4497169d) == 0xcfff770a;
  }

  lemma EmptyOps3d()
    ensures Op(2, 0x4497169d, 0x0fe32453, 0xfd95f243, 0x76fd93d4, 0, 4, 3654602809) == 0x3f55edfd
    ensures Op(2, 0x76fd93d4, 0x3f55edfd, 0x0fe32453, 0xfd95f243, 0, 11, 3873151461) == 0x22a31f54
    ensures Op(2, 0xfd95f243, 0x22a31f54, 0x3f55edfd, 0x0fe32453, 0, 16, 530742520) == 0x68d84ea2
    ensures Op(2, 0x0fe32453, 0x68d84ea2, 0x22a31f54, 0x3f55edfd, 0, 23, 3299628645) == 0xca7d2dbd
  {
    assert Mix(2, 0x0fe32453, 0xfd95f243, 0x76fd93d4) == 0x848b45c4;
    assert Mix(2, 0x3f55edfd, 0x0fe32453, 0xfd95f243) == 0xcd233bed;
    assert Mix(2, 0x22a31f54, 0x3f55edfd, 0x0fe32453) == 0x1215d6fa;
    assert Mix(2, 0x68d84ea2, 0x22a31f54, 0x3f55edfd) == 0x752ebc0b;
  }

  lemma EmptyRound3()
    ensures Steps(32, 48, Words(0x13707036, 0xa2205f1f, 0x1c31c384, 0xae7813db), EmptyBlock()) ==
              Words(0x3f55edfd, 0xca7d2dbd, 0x68d84ea2, 0x22a31f54)
  {
    hide Op, Four, Steps, Which, Shift, Sine, EmptyBlock;
    Table3();
    Table3More();
    EmptyWords();
    EmptyOps3a(); EmptyOps3b(); EmptyOps3c(); EmptyOps3d();
    var x := EmptyBlock();
    FourOps(32, Words(0x13707036, 0xa2205f1f, 0x1c31c384, 0xae7813db), x,
            0xdf63eaa1, 0x004b6669, 0x12f3e755, 0xc3689f5b);
    FourOps(36, Words(0xdf63eaa1, 0x004b6669, 0x12f3e755, 0xc3689f5b), x,
            0x5f7a9b2e, 0xc5dc8c15, 0x91ca4cb7, 0xabc34e16);
    FourOps(40, Words(0x5f7a9b2e, 0xc5dc8c15, 0x91ca4cb7, 0xabc34e16), x,
            0x4497169d, 0x0fe32453, 0xfd95f243, 0x76fd93d4);
    FourOps(44, Words(0x4497169d, 0x0fe32453, 0xfd95f243, 0x76fd93d4), x,
            0x3f55edfd, 0xca7d2dbd, 0x68d84ea2, 0x22a31f54);
    SixteenSteps(32, Words(0x13707036, 0xa2205f1f, 0x1c31c384, 0xae7813db),
                 Words(0xdf63eaa1, 0x004b6669, 0x12f3e755, 0xc3689f5b),
                 Words(0x5f7a9b2e, 0xc5dc8c15, 0x91ca4cb7, 0xabc34e16),
                 Words(0x4497169d, 0x0fe32453, 0xfd95f243, 0x76fd93d4),
                 Words(0x3f55edfd, 0xca7d2dbd, 0x68d84ea2, 0x22a31f54), x);
  }

  lemma EmptyOps4()
    ensures Op(3, 0x3f55edfd, 0xca7d2dbd, 0x68d84ea2, 0x22a31f54, 0x80, 6, 4096336452) == 0x93aa2577
    ensures Op(3, 0x22a31f54, 0x93aa2577, 0xca7d2dbd, 0x68d84ea2, 0, 10, 1126891415) == 0x1688dc85
    ensures Op(3, 0x68d84ea2, 0x1688dc85, 0x93aa2577, 0xca7d2dbd, 0, 15, 2878612391) == 0xcd85b8cb
    ensures Op(3, 0xca7d2dbd, 0xcd85b8cb, 0x1688dc85, 0x93aa2577, 0, 21, 4237533241) == 0x561e0689
    ensures Op(3, 0x93aa2577, 0x561e0689, 0xcd85b8cb, 0x1688dc85, 0, 6, 1700485571) == 0x5625a114
    ensures Op(3, 0x1688dc85, 0x5625a114, 0x561e0689, 0xcd85b8cb, 0, 10, 2399980690) == 0x3450f42b
    ensures Op(3, 0xcd85b8cb, 0x3450f42b, 0x5625a114, 0x561e0689, 0, 15, 4293915773) == 0x392ad0d0
    ensures Op(3, 0x561e0689, 0x392ad0d0, 0x3450f42b, 0x5625a114, 0, 21, 2240044497) == 0x1e77fa61
    ensures Op(3, 0x5625a114, 0x1e77fa61, 0x392ad0d0, 0x3450f42b, 0, 6, 1873313359) == 0x474a9c8c
    ensures Op(3, 0x3450f42b, 0x474a9c8c, 0x1e77fa61, 0x392ad0d0, 0, 10, 4264355552) == 0xdfce00bc
    ensures Op(3, 0x392ad0d0, 0xdfce00bc, 0x474a9c8c, 0x1e77fa61, 0, 15, 2734768916) == 0x36594b14
    ensures Op(3, 0x1e77fa61, 0x36594b14, 0xdfce00bc, 0x474a9c8c, 0, 21, 1309151649) == 0x30130182
    ensures Op(3, 0x474a9c8c, 0x30130182, 0x36594b14, 0xdfce00bc, 0, 6, 4149444226) == 0x7246fad3
    ensures Op(3, 0xdfce00bc, 0x7246fad3, 0x30130182, 0x36594b14, 0, 10, 3174756917) == 0x6e10a476
    ensures Op(3, 0x36594b14, 0x6e10a476, 0x7246fad3, 0x30130182, 0, 15, 718787259) == 0xff4ea3eb
    ensures Op(3, 0x30130182, 0xff4ea3eb, 0x6e10a476, 0x7246fad3, 0, 21, 3951481745) == 0x14e45506
  {
    hide Which, Shift, Sine;
  }

  lemma EmptyRound4()
    ensures Steps(48, 64, Words(0x3f55edfd, 0xca7d2dbd, 0x68d84ea2, 0x22a31f54), EmptyBlock()) ==
              Words(0x7246fad3, 0x14e45506, 0xff4ea3eb, 0x6e10a476)
  {
    hide Op, Four, Steps, Which, Shift, Sine, EmptyBlock;
    Table4();
    Table4More();
    EmptyWords();
    EmptyOps4();
    var x := EmptyBlock();
    FourOps(48, Words(0x3f55edfd, 0xca7d2dbd, 0x68d84ea2, 0x22a31f54), x,
            0x93aa2577, 0x561e0689, 0xcd85b8cb, 0x1688dc85);
    FourOps(52, Words(0x93aa2577, 0x561e0689, 0xcd85b8cb, 0x1688dc85), x,
            0x5625a114, 0x1e77fa61, 0x392ad0d0, 0x3450f42b);
    FourOps(56, Words(0x5625a114, 0x1e77fa61, 0x392ad0d0, 0x3450f42b), x,
            0x474a9c8c, 0x30130182, 0x36594b14, 0xdfce00bc);
    FourOps(60, Words(0x474a9c8c, 0x30130182, 0x36594b14, 0xdfce00bc), x,
            0x7246fad3, 0x14e45506, 0xff4ea3eb, 0x6e10a476);
    SixteenSteps(48, Words(0x3f55edfd, 0xca7d2dbd, 0x68d84ea2, 0x22a31f54),
                 Words(0x93aa2577, 0x561e0689, 0xcd85b8cb, 0x1688dc85),
                 Words(0x5625a114, 0x1e77fa61, 0x392ad0d0, 0x3450f42b),
                 Words(0x474a9c8c, 0x30130182, 0x36594b14, 0xdfce00bc),
                 Words(0x7246fad3, 0x14e45506, 0xff4ea3eb, 0x6e10a476), x);
  }

  lemma EmptyCompressed()
    ensures Compress(START, EmptyBlock()) == Words(0xd98c1dd4, 0x04b2008f, 0x980980e9, 0x7e42f8ec)
  {
    hide Steps, EmptyBlock;
    EmptyRound1(); EmptyRound2(); EmptyRound3(); EmptyRound4();
    var w, x := Words(0x67452301, 0xefcdab89, 0x98badcfe, 0x10325476), EmptyBlock();
    StepsSplit(0, 16, 64, w, x);
    StepsSplit(16, 32, 64, Steps(0, 16, w, x), x);
    StepsSplit(32, 48, 64, Steps(16, 32, Steps(0, 16, w, x), x), x);
  }

  /** MD5 ("") = d41d8cd98f00b204e9800998ecf8427e */
  lemma DigestOfEmpty()
    ensures Digest([]) ==
              [0xd4, 0x1d, 0x8c, 0xd9, 0x8f, 0x00, 0xb2, 0x04, 0xe9, 0x80, 0x09, 0x98, 0xec, 0xf8, 0x42, 0x7e]
  {
    hide Compress, EmptyBlock, WordsOf, Padded;
    EmptyPadded();
    EmptyCompressed();
    var p := Padded([]);
    assert p[..64] == p && p[64..] == [];
    assert Absorb(START, p) == Words(0xd98c1dd4, 0x04b2008f, 0x980980e9, 0x7e42f8ec);
  }

  // ----- "abc" -----

  function AbcBlock(): Block {
    [0x80636261, 0, 0, 0, 0, 0, 0, 0, 0, 0, 0, 0, 0, 0, 0x18, 0]
  }

  lemma AbcWords()
    ensures var x := AbcBlock();
            && x[0] == 0x80636261 && x[1] == 0 && x[2] == 0 && x[3] == 0
            && x[4] == 0 && x[5] == 0 && x[6] == 0 && x[7] == 0
            && x[8] == 0 && x[9] == 0 && x[10] == 0 && x[11] == 0
            && x[12] == 0 && x[13] == 0 && x[14] == 0x18 && x[15] == 0
  {
  }

  lemma AbcOps1()
    ensures Op(0, 0x67452301, 0xefcdab89, 0x98badcfe, 0x10325476, 0x80636261, 7, 3614090360) == 0xd6d117b4
    ensures Op(0, 0x10325476, 0xd6d117b4, 0xefcdab89, 0x98badcfe, 0, 12, 3905402710) == 0x344a8432
    ensures Op(0, 0x98badcfe, 0x344a8432, 0xd6d117b4, 0xefcdab89, 0, 17, 606105819) == 0x2f6fbd72
    ensures Op(0, 0xefcdab89, 0x2f6fbd72, 0x344a8432, 0xd6d117b4, 0, 22, 3250441966) == 0x7ad956f2
    ensures Op(0, 0xd6d117b4, 0x7ad956f2, 0x2f6fbd72, 0x344a8432, 0, 7, 4118548399) == 0xc73741ef
    ensures Op(0, 0x344a8432, 0xc73741ef, 0x7ad956f2, 0x2f6fbd72, 0, 12, 1200080426) == 0x8bac3051
    ensures Op(0, 0x2f6fbd72, 0x8bac3051, 0xc73741ef, 0x7ad956f2, 0, 17, 2821735955) == 0x207dc67b
    ensures Op(0, 0x7ad956f2, 0x207dc67b, 0x8bac3051, 0xc73741ef, 0, 22, 4249261313) == 0x928d99f6
    ensures Op(0, 0xc73741ef, 0x928d99f6, 0x207dc67b, 0x8bac3051, 0, 7, 1770035416) == 0x854b3712
    ensures Op(0, 0x8bac3051, 0x854b3712, 0x928d99f6, 0x207dc67b, 0, 12, 2336552879) == 0x74e2f284
    ensures Op(0, 0x207dc67b, 0x74e2f284, 0x854b3712, 0x928d99f6, 0, 17, 4294925233) == 0x3020401c
    ensures Op(0, 0x928d99f6, 0x3020401c, 0x74e2f284, 0x854b3712, 0, 22, 2304563134) == 0x5ed49596
    ensures Op(0, 0x854b3712, 0x5ed49596, 0x3020401c, 0x74e2f284, 0, 7, 1804603682) == 0xdda9b9a6
    ensures Op(0, 0x74e2f284, 0xdda9b9a6, 0x5ed49596, 0x3020401c, 0, 12, 4254626195) == 0xa1051895
    ensures Op(0, 0x3020401c, 0xa1051895, 0xdda9b9a6, 0x5ed49596, 0x18, 17, 2792965006) == 0xe396856b
    ensures Op(0, 0x5ed49596, 0xe396856b, 0xa1051895, 0xdda9b9a6, 0, 22, 1236535329) == 0x72aff2e0
  {
    hide Which, Shift, Sine;
  }

  lemma AbcRound1()
    ensures Steps(0, 16, Words(0x67452301, 0xefcdab89, 0x98badcfe, 0x10325476), AbcBlock()) ==
              Words(0xdda9b9a6, 0x72aff2e0, 0xe396856b, 0xa1051895)
  {
    hide Op, Four, Steps, Which, Shift, Sine, AbcBlock;
    Table1();
    Table1More();
    AbcWords();
    AbcOps1();
    var x := AbcBlock();
    FourOps(0, Words(0x67452301, 0xefcdab89, 0x98badcfe, 0x10325476), x,
            0xd6d117b4, 0x7ad956f2, 0x2f6fbd72, 0x344a8432);
    FourOps(4, Words(0xd6d117b4, 0x7ad956f2, 0x2f6fbd72, 0x344a8432), x,
            0xc73741ef, 0x928d99f6, 0x207dc67b, 0x8bac3051);
    FourOps(8, Words(0xc73741ef, 0x928d99f6, 0x207dc67b, 0x8bac3051), x,
            0x854b3712, 0x5ed49596, 0x3020401c, 0x74e2f284);
    FourOps(12, Words(0x854b3712, 0x5ed49596, 0x3020401c, 0x74e2f284), x,
            0xdda9b9a6, 0x72aff2e0, 0xe396856b, 0xa1051895);
    SixteenSteps(0, Words(0x67452301, 0xefcdab89, 0x98badcfe, 0x10325476),
                 Words(0xd6d117b4, 0x7ad956f2, 0x2f6fbd72, 0x344a8432),
                 Words(0xc73741ef, 0x928d99f6, 0x207dc67b, 0x8bac3051),
                 Words(0x854b3712, 0x5ed49596, 0x3020401c, 0x74e2f284),
                 Words(0xdda9b9a6, 0x72aff2e0, 0xe396856b, 0xa1051895), x);
  }

  lemma AbcOps2()
    ensures Op(1, 0xdda9b9a6, 0x72aff2e0, 0xe396856b, 0xa1051895, 0, 5, 4129170786) == 0x3e9e9126
    ensures Op(1, 0xa1051895, 0x3e9e9126, 0x72aff2e0, 0xe396856b, 0, 9, 3225465664) == 0x4a1d804e
    ensures Op(1, 0xe396856b, 0x4a1d804e, 0x3e9e9126, 0x72aff2e0, 0, 14, 643717713) == 0xe25e1652
    ensures Op(1, 0x72aff2e0, 0xe25e1652, 0x4a1d804e, 0x3e9e9126, 0x80636261, 20, 3921069994) == 0xb5b204e4
    ensures Op(1, 0x3e9e9126, 0xb5b204e4, 0xe25e1652, 0x4a1d804e, 0, 5, 3593408605) == 0x59a8ffda
    ensures Op(1, 0x4a1d804e, 0x59a8ffda, 0xb5b204e4, 0xe25e1652, 0, 9, 38016083) == 0x6d002f1e
    ensures Op(1, 0xe25e1652, 0x6d002f1e, 0x59a8ffda, 0xb5b204e4, 0, 14, 3634488961) == 0xabfc7920
    ensures Op(1, 0xb5b204e4, 0xabfc7920, 0x6d002f1e, 0x59a8ffda, 0, 20, 3889429448) == 0x47092c07
    ensures Op(1, 0x59a8ffda, 0x47092c07, 0xabfc7920, 0x6d002f1e, 0, 5, 568446438) == 0xb7f268cf
    ensures Op(1, 0x6d002f1e, 0xb7f268cf, 0x47092c07, 0xabfc7920, 0x18, 9, 3275163606) == 0x09388eff
    ensures Op(1, 0xabfc7920, 0x09388eff, 0xb7f268cf, 0x47092c07, 0, 14, 4107603335) == 0xfe1623b1
    ensures Op(1, 0x47092c07, 0xfe1623b1, 0x09388eff, 0xb7f268cf, 0, 20, 1163531501) == 0x786acb8f
    ensures Op(1, 0xb7f268cf, 0x786acb8f, 0xfe1623b1, 0x09388eff, 0, 5, 2850285829) == 0x790a77fb
    ensures Op(1, 0x09388eff, 0x790a77fb, 0x786acb8f, 0xfe1623b1, 0, 9, 4243563512) == 0x9f47e4f8
    ensures Op(1, 0xfe1623b1, 0x9f47e4f8, 0x790a77fb, 0x786acb8f, 0, 14, 1735328473) == 0xa62884aa
    ensures Op(1, 0x786acb8f, 0xa62884aa, 0x9f47e4f8, 0x790a77fb, 0, 20, 2368359562) == 0x726342d3
  {
    hide Which, Shift, Sine;
  }

  lemma AbcRound2()
    ensures Steps(16, 32, Words(0xdda9b9a6, 0x72aff2e0, 0xe396856b, 0xa1051895), AbcBlock()) ==
              Words(0x790a77fb, 0x726342d3, 0xa62884aa, 0x9f47e4f8)
  {
    hide Op, Four, Steps, Which, Shift, Sine, AbcBlock;
    Table2();
    Table2More();
    AbcWords();
    AbcOps2();
    var x := AbcBlock();
    FourOps(16, Words(0xdda9b9a6, 0x72aff2e0, 0xe396856b, 0xa1051895), x,
            0x3e9e9126, 0xb5b204e4, 0xe25e1652, 0x4a1d804e);
    FourOps(20, Words(0x3e9e9126, 0xb5b204e4, 0xe25e1652, 0x4a1d804e), x,
            0x59a8ffda, 0x47092c07, 0xabfc7920, 0x6d002f1e);
    FourOps(24, Words(0x59a8ffda, 0x47092c07, 0xabfc7920, 0x6d002f1e), x,
            0xb7f268cf, 0x786acb8f, 0xfe1623b1, 0x09388eff);
    FourOps(28, Words(0xb7f268cf, 0x786acb8f, 0xfe1623b1, 0x09388eff), x,
            0x790a77fb, 0x726342d3, 0xa62884aa, 0x9f47e4f8);
    SixteenSteps(16, Words(0xdda9b9a6, 0x72aff2e0, 0xe396856b, 0xa1051895),
                 Words(0x3e9e9126, 0xb5b204e4, 0xe25e1652, 0x4a1d804e),
                 Words(0x59a8ffda, 0x47092c07, 0xabfc7920, 0x6d002f1e),
                 Words(0xb7f268cf, 0x786acb8f, 0xfe1623b1, 0x09388eff),
                 Words(0x790a77fb, 0x726342d3, 0xa62884aa, 0x9f47e4f8), x);
  }

  lemma AbcOps3a()
    ensures Op(2, 0x790a77fb, 0x726342d3, 0xa62884aa, 0x9f47e4f8, 0, 4, 4294588738) == 0xb3707ebf
    ensures Op(2, 0x9f47e4f8, 0xb3707ebf, 0x726342d3, 0xa62884aa, 0, 11, 2272392833) == 0x60127b2e
    ensures Op(2, 0xa62884aa, 0x60127b2e, 0xb3707ebf, 0x726342d3, 0, 16, 1839030562) == 0x8d212ff5
    ensures Op(2, 0x726342d3, 0x8d212ff5, 0x60127b2e, 0xb3707ebf, 0x18, 23, 4259657740) == 0x3b0875c7
  {
    assert Mix(2, 0x726342d3, 0xa62884aa, 0x9f47e4f8) == 0x4b0c2281;
    assert Mix(2, 0xb3707ebf, 0x726342d3, 0xa62884aa) == 0x673bb8c6;
    assert Mix(2, 0x60127b2e, 0xb3707ebf, 0x726342d3) == 0xa1014742;
    assert Mix(2, 0x8d212ff5, 0x60127b2e, 0xb3707ebf) == 0x5e432a64;
  }

  lemma AbcOps3b()
    ensures Op(2, 0xb3707ebf, 0x3b0875c7, 0x8d212ff5, 0x60127b2e, 0, 4, 2763975236) == 0x21b117b9
    ensures Op(2, 0x60127b2e, 0x21b117b9, 0x3b0875c7, 0x8d212ff5, 0, 11, 1272893353) == 0x6e7429d5
    ensures Op(2, 0x8d212ff5, 0x6e7429d5, 0x21b117b9, 0x3b0875c7, 0, 16, 4139469664) == 0x3575227e
    ensures Op(2, 0x3b0875c7, 0x3575227e, 0x6e7429d5, 0x21b117b9, 0, 23, 3200236656) == 0x5a2f5ea5
  {
    assert Mix(2, 0x3b0875c7, 0x8d212ff5, 0x60127b2e) == 0xd63b211c;
    assert Mix(2, 0x21b117b9, 0x3b0875c7, 0x8d212ff5) == 0x97984d8b;
    assert Mix(2, 0x6e7429d5, 0x21b117b9, 0x3b0875c7) == 0x74cd4bab;
    assert Mix(2, 0x3575227e, 0x6e7429d5, 0x21b117b9) == 0x7ab01c12;
  }

  lemma AbcOps3c()
    ensures Op(2, 0x21b117b9, 0x5a2f5ea5, 0x3575227e, 0x6e7429d5, 0, 4, 681279174) == 0x11de1779
    ensures Op(2, 0x6e7429d5, 0x11de1779, 0x5a2f5ea5, 0x3575227e, 0x80636261, 11, 3936430074) == 0xfadcaa38
    ensures Op(2, 0x3575227e, 0xfadcaa38, 0x11de1779, 0x5a2f5ea5, 0, 16, 3572445317) == 0x31c465ca
    ensures Op(2, 0x5a2f5ea5, 0x31c465ca, 0xfadcaa38, 0x11de1779, 0, 23, 76029189) == 0x4c6124f4
  {
    assert Mix(2, 0x5a2f5ea5, 0x3575227e, 0x6e7429d5) == 0x012e550e;
    assert Mix(2, 0x11de1779, 0x5a2f5ea5, 0x3575227e) == 0x7e846ba2;
    assert Mix(2, 0xfadcaa38, 0x11de1779, 0x5a2f5ea5) == 0xb12de3e4;
    assert Mix(2, 0x31c465ca, 0xfadcaa38, 0x11de1779) == 0xdac6d88b;
  }

  lemma AbcOps3d()
    ensures Op(2, 0x11de1779, 0x4c6124f4, 0x31c465ca, 0xfadcaa38, 0, 4, 3654602809) == 0x7f2e507b
    ensures Op(2, 0xfadcaa38, 0x7f2e507b, 0x4c6124f4, 0x31c465ca, 0, 11, 3873151461) == 0x99d9679d
    ensures Op(2, 0x31c465ca, 0x99d9679d, 0x7f2e507b, 0x4c6124f4, 0, 16, 530742520) == 0x8fae6399
    ensures Op(2, 0x4c6124f4, 0x8fae6399, 0x99d9679d, 0x7f2e507b, 0, 23, 3299628645) == 0x7beb9700
  {
    assert Mix(2, 0x4c6124f4, 0x31c465ca, 0xfadcaa38) == 0x8779eb06;
    assert Mix(2, 0x7f2e507b, 0x4c6124f4, 0x31c465ca) == 0x028b1145;
    assert Mix(2, 0x99d9679d, 0x7f2e507b, 0x4c6124f4) == 0xaa961312;
    assert Mix(2, 0x8fae6399, 0x99d9679d, 0x7f2e507b) == 0x6959547f;
  }

  lemma AbcRound3()
    ensures Steps(32, 48, Words(0x790a77fb, 0x726342d3, 0xa62884aa, 0x9f47e4f8), AbcBlock()) ==
              Words(0x7f2e507b, 0x7beb9700, 0x8fae6399, 0x99d9679d)
  {
    hide Op, Four, Steps, Which, Shift, Sine, AbcBlock;
    Table3();
    Table3More();
    AbcWords();
    AbcOps3a(); AbcOps3b(); AbcOps3c(); AbcOps3d();
    var x := AbcBlock();
    FourOps(32, Words(0x790a77fb, 0x726342d3, 0xa62884aa, 0x9f47e4f8), x,
            0xb3707ebf, 0x3b0875c7, 0x8d212ff5, 0x60127b2e);
    FourOps(36, Words(0xb3707ebf, 0x3b0875c7, 0x8d212ff5, 0x60127b2e), x,
            0x21b117b9, 0x5a2f5ea5, 0x3575227e, 0x6e7429d5);
    FourOps(40, Words(0x21b117b9, 0x5a2f5ea5, 0x3575227e, 0x6e7429d5), x,
            0x11de1779, 0x4c6124f4, 0x31c465ca, 0xfadcaa38);
    FourOps(44, Words(0x11de1779, 0x4c6124f4, 0x31c465ca, 0xfadcaa38), x,
            0x7f2e507b, 0x7beb9700, 0x8fae6399, 0x99d9679d);
    SixteenSteps(32, Words(0x790a77fb, 0x726342d3, 0xa62884aa, 0x9f47e4f8),
                 Words(0xb3707ebf, 0x3b0875c7, 0x8d212ff5, 0x60127b2e),
                 Words(0x21b117b9, 0x5a2f5ea5, 0x3575227e, 0x6e7429d5),
                 Words(0x11de1779, 0x4c6124f4, 0x31c465ca, 0xfadcaa38),
                 Words(0x7f2e507b, 0x7beb9700, 0x8fae6399, 0x99d9679d), x);
  }

  lemma AbcOps4()
    ensures Op(3, 0x7f2e507b, 0x7beb9700, 0x8fae6399, 0x99d9679d, 0x80636261, 6, 4096336452) == 0x7b201df8
    ensures Op(3, 0x99d9679d, 0x7b201df8, 0x7beb9700, 0x8fae6399, 0, 10, 1126891415) == 0xf4e8e96e
    ensures Op(3, 0x8fae6399, 0xf4e8e96e, 0x7b201df8, 0x7beb9700, 0x18, 15, 2878612391) == 0xb298cefd
    ensures Op(3, 0x7beb9700, 0xb298cefd, 0xf4e8e96e, 0x7b201df8, 0, 21, 4237533241) == 0x8bf025c4
    ensures Op(3, 0x7b201df8, 0x8bf025c4, 0xb298cefd, 0xf4e8e96e, 0, 6, 1700485571) == 0x06cc5e8a
    ensures Op(3, 0xf4e8e96e, 0x06cc5e8a, 0x8bf025c4, 0xb298cefd, 0, 10, 2399980690) == 0x5b0d97aa
    ensures Op(3, 0xb298cefd, 0x5b0d97aa, 0x06cc5e8a, 0x8bf025c4, 0, 15, 4293915773) == 0x7d632dd0
    ensures Op(3, 0x8bf025c4, 0x7d632dd0, 0x5b0d97aa, 0x06cc5e8a, 0, 21, 2240044497) == 0x3bfa2c27
    ensures Op(3, 0x06cc5e8a, 0x3bfa2c27, 0x7d632dd0, 0x5b0d97aa, 0, 6, 1873313359) == 0x7f81cc35
    ensures Op(3, 0x5b0d97aa, 0x7f81cc35, 0x3bfa2c27, 0x7d632dd0, 0, 10, 4264355552) == 0x094454ab
    ensures Op(3, 0x7d632dd0, 0x094454ab, 0x7f81cc35, 0x3bfa2c27, 0, 15, 2734768916) == 0x4f9dbe3f
    ensures Op(3, 0x3bfa2c27, 0x4f9dbe3f, 0x094454ab, 0x7f81cc35, 0, 21, 1309151649) == 0x7327d604
    ensures Op(3, 0x7f81cc35, 0x7327d604, 0x4f9dbe3f, 0x094454ab, 0, 6, 4149444226) == 0x310ade8f
    ensures Op(3, 0x094454ab, 0x310ade8f, 0x7327d604, 0x4f9dbe3f, 0, 10, 3174756917) == 0x624d8cb2
    ensures Op(3, 0x4f9dbe3f, 0x624d8cb2, 0x310ade8f, 0x7327d604, 0, 15, 718787259) == 0xe484b9d8
    ensures Op(3, 0x7327d604, 0xe484b9d8, 0x624d8cb2, 0x310ade8f, 0, 21, 3951481745) == 0xc08226b3
  {
    hide Which, Shift, Sine;
  }

  lemma AbcRound4()
    ensures Steps(48, 64, Words(0x7f2e507b, 0x7beb9700, 0x8fae6399, 0x99d9679d), AbcBlock()) ==
              Words(0x310ade8f, 0xc08226b3, 0xe484b9d8, 0x624d8cb2)
  {
    hide Op, Four, Steps, Which, Shift, Sine, AbcBlock;
    Table4();
    Table4More();
    AbcWords();
    AbcOps4();
    var x := AbcBlock();
    FourOps(48, Words(0x7f2e507b, 0x7beb9700, 0x8fae6399, 0x99d9679d), x,
            0x7b201df8, 0x8bf025c4, 0xb298cefd, 0xf4e8e96e);
    FourOps(52, Words(0x7b201df8, 0x8bf025c4, 0xb298cefd, 0xf4e8e96e), x,
            0x06cc5e8a, 0x3bfa2c27, 0x7d632dd0, 0x5b0d97aa);
    FourOps(56, Words(0x06cc5e8a, 0x3bfa2c27, 0x7d632dd0, 0x5b0d97aa), x,
            0x7f81cc35, 0x7327d604, 0x4f9dbe3f, 0x094454ab);
    FourOps(60, Words(0x7f81cc35, 0x7327d604, 0x4f9dbe3f, 0x094454ab), x,
            0x310ade8f, 0xc08226b3, 0xe484b9d8, 0x624d8cb2);
    SixteenSteps(48, Words(0x7f2e507b, 0x7beb9700, 0x8fae6399, 0x99d9679d),
                 Words(0x7b201df8, 0x8bf025c4, 0xb298cefd, 0xf4e8e96e),
                 Words(0x06cc5e8a, 0x3bfa2c27, 0x7d632dd0, 0x5b0d97aa),
                 Words(0x7f81cc35, 0x7327d604, 0x4f9dbe3f, 0x094454ab),
                 Words(0x310ade8f, 0xc08226b3, 0xe484b9d8, 0x624d8cb2), x);
  }

  lemma AbcCompressed()
    ensures Compress(START, AbcBlock()) == Words(0x98500190, 0xb04fd23c, 0x7d3f96d6, 0x727fe128)
  {
    hide Steps, AbcBlock;
    AbcRound1(); AbcRound2(); AbcRound3(); AbcRound4();
    var w, x := Words(0x67452301, 0xefcdab89, 0x98badcfe, 0x10325476), AbcBlock();
    StepsSplit(0, 16, 64, w, x);
    StepsSplit(16, 32, 64, Steps(0, 16, w, x), x);
    StepsSplit(32, 48, 64, Steps(16, 32, Steps(0, 16, w, x), x), x);
  }

  /** MD5 ("abc") = 900150983cd24fb0d6963f7d28e17f72 */
  lemma DigestOfAbc()
    ensures Digest([0x61, 0x62, 0x63]) ==
              [0x90, 0x01, 0x50, 0x98, 0x3c, 0xd2, 0x4f, 0xb0, 0xd6, 0x96, 0x3f, 0x7d, 0x28, 0xe1, 0x7f, 0x72]
  {
    hide Compress, AbcBlock, WordsOf, Padded;
    AbcPadded();
    AbcCompressed();
    var p := Padded([0x61, 0x62, 0x63]);
    assert p[..64] == p && p[64..] == [];
    assert Absorb(START, p) == Words(0x98500190, 0xb04fd23c, 0x7d3f96d6, 0x727fe128);
  }

  // ----- the blocks -----

  lemma SmallLength(n: nat)
    requires n < 56
    ensures PadLength(n) == 56 - n
  {
  }

  lemma SomeWords()
    ensures Word(0, 0, 0, 0) == 0 && Word(0x80, 0, 0, 0) == 0x80
    ensures Word(0x61, 0x62, 0x63, 0x80) == 0x80636261 && Word(0x18, 0, 0, 0) == 0x18
  {
  }

  lemma SomeBytes()
    ensures Bytes(0) == [0, 0, 0, 0] && Bytes(1) == [1, 0, 0, 0] && Bytes(0x18) == [0x18, 0, 0, 0]
  {
  }

  /** The length is that in bits, of 64 bits with the low byte first. */
  lemma SomeLengths()
    ensures Length(0) == [0, 0, 0, 0, 0, 0, 0, 0] && Length(3) == [0x18, 0, 0, 0, 0, 0, 0, 0]
    ensures Length(0x2000_0000) == [0, 0, 0, 0, 1, 0, 0, 0]
  {
    hide TwoWords;
    assert TwoWords(0, 0) == [0, 0, 0, 0, 0, 0, 0, 0] && TwoWords(24, 0) == [0x18, 0, 0, 0, 0, 0, 0, 0]
           && TwoWords(0, 1) == [0, 0, 0, 0, 1, 0, 0, 0] by { SomeTwoWords(); }
    assert 8 * 0x2000_0000 == 0x1_0000_0000;
    assert Length(3) == TwoWords(24, 0) && Length(0x2000_0000) == TwoWords(0, 1);
  }

  lemma SomeTwoWords()
    ensures TwoWords(0, 0) == [0, 0, 0, 0, 0, 0, 0, 0] && TwoWords(24, 0) == [0x18, 0, 0, 0, 0, 0, 0, 0]
    ensures TwoWords(0, 1) == [0, 0, 0, 0, 1, 0, 0, 0]
  {
    hide Bytes;
    SomeBytes();
    assert 24 as bv32 == 0x18 && 0 as bv32 == 0 && 1 as bv32 == 1;
  }

  lemma EmptyPadded()
    ensures |Padded([])| == 64 && WordsOf(Padded([])) == EmptyBlock()
  {
    hide Word, Length, PadLength;
    SmallLength(0);
    SomeWords();
    SomeLengths();
    var p := Padded([]);
    assert p == Padding(56) + Length(0);
    assert forall i :: 0 < i < 64 ==> p[i] == 0;
    forall k | 0 < k < 16 ensures WordsOf(p)[k] == 0 {
      assert p[4 * k] == 0 && p[4 * k + 1] == 0 && p[4 * k + 2] == 0 && p[4 * k + 3] == 0;
    }
    assert WordsOf(p)[0] == 0x80;
  }

  lemma AbcPadded()
    ensures |Padded([0x61, 0x62, 0x63])| == 64 && WordsOf(Padded([0x61, 0x62, 0x63])) == AbcBlock()
  {
    hide Word, Length, PadLength;
    SmallLength(3);
    SomeWords();
    SomeLengths();
    var p := Padded([0x61, 0x62, 0x63]);
    assert p == [0x61, 0x62, 0x63] + Padding(53) + Length(3);
    assert forall i :: 3 < i < 56 ==> p[i] == 0;
    assert p[56] == 0x18 && forall i :: 56 < i < 64 ==> p[i] == 0;
    forall k | 0 < k < 16 ensures WordsOf(p)[k] == if k == 14 then 0x18 else 0 {
      assert p[4 * k + 1] == 0 && p[4 * k + 2] == 0 && p[4 * k + 3] == 0;
      assert k != 14 ==> p[4 * k] == 0;
    }
    assert WordsOf(p)[0] == 0x80636261;
  }
}
