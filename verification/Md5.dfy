/** MD5 (lib/md5.c): the compression function of section 3.4 of RFC 1321, and the
    context that takes a message in pieces. */
module Md5 {

  datatype Words = Words(a: bv32, b: bv32, c: bv32, d: bv32)

  const START := Words(0x67452301, 0xefcdab89, 0x98badcfe, 0x10325476)

  type Block = x: seq<bv32> | |x| == 16 witness seq(16, _ => 0)

  // ----- the compression function, step by step -----

  function Rotate(x: bv32, n: nat): bv32
    requires n <= 32
  {
    (x << n) | (x >> (32 - n))
  }

  /** The function of a round. */
  function Mix(round: nat, x: bv32, y: bv32, z: bv32): bv32 {
    if round == 0 then (x & y) | (!x & z)
    else if round == 1 then (x & z) | (y & !z)
    else if round == 2 then x ^ y ^ z
    else y ^ (x | !z)
  }

  /** The word of the block that a step uses. */
  function Which(i: nat): (k: nat)
    ensures k < 16
  {
    if i < 16 then i % 16 else if i < 32 then (5 * i + 1) % 16 else if i < 48 then (3 * i + 5) % 16 else (7 * i) % 16
  }

  function Shift(i: nat): (n: nat)
    ensures n <= 32
  {
    var j := i % 4;
    if i < 16 then (if j == 0 then 7 else if j == 1 then 12 else if j == 2 then 17 else 22)
    else if i < 32 then (if j == 0 then 5 else if j == 1 then 9 else if j == 2 then 14 else 20)
    else if i < 48 then (if j == 0 then 4 else if j == 1 then 11 else if j == 2 then 16 else 23)
    else (if j == 0 then 6 else if j == 1 then 10 else if j == 2 then 15 else 21)
  }

  /** The additive constant of a step. */
  function Sine(i: nat): bv32
    requires i < 64
  {
    if i < 16 then
    [3614090360, 3905402710, 606105819, 3250441966,
     4118548399, 1200080426, 2821735955, 4249261313,
     1770035416, 2336552879, 4294925233, 2304563134,
     1804603682, 4254626195, 2792965006, 1236535329][i]
    else if i < 32 then
    [4129170786, 3225465664, 643717713, 3921069994,
     3593408605, 38016083, 3634488961, 3889429448,
     568446438, 3275163606, 4107603335, 1163531501,
     2850285829, 4243563512, 1735328473, 2368359562][i - 16]
    else if i < 48 then
    [4294588738, 2272392833, 1839030562, 4259657740,
     2763975236, 1272893353, 4139469664, 3200236656,
     681279174, 3936430074, 3572445317, 76029189,
     3654602809, 3873151461, 530742520, 3299628645][i - 32]
    else
    [4096336452, 1126891415, 2878612391, 4237533241,
     1700485571, 2399980690, 4293915773, 2240044497,
     1873313359, 4264355552, 2734768916, 1309151649,
     4149444226, 3174756917, 718787259, 3951481745][i - 48]
  }

  /** One operation: [abcd k s i] in the notation of RFC 1321. */
  function Op(round: nat, a: bv32, b: bv32, c: bv32, d: bv32, x: bv32, s: nat, ac: bv32): bv32
    requires s <= 32
  {
    Rotate(a + Mix(round, b, c, d) + x + ac, s) + b
  }

  /** Step i, after which the registers change places. */
  function Step(i: nat, w: Words, x: Block): Words
    requires i < 64
  {
    Words(w.d, Op(i / 16, w.a, w.b, w.c, w.d, x[Which(i)], Shift(i), Sine(i)), w.b, w.c)
  }

  function Steps(i: nat, n: nat, w: Words, x: Block): Words
    requires i <= n <= 64
    decreases n - i
  {
    if i == n then w else Steps(i + 1, n, Step(i, w, x), x)
  }

  function Plus(v: Words, w: Words): Words {
    Words(v.a + w.a, v.b + w.b, v.c + w.c, v.d + w.d)
  }

  function Compress(w: Words, x: Block): Words {
    Plus(w, Steps(0, 64, w, x))
  }

  lemma {:induction false} StepsSplit(i: nat, m: nat, n: nat, w: Words, x: Block)
    requires i <= m <= n <= 64
    ensures Steps(i, n, w, x) == Steps(m, n, Steps(i, m, w, x), x)
    decreases m - i
  {
    hide Step;
    if i < m { StepsSplit(i + 1, m, n, Step(i, w, x), x); }
  }

  lemma Table1()
    ensures Which(0) == 0 && Shift(0) == 7 && Sine(0) == 3614090360
            && Which(1) == 1 && Shift(1) == 12 && Sine(1) == 3905402710
            && Which(2) == 2 && Shift(2) == 17 && Sine(2) == 606105819
            && Which(3) == 3 && Shift(3) == 22 && Sine(3) == 3250441966
    ensures Which(4) == 4 && Shift(4) == 7 && Sine(4) == 4118548399
            && Which(5) == 5 && Shift(5) == 12 && Sine(5) == 1200080426
            && Which(6) == 6 && Shift(6) == 17 && Sine(6) == 2821735955
            && Which(7) == 7 && Shift(7) == 22 && Sine(7) == 4249261313
  {
  }

  lemma Table1More()
    ensures Which(8) == 8 && Shift(8) == 7 && Sine(8) == 1770035416
            && Which(9) == 9 && Shift(9) == 12 && Sine(9) == 2336552879
            && Which(10) == 10 && Shift(10) == 17 && Sine(10) == 4294925233
            && Which(11) == 11 && Shift(11) == 22 && Sine(11) == 2304563134
    ensures Which(12) == 12 && Shift(12) == 7 && Sine(12) == 1804603682
            && Which(13) == 13 && Shift(13) == 12 && Sine(13) == 4254626195
            && Which(14) == 14 && Shift(14) == 17 && Sine(14) == 2792965006
            && Which(15) == 15 && Shift(15) == 22 && Sine(15) == 1236535329
  {
  }

  /** Round 1 of Transform. */
  method Round1(w: Words, x: Block) returns (r: Words)
    ensures r == Steps(0, 16, w, x)
  {
    hide Op, Steps, Which, Shift, Sine;
    Table1();
    Table1More();
    var a, b, c, d := w.a, w.b, w.c, w.d;
    ghost var w0 := Words(a, b, c, d);
    a := Op(0, a, b, c, d, x[0], 7, 3614090360);
    d := Op(0, d, a, b, c, x[1], 12, 3905402710);
    c := Op(0, c, d, a, b, x[2], 17, 606105819);
    b := Op(0, b, c, d, a, x[3], 22, 3250441966);
    assert Words(a, b, c, d) == Four(0, w0, x);
    ghost var w1 := Words(a, b, c, d);
    a := Op(0, a, b, c, d, x[4], 7, 4118548399);
    d := Op(0, d, a, b, c, x[5], 12, 1200080426);
    c := Op(0, c, d, a, b, x[6], 17, 2821735955);
    b := Op(0, b, c, d, a, x[7], 22, 4249261313);
    assert Words(a, b, c, d) == Four(4, w1, x);
    ghost var w2 := Words(a, b, c, d);
    a := Op(0, a, b, c, d, x[8], 7, 1770035416);
    d := Op(0, d, a, b, c, x[9], 12, 2336552879);
    c := Op(0, c, d, a, b, x[10], 17, 4294925233);
    b := Op(0, b, c, d, a, x[11], 22, 2304563134);
    assert Words(a, b, c, d) == Four(8, w2, x);
    ghost var w3 := Words(a, b, c, d);
    a := Op(0, a, b, c, d, x[12], 7, 1804603682);
    d := Op(0, d, a, b, c, x[13], 12, 4254626195);
    c := Op(0, c, d, a, b, x[14], 17, 2792965006);
    b := Op(0, b, c, d, a, x[15], 22, 1236535329);
    assert Words(a, b, c, d) == Four(12, w3, x);
    SixteenSteps(0, w, w1, w2, w3, Words(a, b, c, d), x);
    r := Words(a, b, c, d);
  }

  lemma Table2()
    ensures Which(16) == 1 && Shift(16) == 5 && Sine(16) == 4129170786
            && Which(17) == 6 && Shift(17) == 9 && Sine(17) == 3225465664
            && Which(18) == 11 && Shift(18) == 14 && Sine(18) == 643717713
            && Which(19) == 0 && Shift(19) == 20 && Sine(19) == 3921069994
    ensures Which(20) == 5 && Shift(20) == 5 && Sine(20) == 3593408605
            && Which(21) == 10 && Shift(21) == 9 && Sine(21) == 38016083
            && Which(22) == 15 && Shift(22) == 14 && Sine(22) == 3634488961
            && Which(23) == 4 && Shift(23) == 20 && Sine(23) == 3889429448
  {
  }

  lemma Table2More()
    ensures Which(24) == 9 && Shift(24) == 5 && Sine(24) == 568446438
            && Which(25) == 14 && Shift(25) == 9 && Sine(25) == 3275163606
            && Which(26) == 3 && Shift(26) == 14 && Sine(26) == 4107603335
            && Which(27) == 8 && Shift(27) == 20 && Sine(27) == 1163531501
    ensures Which(28) == 13 && Shift(28) == 5 && Sine(28) == 2850285829
            && Which(29) == 2 && Shift(29) == 9 && Sine(29) == 4243563512
            && Which(30) == 7 && Shift(30) == 14 && Sine(30) == 1735328473
            && Which(31) == 12 && Shift(31) == 20 && Sine(31) == 2368359562
  {
  }

  /** Round 2 of Transform. */
  method Round2(w: Words, x: Block) returns (r: Words)
    ensures r == Steps(16, 32, w, x)
  {
    hide Op, Steps, Which, Shift, Sine;
    Table2();
    Table2More();
    var a, b, c, d := w.a, w.b, w.c, w.d;
    ghost var w0 := Words(a, b, c, d);
    a := Op(1, a, b, c, d, x[1], 5, 4129170786);
    d := Op(1, d, a, b, c, x[6], 9, 3225465664);
    c := Op(1, c, d, a, b, x[11], 14, 643717713);
    b := Op(1, b, c, d, a, x[0], 20, 3921069994);
    assert Words(a, b, c, d) == Four(16, w0, x);
    ghost var w1 := Words(a, b, c, d);
    a := Op(1, a, b, c, d, x[5], 5, 3593408605);
    d := Op(1, d, a, b, c, x[10], 9, 38016083);
    c := Op(1, c, d, a, b, x[15], 14, 3634488961);
    b := Op(1, b, c, d, a, x[4], 20, 3889429448);
    assert Words(a, b, c, d) == Four(20, w1, x);
    ghost var w2 := Words(a, b, c, d);
    a := Op(1, a, b, c, d, x[9], 5, 568446438);
    d := Op(1, d, a, b, c, x[14], 9, 3275163606);
    c := Op(1, c, d, a, b, x[3], 14, 4107603335);
    b := Op(1, b, c, d, a, x[8], 20, 1163531501);
    assert Words(a, b, c, d) == Four(24, w2, x);
    ghost var w3 := Words(a, b, c, d);
    a := Op(1, a, b, c, d, x[13], 5, 2850285829);
    d := Op(1, d, a, b, c, x[2], 9, 4243563512);
    c := Op(1, c, d, a, b, x[7], 14, 1735328473);
    b := Op(1, b, c, d, a, x[12], 20, 2368359562);
    assert Words(a, b, c, d) == Four(28, w3, x);
    SixteenSteps(16, w, w1, w2, w3, Words(a, b, c, d), x);
    r := Words(a, b, c, d);
  }

  lemma Table3()
    ensures Which(32) == 5 && Shift(32) == 4 && Sine(32) == 4294588738
            && Which(33) == 8 && Shift(33) == 11 && Sine(33) == 2272392833
            && Which(34) == 11 && Shift(34) == 16 && Sine(34) == 1839030562
            && Which(35) == 14 && Shift(35) == 23 && Sine(35) == 4259657740
    ensures Which(36) == 1 && Shift(36) == 4 && Sine(36) == 2763975236
            && Which(37) == 4 && Shift(37) == 11 && Sine(37) == 1272893353
            && Which(38) == 7 && Shift(38) == 16 && Sine(38) == 4139469664
            && Which(39) == 10 && Shift(39) == 23 && Sine(39) == 3200236656
  {
  }

  lemma Table3More()
    ensures Which(40) == 13 && Shift(40) == 4 && Sine(40) == 681279174
            && Which(41) == 0 && Shift(41) == 11 && Sine(41) == 3936430074
            && Which(42) == 3 && Shift(42) == 16 && Sine(42) == 3572445317
            && Which(43) == 6 && Shift(43) == 23 && Sine(43) == 76029189
    ensures Which(44) == 9 && Shift(44) == 4 && Sine(44) == 3654602809
            && Which(45) == 12 && Shift(45) == 11 && Sine(45) == 3873151461
            && Which(46) == 15 && Shift(46) == 16 && Sine(46) == 530742520
            && Which(47) == 2 && Shift(47) == 23 && Sine(47) == 3299628645
  {
  }

  /** Round 3 of Transform. */
  method Round3(w: Words, x: Block) returns (r: Words)
    ensures r == Steps(32, 48, w, x)
  {
    hide Op, Steps, Which, Shift, Sine;
    Table3();
    Table3More();
    var a, b, c, d := w.a, w.b, w.c, w.d;
    ghost var w0 := Words(a, b, c, d);
    a := Op(2, a, b, c, d, x[5], 4, 4294588738);
    d := Op(2, d, a, b, c, x[8], 11, 2272392833);
    c := Op(2, c, d, a, b, x[11], 16, 1839030562);
    b := Op(2, b, c, d, a, x[14], 23, 4259657740);
    assert Words(a, b, c, d) == Four(32, w0, x);
    ghost var w1 := Words(a, b, c, d);
    a := Op(2, a, b, c, d, x[1], 4, 2763975236);
    d := Op(2, d, a, b, c, x[4], 11, 1272893353);
    c := Op(2, c, d, a, b, x[7], 16, 4139469664);
    b := Op(2, b, c, d, a, x[10], 23, 3200236656);
    assert Words(a, b, c, d) == Four(36, w1, x);
    ghost var w2 := Words(a, b, c, d);
    a := Op(2, a, b, c, d, x[13], 4, 681279174);
    d := Op(2, d, a, b, c, x[0], 11, 3936430074);
    c := Op(2, c, d, a, b, x[3], 16, 3572445317);
    b := Op(2, b, c, d, a, x[6], 23, 76029189);
    assert Words(a, b, c, d) == Four(40, w2, x);
    ghost var w3 := Words(a, b, c, d);
    a := Op(2, a, b, c, d, x[9], 4, 3654602809);
    d := Op(2, d, a, b, c, x[12], 11, 3873151461);
    c := Op(2, c, d, a, b, x[15], 16, 530742520);
    b := Op(2, b, c, d, a, x[2], 23, 3299628645);
    assert Words(a, b, c, d) == Four(44, w3, x);
    SixteenSteps(32, w, w1, w2, w3, Words(a, b, c, d), x);
    r := Words(a, b, c, d);
  }

  lemma Table4()
    ensures Which(48) == 0 && Shift(48) == 6 && Sine(48) == 4096336452
            && Which(49) == 7 && Shift(49) == 10 && Sine(49) == 1126891415
            && Which(50) == 14 && Shift(50) == 15 && Sine(50) == 2878612391
            && Which(51) == 5 && Shift(51) == 21 && Sine(51) == 4237533241
    ensures Which(52) == 12 && Shift(52) == 6 && Sine(52) == 1700485571
            && Which(53) == 3 && Shift(53) == 10 && Sine(53) == 2399980690
            && Which(54) == 10 && Shift(54) == 15 && Sine(54) == 4293915773
            && Which(55) == 1 && Shift(55) == 21 && Sine(55) == 2240044497
  {
  }

  lemma Table4More()
    ensures Which(56) == 8 && Shift(56) == 6 && Sine(56) == 1873313359
            && Which(57) == 15 && Shift(57) == 10 && Sine(57) == 4264355552
            && Which(58) == 6 && Shift(58) == 15 && Sine(58) == 2734768916
            && Which(59) == 13 && Shift(59) == 21 && Sine(59) == 1309151649
    ensures Which(60) == 4 && Shift(60) == 6 && Sine(60) == 4149444226
            && Which(61) == 11 && Shift(61) == 10 && Sine(61) == 3174756917
            && Which(62) == 2 && Shift(62) == 15 && Sine(62) == 718787259
            && Which(63) == 9 && Shift(63) == 21 && Sine(63) == 3951481745
  {
  }

  /** Round 4 of Transform. */
  method Round4(w: Words, x: Block) returns (r: Words)
    ensures r == Steps(48, 64, w, x)
  {
    hide Op, Steps, Which, Shift, Sine;
    Table4();
    Table4More();
    var a, b, c, d := w.a, w.b, w.c, w.d;
    ghost var w0 := Words(a, b, c, d);
    a := Op(3, a, b, c, d, x[0], 6, 4096336452);
    d := Op(3, d, a, b, c, x[7], 10, 1126891415);
    c := Op(3, c, d, a, b, x[14], 15, 2878612391);
    b := Op(3, b, c, d, a, x[5], 21, 4237533241);
    assert Words(a, b, c, d) == Four(48, w0, x);
    ghost var w1 := Words(a, b, c, d);
    a := Op(3, a, b, c, d, x[12], 6, 1700485571);
    d := Op(3, d, a, b, c, x[3], 10, 2399980690);
    c := Op(3, c, d, a, b, x[10], 15, 4293915773);
    b := Op(3, b, c, d, a, x[1], 21, 2240044497);
    assert Words(a, b, c, d) == Four(52, w1, x);
    ghost var w2 := Words(a, b, c, d);
    a := Op(3, a, b, c, d, x[8], 6, 1873313359);
    d := Op(3, d, a, b, c, x[15], 10, 4264355552);
    c := Op(3, c, d, a, b, x[6], 15, 2734768916);
    b := Op(3, b, c, d, a, x[13], 21, 1309151649);
    assert Words(a, b, c, d) == Four(56, w2, x);
    ghost var w3 := Words(a, b, c, d);
    a := Op(3, a, b, c, d, x[4], 6, 4149444226);
    d := Op(3, d, a, b, c, x[11], 10, 3174756917);
    c := Op(3, c, d, a, b, x[2], 15, 718787259);
    b := Op(3, b, c, d, a, x[9], 21, 3951481745);
    assert Words(a, b, c, d) == Four(60, w3, x);
    SixteenSteps(48, w, w1, w2, w3, Words(a, b, c, d), x);
    r := Words(a, b, c, d);
  }

  /** Four steps bring the registers back to their places. */
  function Four(i: nat, w: Words, x: Block): Words
    requires i + 4 <= 64
  {
    Step(i + 3, Step(i + 2, Step(i + 1, Step(i, w, x), x), x), x)
  }

  lemma FourSteps(i: nat, w: Words, x: Block)
    requires i + 4 <= 64
    ensures Steps(i, i + 4, w, x) == Four(i, w, x)
  {
    hide Step;
    var w1 := Step(i, w, x);
    var w2 := Step(i + 1, w1, x);
    var w3 := Step(i + 2, w2, x);
    var w4 := Step(i + 3, w3, x);
    assert Steps(i + 4, i + 4, w4, x) == w4;
    assert Steps(i + 3, i + 4, w3, x) == w4;
    assert Steps(i + 2, i + 4, w2, x) == w4;
    assert Steps(i + 1, i + 4, w1, x) == w4;
  }

  lemma SixteenSteps(i: nat, w0: Words, w1: Words, w2: Words, w3: Words, w4: Words, x: Block)
    requires i + 16 <= 64
    requires w1 == Four(i, w0, x) && w2 == Four(i + 4, w1, x) && w3 == Four(i + 8, w2, x) && w4 == Four(i + 12, w3, x)
    ensures w4 == Steps(i, i + 16, w0, x)
  {
    hide Step, Steps, Four;
    FourSteps(i, w0, x);
    FourSteps(i + 4, w1, x);
    FourSteps(i + 8, w2, x);
    FourSteps(i + 12, w3, x);
    StepsSplit(i, i + 4, i + 16, w0, x);
    StepsSplit(i + 4, i + 8, i + 16, w1, x);
    StepsSplit(i + 8, i + 12, i + 16, w2, x);
  }

  /** Transform: the rounds written out one operation after the other. */
  method Transform(buf: Words, x: Block) returns (r: Words)
    ensures r == Compress(buf, x)
  {
    hide Steps;
    r := Round1(buf, x);
    r := Round2(r, x);
    r := Round3(r, x);
    r := Round4(r, x);
    StepsSplit(0, 16, 64, buf, x);
    StepsSplit(16, 32, 64, Steps(0, 16, buf, x), x);
    StepsSplit(32, 48, 64, Steps(16, 32, Steps(0, 16, buf, x), x), x);
    r := Plus(buf, r);
  }

  // ----- bytes and words -----

  function Word(b0: bv8, b1: bv8, b2: bv8, b3: bv8): bv32 {
    ((b3 as bv32) << 24) | ((b2 as bv32) << 16) | ((b1 as bv32) << 8) | (b0 as bv32)
  }

  function Bytes(w: bv32): (r: seq<bv8>)
    ensures |r| == 4
  {
    [(w & 0xff) as bv8, ((w >> 8) & 0xff) as bv8, ((w >> 16) & 0xff) as bv8, ((w >> 24) & 0xff) as bv8]
  }

  lemma WordOfBytes(w: bv32)
    ensures var b := Bytes(w); Word(b[0], b[1], b[2], b[3]) == w
  {
  }

  /** The sixteen words of 64 bytes. */
  function WordsOf(bytes: seq<bv8>): Block
    requires |bytes| == 64
  {
    seq(16, i requires 0 <= i < 16 => Word(bytes[4 * i], bytes[4 * i + 1], bytes[4 * i + 2], bytes[4 * i + 3]))
  }

  // ----- the digest of a message, in one piece -----

  function Absorb(w: Words, m: seq<bv8>): Words
    decreases |m|
  {
    hide Compress, WordsOf;
    if |m| < 64 then w else Absorb(Compress(w, WordsOf(m[..64])), m[64..])
  }

  /** How many bytes make 56 mod 64. */
  function PadLength(n: nat): (r: nat)
    ensures 1 <= r <= 64
  {
    if n % 64 < 56 then 56 - n % 64 else 120 - n % 64
  }

  lemma PadFits(n: nat)
    ensures (n + PadLength(n)) % 64 == 56 && (n + PadLength(n) + 8) % 64 == 0
  {
    var q, r := n / 64, n % 64;
    assert n == 64 * q + r;
    assert n + PadLength(n) == 64 * (if r < 56 then q else q + 1) + 56;
  }

  function Padding(n: nat): (r: seq<bv8>)
    requires n > 0
    ensures |r| == n
  {
    [0x80] + seq(n - 1, _ => 0)
  }

  /** Two words, the low one first. */
  function TwoWords(lo: nat, hi: nat): (r: seq<bv8>)
    requires lo < 0x1_0000_0000 && hi < 0x1_0000_0000
    ensures |r| == 8
  {
    Bytes(lo as bv32) + Bytes(hi as bv32)
  }

  /** The number of bits. */
  function Length(n: nat): (r: seq<bv8>)
    ensures |r| == 8
  {
    TwoWords(8 * n % 0x1_0000_0000, 8 * n / 0x1_0000_0000 % 0x1_0000_0000)
  }

  /** Sections 3.1 and 3.2 of RFC 1321. */
  function Padded(m: seq<bv8>): (r: seq<bv8>)
    ensures |r| % 64 == 0
  {
    hide Padding, Length, PadLength;
    PadFits(|m|);
    m + Padding(PadLength(|m|)) + Length(|m|)
  }

  function Output(w: Words): (r: seq<bv8>)
    ensures |r| == 16
  {
    Bytes(w.a) + Bytes(w.b) + Bytes(w.c) + Bytes(w.d)
  }

  function Digest(m: seq<bv8>): (r: seq<bv8>)
    ensures |r| == 16
  {
    Output(Absorb(START, Padded(m)))
  }

  lemma {:induction false} AbsorbBlock(w: Words, m: seq<bv8>, block: seq<bv8>)
    requires |m| % 64 == 0 && |block| == 64
    ensures Absorb(w, m + block) == Compress(Absorb(w, m), WordsOf(block))
    decreases |m|
  {
    hide Compress, WordsOf;
    if m == [] {
      assert m + block == block && block[64..] == [] && block[..64] == block;
    } else {
      assert (m + block)[..64] == m[..64] && (m + block)[64..] == m[64..] + block;
      AbsorbBlock(Compress(w, WordsOf(m[..64])), m[64..], block);
    }
  }

  /** What is left over of a message after its last whole block. */
  function Tail(m: seq<bv8>): (r: seq<bv8>)
    ensures |r| == |m| % 64
  {
    m[|m| - |m| % 64..]
  }

  function Whole(m: seq<bv8>): (r: seq<bv8>)
    ensures |r| % 64 == 0
  {
    m[..|m| - |m| % 64]
  }

  // ----- the context -----

  class Md5Context {
    var i0: int
    var i1: int
    var buf: Words
    const input: array<bv8>
    ghost var message: seq<bv8>

    /** The counters hold the number of bits mod 2^64, buf what the whole blocks
        make, and input what is left over. */
    ghost predicate Valid()
      reads this, input
    {
      && input.Length == 64
      && Counts(i0, i1, |message|)
      && buf == Absorb(START, Whole(message))
      && input[..|message| % 64] == Tail(message)
    }

    /** MD5Init */
    constructor ()
      ensures Valid() && message == [] && fresh(input)
    {
      i0, i1, buf := 0, 0, START;
      input := new bv8[64](_ => 0);
      message := [];
    }

    /** The words of a full buffer. */
    method Words16() returns (x: Block)
      requires input.Length == 64
      ensures x == WordsOf(input[..])
    {
      var w: seq<bv32> := [];
      for i := 0 to 16
        invariant |w| == i && forall k :: 0 <= k < i ==> w[k] == WordsOf(input[..])[k]
      {
        w := w + [Word(input[4 * i], input[4 * i + 1], input[4 * i + 2], input[4 * i + 3])];
      }
      x := w;
    }

    /** MD5Update */
    method Update(bytes: seq<bv8>)
      requires Valid() && |bytes| < 0x1_0000_0000
      modifies this, input
      ensures Valid() && message == old(message) + bytes
    {
      hide Absorb, Compress, WordsOf;
      var mdi := i0 / 8 % 64;
      Remainder(i0, i1, |message|);
      var n := |bytes|;
      var carry := if (i0 + 8 * n % 0x1_0000_0000) % 0x1_0000_0000 < i0 then 1 else 0;
      CountOn(i0, i1, |message|, n);
      i0, i1 := (i0 + 8 * n % 0x1_0000_0000) % 0x1_0000_0000, (i1 + carry + n / 0x2000_0000) % 0x1_0000_0000;
      AddBytes(mdi, bytes);
    }

    /** The loop of MD5Update. */
    method AddBytes(mdi0: int, bytes: seq<bv8>)
      requires input.Length == 64 && mdi0 == |message| % 64 && buf == Absorb(START, Whole(message))
      requires input[..mdi0] == Tail(message)
      modifies this`buf, this`message, input
      ensures message == old(message) + bytes
      ensures buf == Absorb(START, Whole(message)) && input[..|message| % 64] == Tail(message)
    {
      hide Absorb, Compress, WordsOf;
      var mdi := mdi0;
      for k := 0 to |bytes|
        invariant message == old(message) + bytes[..k] && mdi == |message| % 64
        invariant buf == Absorb(START, Whole(message)) && input[..mdi] == Tail(message)
      {
        OneByteMore(message, bytes[k]);
        ghost var was := input[..mdi];
        input[mdi] := bytes[k];
        mdi := mdi + 1;
        assert input[..mdi] == was + [bytes[k]];
        if mdi == 64 {
          assert input[..64] == input[..];
          AbsorbBlock(START, Whole(message), input[..]);
          var x := Words16();
          buf := Transform(buf, x);
          mdi := 0;
        }
        message := message + [bytes[k]];
      }
      assert bytes[..|bytes|] == bytes;
    }

    /** MD5Final */
    method Final() returns (digest: seq<bv8>)
      requires Valid()
      modifies this, input
      ensures digest == Digest(old(message))
    {
      hide Absorb, Compress, WordsOf, Output;
      var lo, hi := i0, i1;
      ghost var m := message;
      var mdi := i0 / 8 % 64;
      Remainder(i0, i1, |message|);
      var padLen := if mdi < 56 then 56 - mdi else 120 - mdi;
      Update(Padding(padLen));
      ghost var padded := message;
      PaddedTail(m, padded);
      var x: seq<bv32> := [];
      for i := 0 to 14
        invariant |x| == i && forall k :: 0 <= k < i ==>
                    x[k] == Word(input[4 * k], input[4 * k + 1], input[4 * k + 2], input[4 * k + 3])
      {
        x := x + [Word(input[4 * i], input[4 * i + 1], input[4 * i + 2], input[4 * i + 3])];
      }
      x := x + [lo as bv32, hi as bv32];
      LastBlock(m, padded, input[..56], x, lo, hi);
      buf := Transform(buf, x);
      digest := Output(buf);
    }
  }

  /** i0 and i1 hold eight times n mod 2^64. */
  ghost predicate Counts(i0: int, i1: int, n: nat) {
    0 <= i0 < 0x1_0000_0000 && 0 <= i1 < 0x1_0000_0000 && i0 == 8 * n % 0x1_0000_0000
        && i1 == 8 * n / 0x1_0000_0000 % 0x1_0000_0000
  }

  lemma Remainder(i0: int, i1: int, n: nat)
    requires Counts(i0, i1, n)
    ensures i0 / 8 % 64 == n % 64
  {
    var q := 8 * n / 0x1_0000_0000;
    var m := n - q * 0x2000_0000;
    assert i0 == 8 * m && i0 / 8 == m;
    assert m == 64 * (n / 64 - q * 0x80_0000) + n % 64;
  }

  /** Adding to the counters with a carry. */
  lemma CountOn(i0: int, i1: int, n: nat, k: nat)
    requires Counts(i0, i1, n) && k < 0x1_0000_0000
    ensures var l := (i0 + 8 * k % 0x1_0000_0000) % 0x1_0000_0000;
            Counts(l, (i1 + (if l < i0 then 1 else 0) + k / 0x2000_0000) % 0x1_0000_0000, n + k)
  {
    var q, p := 8 * n / 0x1_0000_0000, k / 0x2000_0000;
    var low := 8 * (k - p * 0x2000_0000);
    DivIs(8 * k, p, low);
    assert 8 * n == q * 0x1_0000_0000 + i0;
    var c := if i0 + low >= 0x1_0000_0000 then 1 else 0;
    var l := i0 + low - c * 0x1_0000_0000;
    DivIs(i0 + low, c, l);
    DivIs(8 * (n + k), q + p + c, l);
  }

  lemma DivIs(a: int, q: int, l: int)
    requires a == q * 0x1_0000_0000 + l && 0 <= l < 0x1_0000_0000
    ensures a / 0x1_0000_0000 == q && a % 0x1_0000_0000 == l
  {
  }

  lemma OneByteMore(m: seq<bv8>, b: bv8)
    ensures |m| % 64 < 63 ==>
              Whole(m + [b]) == Whole(m) && Tail(m + [b]) == Tail(m) + [b] && |m + [b]| % 64 == |m| % 64 + 1
    ensures |m| % 64 == 63 ==>
              Whole(m + [b]) == Whole(m) + (Tail(m) + [b]) && Tail(m + [b]) == [] && |m + [b]| % 64 == 0
  {
    var more, r := m + [b], |m| % 64;
    NextRemainder(|m|);
    if r < 63 {
      assert more[..|m| - r] == m[..|m| - r] && more[|m| - r..] == m[|m| - r..] + [b];
    } else {
      assert m[..|m| - r] + m[|m| - r..] == m;
    }
  }

  lemma NextRemainder(n: nat)
    ensures (n + 1) % 64 == if n % 64 < 63 then n % 64 + 1 else 0
  {
    var q := n / 64;
    assert n + 1 == 64 * q + (n % 64 + 1);
  }

  lemma PaddedTail(m: seq<bv8>, padded: seq<bv8>)
    requires padded == m + Padding(PadLength(|m|))
    ensures |padded| % 64 == 56 && Whole(padded) + Tail(padded) == padded
  {
  }

  lemma LastBlock(m: seq<bv8>, padded: seq<bv8>, tail: seq<bv8>, x: seq<bv32>, lo: int, hi: int)
    requires padded == m + Padding(PadLength(|m|)) && |padded| % 64 == 56 && tail == Tail(padded)
    requires Counts(lo, hi, |m|) && |x| == 16
    requires forall k :: 0 <= k < 14 ==> x[k] == Word(tail[4 * k], tail[4 * k + 1], tail[4 * k + 2], tail[4 * k + 3])
    requires x[14] == lo as bv32 && x[15] == hi as bv32
    ensures Compress(Absorb(START, Whole(padded)), x) == Absorb(START, Padded(m))
  {
    hide Absorb, Compress, WordsOf, Padding, PadLength, Length, Whole, Tail;
    WordsOfLast(|m|, tail, x, lo, hi);
    WholeAndTail(padded);
    assert Padded(m) == Whole(padded) + (tail + Length(|m|));
    AbsorbBlock(START, Whole(padded), tail + Length(|m|));
  }

  lemma WholeAndTail(m: seq<bv8>)
    ensures Whole(m) + Tail(m) == m
  {
  }

  lemma WordsOfLast(n: nat, tail: seq<bv8>, x: seq<bv32>, lo: int, hi: int)
    requires |tail| == 56 && Counts(lo, hi, n) && |x| == 16
    requires forall k :: 0 <= k < 14 ==> x[k] == Word(tail[4 * k], tail[4 * k + 1], tail[4 * k + 2], tail[4 * k + 3])
    requires x[14] == lo as bv32 && x[15] == hi as bv32
    ensures x == WordsOf(tail + Length(n))
  {
    hide Word, Bytes, WordsOf;
    BlockWords(tail, x, lo as bv32, hi as bv32);
  }

  lemma BlockWords(tail: seq<bv8>, x: seq<bv32>, lo: bv32, hi: bv32)
    requires |tail| == 56 && |x| == 16 && x[14] == lo && x[15] == hi
    requires forall k :: 0 <= k < 14 ==> x[k] == Word(tail[4 * k], tail[4 * k + 1], tail[4 * k + 2], tail[4 * k + 3])
    ensures x == WordsOf(tail + (Bytes(lo) + Bytes(hi)))
  {
    hide Word, Bytes, WordsOf;
    WordOfBytes(lo);
    WordOfBytes(hi);
    LateWords(tail, Bytes(lo), Bytes(hi));
    forall k | 0 <= k < 14 ensures x[k] == WordsOf(tail + (Bytes(lo) + Bytes(hi)))[k] {
      EarlyWord(tail, Bytes(lo) + Bytes(hi), k);
    }
  }

  lemma EarlyWord(tail: seq<bv8>, rest: seq<bv8>, k: nat)
    requires |tail| == 56 && |rest| == 8 && k < 14
    ensures WordsOf(tail + rest)[k] == Word(tail[4 * k], tail[4 * k + 1], tail[4 * k + 2], tail[4 * k + 3])
  {
    hide Word;
  }

  lemma LateWords(tail: seq<bv8>, b: seq<bv8>, c: seq<bv8>)
    requires |tail| == 56 && |b| == 4 && |c| == 4
    ensures WordsOf(tail + (b + c))[14] == Word(b[0], b[1], b[2], b[3])
    ensures WordsOf(tail + (b + c))[15] == Word(c[0], c[1], c[2], c[3])
  {
    hide Word;
  }

  function Joined(parts: seq<seq<bv8>>): seq<bv8> {
    if parts == [] then [] else Joined(parts[..|parts| - 1]) + parts[|parts| - 1]
  }

  /** However a message is split into updates, its digest is that of the message. */
  method DigestOfParts(parts: seq<seq<bv8>>) returns (digest: seq<bv8>)
    requires forall i :: 0 <= i < |parts| ==> |parts[i]| < 0x1_0000_0000
    ensures digest == Digest(Joined(parts))
  {
    hide Digest, Absorb, Whole, Tail, Counts;
    var ctx := new Md5Context();
    for i := 0 to |parts|
      invariant ctx.Valid() && fresh(ctx) && fresh(ctx.input) && ctx.message == Joined(parts[..i])
    {
      assert parts[..i + 1][..i] == parts[..i];
      ctx.Update(parts[i]);
    }
    assert parts[..|parts|] == parts;
    digest := ctx.Final();
  }
}
