/** MD5 from outside: the auxiliary functions bit by bit, and a digest of the suite in section A.5 of RFC 1321. */
module Md5Vectors {
  import opened Md5Rounds
  import opened Md5

  // ----- the auxiliary functions -----

  /** Where x is set F is y, elsewhere it is z. */
  lemma FChooses(x: word, y: word, z: word)
    ensures F(x, y, z) & x == y & x && F(x, y, z) & !x == z & !x
  {
  }

  /** Where z is set G is x, elsewhere it is y. */
  lemma GChooses(x: word, y: word, z: word)
    ensures G(x, y, z) & z == x & z && G(x, y, z) & !z == y & !z
  {
  }

  /** Where y and z agree H is x, elsewhere it is x flipped. */
  lemma HParity(x: word, y: word, z: word)
    ensures H(x, y, z) & !(y ^ z) == x & !(y ^ z) && H(x, y, z) & (y ^ z) == !x & (y ^ z)
  {
  }

  /** Where x is set or z is clear I is y flipped, elsewhere it is y. */
  lemma IFlips(x: word, y: word, z: word)
    ensures I(x, y, z) & x == !y & x && I(x, y, z) & !z == !y & !z && I(x, y, z) & (!x & z) == y & (!x & z)
  {
  }

  // ----- the compression of two blocks -----

  /** The words of block 1 of the message. */
  predicate AlnumBlock1(x: seq<word>) {
    |x| == 16
    && x[0] == 0x44434241 && x[1] == 0x48474645 && x[2] == 0x4c4b4a49 && x[3] == 0x504f4e4d
    && x[4] == 0x54535251 && x[5] == 0x58575655 && x[6] == 0x62615a59 && x[7] == 0x66656463
    && x[8] == 0x6a696867 && x[9] == 0x6e6d6c6b && x[10] == 0x7271706f && x[11] == 0x76757473
    && x[12] == 0x7a797877 && x[13] == 0x33323130 && x[14] == 0x37363534 && x[15] == 0x00803938
  }

  lemma AlnumBlock1Ops1()
    ensures FF(0x67452301, 0xefcdab89, 0x98badcfe, 0x10325476, 0x44434241, 7, 3614090360) == 0xc6c10796
    ensures FF(0x10325476, 0xc6c10796, 0xefcdab89, 0x98badcfe, 0x48474645, 12, 3905402710) == 0x99a09999
    ensures FF(0x98badcfe, 0x99a09999, 0xc6c10796, 0xefcdab89, 0x4c4b4a49, 17, 606105819) == 0x11067980
    ensures FF(0xefcdab89, 0x11067980, 0x99a09999, 0xc6c10796, 0x504f4e4d, 22, 3250441966) == 0x27bce07a
    ensures FF(0xc6c10796, 0x27bce07a, 0x11067980, 0x99a09999, 0x54535251, 7, 4118548399) == 0xf22e6c4e
    ensures FF(0x99a09999, 0xf22e6c4e, 0x27bce07a, 0x11067980, 0x58575655, 12, 1200080426) == 0xb4ac9218
    ensures FF(0x11067980, 0xb4ac9218, 0xf22e6c4e, 0x27bce07a, 0x62615a59, 17, 2821735955) == 0xa95a2fc0
    ensures FF(0x27bce07a, 0xa95a2fc0, 0xb4ac9218, 0xf22e6c4e, 0x66656463, 22, 4249261313) == 0xa4799506
    ensures FF(0xf22e6c4e, 0xa4799506, 0xa95a2fc0, 0xb4ac9218, 0x6a696867, 7, 1770035416) == 0x1eb3e7c1
    ensures FF(0xb4ac9218, 0x1eb3e7c1, 0xa4799506, 0xa95a2fc0, 0x6e6d6c6b, 12, 2336552879) == 0xa6e70cfe
    ensures FF(0xa95a2fc0, 0xa6e70cfe, 0x1eb3e7c1, 0xa4799506, 0x7271706f, 17, 4294925233) == 0xca27520b
    ensures FF(0xa4799506, 0xca27520b, 0xa6e70cfe, 0x1eb3e7c1, 0x76757473, 22, 2304563134) == 0x8a7612ec
    ensures FF(0x1eb3e7c1, 0x8a7612ec, 0xca27520b, 0xa6e70cfe, 0x7a797877, 7, 1804603682) == 0x3cbdcd45
    ensures FF(0xa6e70cfe, 0x3cbdcd45, 0x8a7612ec, 0xca27520b, 0x33323130, 12, 4254626195) == 0xb8dec763
    ensures FF(0xca27520b, 0xb8dec763, 0x3cbdcd45, 0x8a7612ec, 0x37363534, 17, 2792965006) == 0xfa148c8a
    ensures FF(0x8a7612ec, 0xfa148c8a, 0xb8dec763, 0x3cbdcd45, 0x00803938, 22, 1236535329) == 0x5d38e690
  {
  }

  lemma AlnumBlock1Round1(x: seq<word>)
    requires AlnumBlock1(x)
    ensures Steps(0, 16, Quad(0x67452301, 0xefcdab89, 0x98badcfe, 0x10325476), x) == Quad(0x3cbdcd45, 0x5d38e690, 0xfa148c8a, 0xb8dec763)
  {
    hide FF, GG, HH, II, Pick, Turn, Sine, Step, Steps, Four;
    Table1();
    AlnumBlock1Ops1();
    StepsSixteen(0, Quad(0x67452301, 0xefcdab89, 0x98badcfe, 0x10325476), x);
    FourIs(0, 0, Quad(0x67452301, 0xefcdab89, 0x98badcfe, 0x10325476), x);
    FourIs(0, 4, Quad(0xc6c10796, 0x27bce07a, 0x11067980, 0x99a09999), x);
    FourIs(0, 8, Quad(0xf22e6c4e, 0xa4799506, 0xa95a2fc0, 0xb4ac9218), x);
    FourIs(0, 12, Quad(0x1eb3e7c1, 0x8a7612ec, 0xca27520b, 0xa6e70cfe), x);
  }

  lemma AlnumBlock1Ops2()
    ensures GG(0x3cbdcd45, 0x5d38e690, 0xfa148c8a, 0xb8dec763, 0x48474645, 5, 4129170786) == 0x04b9d52a
    ensures GG(0xb8dec763, 0x04b9d52a, 0x5d38e690, 0xfa148c8a, 0x62615a59, 9, 3225465664) == 0x783002eb
    ensures GG(0xfa148c8a, 0x783002eb, 0x04b9d52a, 0x5d38e690, 0x76757473, 14, 643717713) == 0xd3ee3ed1
    ensures GG(0x5d38e690, 0xd3ee3ed1, 0x783002eb, 0x04b9d52a, 0x44434241, 20, 3921069994) == 0x47ae7c81
    ensures GG(0x04b9d52a, 0x47ae7c81, 0xd3ee3ed1, 0x783002eb, 0x58575655, 5, 3593408605) == 0x2d7d8a3f
    ensures GG(0x783002eb, 0x2d7d8a3f, 0x47ae7c81, 0xd3ee3ed1, 0x7271706f, 9, 38016083) == 0xd1210823
    ensures GG(0xd3ee3ed1, 0xd1210823, 0x2d7d8a3f, 0x47ae7c81, 0x00803938, 14, 3634488961) == 0x4b534dc3
    ensures GG(0x47ae7c81, 0x4b534dc3, 0xd1210823, 0x2d7d8a3f, 0x54535251, 20, 3889429448) == 0x75292030
    ensures GG(0x2d7d8a3f, 0x75292030, 0x4b534dc3, 0xd1210823, 0x6e6d6c6b, 5, 568446438) == 0x9d2a6e33
    ensures GG(0xd1210823, 0x9d2a6e33, 0x75292030, 0x4b534dc3, 0x37363534, 9, 3275163606) == 0x0e8d2e44
    ensures GG(0x4b534dc3, 0x0e8d2e44, 0x9d2a6e33, 0x75292030, 0x504f4e4d, 14, 4107603335) == 0xd473b564
    ensures GG(0x75292030, 0xd473b564, 0x0e8d2e44, 0x9d2a6e33, 0x6a696867, 20, 1163531501) == 0xf2ff6ea0
    ensures GG(0x9d2a6e33, 0xf2ff6ea0, 0xd473b564, 0x0e8d2e44, 0x33323130, 5, 2850285829) == 0x9b085fa9
    ensures GG(0x0e8d2e44, 0x9b085fa9, 0xf2ff6ea0, 0xd473b564, 0x4c4b4a49, 9, 4243563512) == 0x4400a9bd
    ensures GG(0xd473b564, 0x4400a9bd, 0x9b085fa9, 0xf2ff6ea0, 0x66656463, 14, 1735328473) == 0x5993248f
    ensures GG(0xf2ff6ea0, 0x5993248f, 0x4400a9bd, 0x9b085fa9, 0x7a797877, 20, 2368359562) == 0xdd789ecc
  {
  }

  lemma AlnumBlock1Round2(x: seq<word>)
    requires AlnumBlock1(x)
    ensures Steps(1, 16, Quad(0x3cbdcd45, 0x5d38e690, 0xfa148c8a, 0xb8dec763), x) == Quad(0x9b085fa9, 0xdd789ecc, 0x5993248f, 0x4400a9bd)
  {
    hide FF, GG, HH, II, Pick, Turn, Sine, Step, Steps, Four;
    Table2();
    AlnumBlock1Ops2();
    StepsSixteen(1, Quad(0x3cbdcd45, 0x5d38e690, 0xfa148c8a, 0xb8dec763), x);
    FourIs(1, 0, Quad(0x3cbdcd45, 0x5d38e690, 0xfa148c8a, 0xb8dec763), x);
    FourIs(1, 4, Quad(0x04b9d52a, 0x47ae7c81, 0xd3ee3ed1, 0x783002eb), x);
    FourIs(1, 8, Quad(0x2d7d8a3f, 0x75292030, 0x4b534dc3, 0xd1210823), x);
    FourIs(1, 12, Quad(0x9d2a6e33, 0xf2ff6ea0, 0xd473b564, 0x0e8d2e44), x);
  }

  lemma AlnumBlock1Ops3()
    ensures HH(0x9b085fa9, 0xdd789ecc, 0x5993248f, 0x4400a9bd, 0x58575655, 4, 4294588738) == 0x21c8d2b7
    ensures HH(0x4400a9bd, 0x21c8d2b7, 0xdd789ecc, 0x5993248f, 0x6a696867, 11, 2272392833) == 0x1d55a18e
    ensures HH(0x5993248f, 0x1d55a18e, 0x21c8d2b7, 0xdd789ecc, 0x76757473, 16, 1839030562) == 0x056ec119
    ensures HH(0xdd789ecc, 0x056ec119, 0x1d55a18e, 0x21c8d2b7, 0x37363534, 23, 4259657740) == 0x1b9504f8
    ensures HH(0x21c8d2b7, 0x1b9504f8, 0x056ec119, 0x1d55a18e, 0x48474645, 4, 2763975236) == 0x436b7fe9
    ensures HH(0x1d55a18e, 0x436b7fe9, 0x1b9504f8, 0x056ec119, 0x54535251, 11, 1272893353) == 0x075800c1
    ensures HH(0x056ec119, 0x075800c1, 0x436b7fe9, 0x1b9504f8, 0x66656463, 16, 4139469664) == 0xf404c2f6
    ensures HH(0x1b9504f8, 0xf404c2f6, 0x075800c1, 0x436b7fe9, 0x7271706f, 23, 3200236656) == 0xcf0341ed
    ensures HH(0x436b7fe9, 0xcf0341ed, 0xf404c2f6, 0x075800c1, 0x33323130, 4, 681279174) == 0x888e7d8a
    ensures HH(0x075800c1, 0x888e7d8a, 0xcf0341ed, 0xf404c2f6, 0x44434241, 11, 3936430074) == 0xbbdaecd8
    ensures HH(0xf404c2f6, 0xbbdaecd8, 0x888e7d8a, 0xcf0341ed, 0x504f4e4d, 16, 3572445317) == 0xce620273
    ensures HH(0xcf0341ed, 0xce620273, 0xbbdaecd8, 0x888e7d8a, 0x62615a59, 23, 76029189) == 0x047b9419
    ensures HH(0x888e7d8a, 0x047b9419, 0xce620273, 0xbbdaecd8, 0x6e6d6c6b, 4, 3654602809) == 0x2dbee21d
    ensures HH(0xbbdaecd8, 0x2dbee21d, 0x047b9419, 0xce620273, 0x7a797877, 11, 3873151461) == 0xe95c3a43
    ensures HH(0xce620273, 0xe95c3a43, 0x2dbee21d, 0x047b9419, 0x00803938, 16, 530742520) == 0xee46e961
    ensures HH(0x047b9419, 0xee46e961, 0xe95c3a43, 0x2dbee21d, 0x4c4b4a49, 23, 3299628645) == 0xf166f514
  {
  }

  lemma AlnumBlock1Round3(x: seq<word>)
    requires AlnumBlock1(x)
    ensures Steps(2, 16, Quad(0x9b085fa9, 0xdd789ecc, 0x5993248f, 0x4400a9bd), x) == Quad(0x2dbee21d, 0xf166f514, 0xee46e961, 0xe95c3a43)
  {
    hide FF, GG, HH, II, Pick, Turn, Sine, Step, Steps, Four;
    Table3();
    AlnumBlock1Ops3();
    StepsSixteen(2, Quad(0x9b085fa9, 0xdd789ecc, 0x5993248f, 0x4400a9bd), x);
    FourIs(2, 0, Quad(0x9b085fa9, 0xdd789ecc, 0x5993248f, 0x4400a9bd), x);
    FourIs(2, 4, Quad(0x21c8d2b7, 0x1b9504f8, 0x056ec119, 0x1d55a18e), x);
    FourIs(2, 8, Quad(0x436b7fe9, 0xcf0341ed, 0xf404c2f6, 0x075800c1), x);
    FourIs(2, 12, Quad(0x888e7d8a, 0x047b9419, 0xce620273, 0xbbdaecd8), x);
  }

  lemma AlnumBlock1Ops4()
    ensures II(0x2dbee21d, 0xf166f514, 0xee46e961, 0xe95c3a43, 0x44434241, 6, 4096336452) == 0xe47fd4f3
    ensures II(0xe95c3a43, 0xe47fd4f3, 0xf166f514, 0xee46e961, 0x66656463, 10, 1126891415) == 0xfb887751
    ensures II(0xee46e961, 0xfb887751, 0xe47fd4f3, 0xf166f514, 0x37363534, 15, 2878612391) == 0xf22aedcc
    ensures II(0xf166f514, 0xf22aedcc, 0xfb887751, 0xe47fd4f3, 0x58575655, 21, 4237533241) == 0x7a13bc5c
    ensures II(0xe47fd4f3, 0x7a13bc5c, 0xf22aedcc, 0xfb887751, 0x7a797877, 6, 1700485571) == 0xa691d430
    ensures II(0xfb887751, 0xa691d430, 0x7a13bc5c, 0xf22aedcc, 0x504f4e4d, 10, 2399980690) == 0x528452f2
    ensures II(0xf22aedcc, 0x528452f2, 0xa691d430, 0x7a13bc5c, 0x7271706f, 15, 4293915773) == 0x3fc23df6
    ensures II(0x7a13bc5c, 0x3fc23df6, 0x528452f2, 0xa691d430, 0x48474645, 21, 2240044497) == 0xefb0e72f
    ensures II(0xa691d430, 0xefb0e72f, 0x3fc23df6, 0x528452f2, 0x6a696867, 6, 1873313359) == 0x27145703
    ensures II(0x528452f2, 0x27145703, 0xefb0e72f, 0x3fc23df6, 0x00803938, 10, 4264355552) == 0x21a11069
    ensures II(0x3fc23df6, 0x21a11069, 0x27145703, 0xefb0e72f, 0x62615a59, 15, 2734768916) == 0x374fbe79
    ensures II(0xefb0e72f, 0x374fbe79, 0x21a11069, 0x27145703, 0x33323130, 21, 1309151649) == 0x49d9a5b4
    ensures II(0x27145703, 0x49d9a5b4, 0x374fbe79, 0x21a11069, 0x54535251, 6, 4149444226) == 0x1cb80f0a
    ensures II(0x21a11069, 0x1cb80f0a, 0x49d9a5b4, 0x374fbe79, 0x76757473, 10, 3174756917) == 0xea3d3eb4
    ensures II(0x374fbe79, 0xea3d3eb4, 0x1cb80f0a, 0x49d9a5b4, 0x4c4b4a49, 15, 718787259) == 0x10f68731
    ensures II(0x49d9a5b4, 0x10f68731, 0xea3d3eb4, 0x1cb80f0a, 0x6e6d6c6b, 21, 3951481745) == 0xef2e3a46
  {
  }

  lemma AlnumBlock1Round4(x: seq<word>)
    requires AlnumBlock1(x)
    ensures Steps(3, 16, Quad(0x2dbee21d, 0xf166f514, 0xee46e961, 0xe95c3a43), x) == Quad(0x1cb80f0a, 0xef2e3a46, 0x10f68731, 0xea3d3eb4)
  {
    hide FF, GG, HH, II, Pick, Turn, Sine, Step, Steps, Four;
    Table4();
    AlnumBlock1Ops4();
    StepsSixteen(3, Quad(0x2dbee21d, 0xf166f514, 0xee46e961, 0xe95c3a43), x);
    FourIs(3, 0, Quad(0x2dbee21d, 0xf166f514, 0xee46e961, 0xe95c3a43), x);
    FourIs(3, 4, Quad(0xe47fd4f3, 0x7a13bc5c, 0xf22aedcc, 0xfb887751), x);
    FourIs(3, 8, Quad(0xa691d430, 0xefb0e72f, 0x3fc23df6, 0x528452f2), x);
    FourIs(3, 12, Quad(0x27145703, 0x49d9a5b4, 0x374fbe79, 0x21a11069), x);
  }

  lemma AlnumBlock1Compressed(x: seq<word>)
    requires AlnumBlock1(x)
    ensures Compress(Quad(0x67452301, 0xefcdab89, 0x98badcfe, 0x10325476), x) == Quad(0x83fd320b, 0xdefbe5cf, 0xa9b1642f, 0xfa6f932a)
  {
    hide Steps, AlnumBlock1;
    AlnumBlock1Round1(x);
    AlnumBlock1Round2(x);
    AlnumBlock1Round3(x);
    AlnumBlock1Round4(x);
  }

  /** The words of block 2 of the message. */
  predicate AlnumBlock2(x: seq<word>) {
    |x| == 16
    && x[0] == 0x00000000 && x[1] == 0x00000000 && x[2] == 0x00000000 && x[3] == 0x00000000
    && x[4] == 0x00000000 && x[5] == 0x00000000 && x[6] == 0x00000000 && x[7] == 0x00000000
    && x[8] == 0x00000000 && x[9] == 0x00000000 && x[10] == 0x00000000 && x[11] == 0x00000000
    && x[12] == 0x00000000 && x[13] == 0x00000000 && x[14] == 0x000001f0 && x[15] == 0x00000000
  }

  lemma AlnumBlock2Ops1()
    ensures FF(0x83fd320b, 0xdefbe5cf, 0xa9b1642f, 0xfa6f932a, 0x00000000, 7, 3614090360) == 0xeda23ed1
    ensures FF(0xfa6f932a, 0xeda23ed1, 0xdefbe5cf, 0xa9b1642f, 0x00000000, 12, 3905402710) == 0x989939cf
    ensures FF(0xa9b1642f, 0x989939cf, 0xeda23ed1, 0xdefbe5cf, 0x00000000, 17, 606105819) == 0x3c307338
    ensures FF(0xdefbe5cf, 0x3c307338, 0x989939cf, 0xeda23ed1, 0x00000000, 22, 3250441966) == 0xddcf0634
    ensures FF(0xeda23ed1, 0xddcf0634, 0x3c307338, 0x989939cf, 0x00000000, 7, 4118548399) == 0x75144433
    ensures FF(0x989939cf, 0x75144433, 0xddcf0634, 0x3c307338, 0x00000000, 12, 1200080426) == 0xc8875807
    ensures FF(0x3c307338, 0xc8875807, 0x75144433, 0xddcf0634, 0x00000000, 17, 2821735955) == 0xc783cb60
    ensures FF(0xddcf0634, 0xc783cb60, 0xc8875807, 0x75144433, 0x00000000, 22, 4249261313) == 0x99b6b699
    ensures FF(0x75144433, 0x99b6b699, 0xc783cb60, 0xc8875807, 0x00000000, 7, 1770035416) == 0xa60a3f69
    ensures FF(0xc8875807, 0xa60a3f69, 0x99b6b699, 0xc783cb60, 0x00000000, 12, 2336552879) == 0xaa6630be
    ensures FF(0xc783cb60, 0xaa6630be, 0xa60a3f69, 0x99b6b699, 0x00000000, 17, 4294925233) == 0x64db26e9
    ensures FF(0x99b6b699, 0x64db26e9, 0xaa6630be, 0xa60a3f69, 0x00000000, 22, 2304563134) == 0x64cc7c5a
    ensures FF(0xa60a3f69, 0x64cc7c5a, 0x64db26e9, 0xaa6630be, 0x00000000, 7, 1804603682) == 0xa70737da
    ensures FF(0xaa6630be, 0xa70737da, 0x64cc7c5a, 0x64db26e9, 0x00000000, 12, 4254626195) == 0x5473f8a7
    ensures FF(0x64db26e9, 0x5473f8a7, 0xa70737da, 0x64cc7c5a, 0x000001f0, 17, 2792965006) == 0x96f6586e
    ensures FF(0x64cc7c5a, 0x96f6586e, 0x5473f8a7, 0xa70737da, 0x00000000, 22, 1236535329) == 0xa36f556f
  {
  }

  lemma AlnumBlock2Round1(x: seq<word>)
    requires AlnumBlock2(x)
    ensures Steps(0, 16, Quad(0x83fd320b, 0xdefbe5cf, 0xa9b1642f, 0xfa6f932a), x) == Quad(0xa70737da, 0xa36f556f, 0x96f6586e, 0x5473f8a7)
  {
    hide FF, GG, HH, II, Pick, Turn, Sine, Step, Steps, Four;
    Table1();
    AlnumBlock2Ops1();
    StepsSixteen(0, Quad(0x83fd320b, 0xdefbe5cf, 0xa9b1642f, 0xfa6f932a), x);
    FourIs(0, 0, Quad(0x83fd320b, 0xdefbe5cf, 0xa9b1642f, 0xfa6f932a), x);
    FourIs(0, 4, Quad(0xeda23ed1, 0xddcf0634, 0x3c307338, 0x989939cf), x);
    FourIs(0, 8, Quad(0x75144433, 0x99b6b699, 0xc783cb60, 0xc8875807), x);
    FourIs(0, 12, Quad(0xa60a3f69, 0x64cc7c5a, 0x64db26e9, 0xaa6630be), x);
  }

  lemma AlnumBlock2Ops2()
    ensures GG(0xa70737da, 0xa36f556f, 0x96f6586e, 0x5473f8a7, 0x00000000, 5, 4129170786) == 0xa5050ad3
    ensures GG(0x5473f8a7, 0xa5050ad3, 0xa36f556f, 0x96f6586e, 0x00000000, 9, 3225465664) == 0x28776046
    ensures GG(0x96f6586e, 0x28776046, 0xa5050ad3, 0xa36f556f, 0x00000000, 14, 643717713) == 0x27dcd8b4
    ensures GG(0xa36f556f, 0x27dcd8b4, 0x28776046, 0xa5050ad3, 0x00000000, 20, 3921069994) == 0x82b8827c
    ensures GG(0xa5050ad3, 0x82b8827c, 0x27dcd8b4, 0x28776046, 0x00000000, 5, 3593408605) == 0xe04f070c
    ensures GG(0x28776046, 0xe04f070c, 0x82b8827c, 0x27dcd8b4, 0x00000000, 9, 38016083) == 0x2f3cd2a2
    ensures GG(0x27dcd8b4, 0x2f3cd2a2, 0xe04f070c, 0x82b8827c, 0x00000000, 14, 3634488961) == 0xc0d22b61
    ensures GG(0x82b8827c, 0xc0d22b61, 0x2f3cd2a2, 0xe04f070c, 0x00000000, 20, 3889429448) == 0xdf35cb56
    ensures GG(0xe04f070c, 0xdf35cb56, 0xc0d22b61, 0x2f3cd2a2, 0x00000000, 5, 568446438) == 0x242dd210
    ensures GG(0x2f3cd2a2, 0x242dd210, 0xdf35cb56, 0xc0d22b61, 0x000001f0, 9, 3275163606) == 0x576ace33
    ensures GG(0xc0d22b61, 0x576ace33, 0x242dd210, 0xdf35cb56, 0x00000000, 14, 4107603335) == 0x5c295967
    ensures GG(0xdf35cb56, 0x5c295967, 0x576ace33, 0x242dd210, 0x00000000, 20, 1163531501) == 0x2291191a
    ensures GG(0x242dd210, 0x2291191a, 0x5c295967, 0x576ace33, 0x00000000, 5, 2850285829) == 0x24eba695
    ensures GG(0x576ace33, 0x24eba695, 0x2291191a, 0x5c295967, 0x00000000, 9, 4243563512) == 0x4bd0378b
    ensures GG(0x5c295967, 0x4bd0378b, 0x24eba695, 0x2291191a, 0x00000000, 14, 1735328473) == 0x10c42a2f
    ensures GG(0x2291191a, 0x10c42a2f, 0x4bd0378b, 0x24eba695, 0x00000000, 20, 2368359562) == 0x9c03e2e8
  {
  }

  lemma AlnumBlock2Round2(x: seq<word>)
    requires AlnumBlock2(x)
    ensures Steps(1, 16, Quad(0xa70737da, 0xa36f556f, 0x96f6586e, 0x5473f8a7), x) == Quad(0x24eba695, 0x9c03e2e8, 0x10c42a2f, 0x4bd0378b)
  {
    hide FF, GG, HH, II, Pick, Turn, Sine, Step, Steps, Four;
    Table2();
    AlnumBlock2Ops2();
    StepsSixteen(1, Quad(0xa70737da, 0xa36f556f, 0x96f6586e, 0x5473f8a7), x);
    FourIs(1, 0, Quad(0xa70737da, 0xa36f556f, 0x96f6586e, 0x5473f8a7), x);
    FourIs(1, 4, Quad(0xa5050ad3, 0x82b8827c, 0x27dcd8b4, 0x28776046), x);
    FourIs(1, 8, Quad(0xe04f070c, 0xdf35cb56, 0xc0d22b61, 0x2f3cd2a2), x);
    FourIs(1, 12, Quad(0x242dd210, 0x2291191a, 0x5c295967, 0x576ace33), x);
  }

  lemma AlnumBlock2Ops3()
    ensures HH(0x24eba695, 0x9c03e2e8, 0x10c42a2f, 0x4bd0378b, 0x00000000, 4, 4294588738) == 0x5be1d526
    ensures HH(0x4bd0378b, 0x5be1d526, 0x9c03e2e8, 0x10c42a2f, 0x00000000, 11, 2272392833) == 0x9e414279
    ensures HH(0x10c42a2f, 0x9e414279, 0x5be1d526, 0x9c03e2e8, 0x00000000, 16, 1839030562) == 0x9f4a1a7e
    ensures HH(0x9c03e2e8, 0x9f4a1a7e, 0x9e414279, 0x5be1d526, 0x000001f0, 23, 4259657740) == 0xa2448453
    ensures HH(0x5be1d526, 0xa2448453, 0x9f4a1a7e, 0x9e414279, 0x00000000, 4, 2763975236) == 0xe14e403d
    ensures HH(0x9e414279, 0xe14e403d, 0xa2448453, 0x9f4a1a7e, 0x00000000, 11, 1272893353) == 0xe8cfd670
    ensures HH(0x9f4a1a7e, 0xe8cfd670, 0xe14e403d, 0xa2448453, 0x00000000, 16, 4139469664) == 0x60cc183a
    ensures HH(0xa2448453, 0x60cc183a, 0xe8cfd670, 0xe14e403d, 0x00000000, 23, 3200236656) == 0xfe314121
    ensures HH(0xe14e403d, 0xfe314121, 0x60cc183a, 0xe8cfd670, 0x00000000, 4, 681279174) == 0xfff62809
    ensures HH(0xe8cfd670, 0xfff62809, 0xfe314121, 0x60cc183a, 0x00000000, 11, 3936430074) == 0xe37209ac
    ensures HH(0x60cc183a, 0xe37209ac, 0xfff62809, 0xfe314121, 0x00000000, 16, 3572445317) == 0x8cb5221c
    ensures HH(0xfe314121, 0x8cb5221c, 0xe37209ac, 0xfff62809, 0x00000000, 23, 76029189) == 0x7c7e974c
    ensures HH(0xfff62809, 0x7c7e974c, 0x8cb5221c, 0xe37209ac, 0x00000000, 4, 3654602809) == 0x54c9eb3a
    ensures HH(0xe37209ac, 0x54c9eb3a, 0x7c7e974c, 0x8cb5221c, 0x00000000, 11, 3873151461) == 0xd4d9c6ac
    ensures HH(0x8cb5221c, 0xd4d9c6ac, 0x54c9eb3a, 0x7c7e974c, 0x00000000, 16, 530742520) == 0x2ec86f72
    ensures HH(0x7c7e974c, 0x2ec86f72, 0xd4d9c6ac, 0x54c9eb3a, 0x00000000, 23, 3299628645) == 0x79c0710a
  {
  }

  lemma AlnumBlock2Round3(x: seq<word>)
    requires AlnumBlock2(x)
    ensures Steps(2, 16, Quad(0x24eba695, 0x9c03e2e8, 0x10c42a2f, 0x4bd0378b), x) == Quad(0x54c9eb3a, 0x79c0710a, 0x2ec86f72, 0xd4d9c6ac)
  {
    hide FF, GG, HH, II, Pick, Turn, Sine, Step, Steps, Four;
    Table3();
    AlnumBlock2Ops3();
    StepsSixteen(2, Quad(0x24eba695, 0x9c03e2e8, 0x10c42a2f, 0x4bd0378b), x);
    FourIs(2, 0, Quad(0x24eba695, 0x9c03e2e8, 0x10c42a2f, 0x4bd0378b), x);
    FourIs(2, 4, Quad(0x5be1d526, 0xa2448453, 0x9f4a1a7e, 0x9e414279), x);
    FourIs(2, 8, Quad(0xe14e403d, 0xfe314121, 0x60cc183a, 0xe8cfd670), x);
    FourIs(2, 12, Quad(0xfff62809, 0x7c7e974c, 0x8cb5221c, 0xe37209ac), x);
  }

  lemma AlnumBlock2Ops4()
    ensures II(0x54c9eb3a, 0x79c0710a, 0x2ec86f72, 0xd4d9c6ac, 0x00000000, 6, 4096336452) == 0x02095af1
    ensures II(0xd4d9c6ac, 0x02095af1, 0x79c0710a, 0x2ec86f72, 0x00000000, 10, 1126891415) == 0x13d245fd
    ensures II(0x2ec86f72, 0x13d245fd, 0x02095af1, 0x79c0710a, 0x000001f0, 15, 2878612391) == 0xa8dcfe26
    ensures II(0x79c0710a, 0xa8dcfe26, 0x13d245fd, 0x02095af1, 0x00000000, 21, 4237533241) == 0x2ba98e3f
    ensures II(0x02095af1, 0x2ba98e3f, 0xa8dcfe26, 0x13d245fd, 0x00000000, 6, 1700485571) == 0xe126c1aa
    ensures II(0x13d245fd, 0xe126c1aa, 0x2ba98e3f, 0xa8dcfe26, 0x00000000, 10, 2399980690) == 0x96b00fa7
    ensures II(0xa8dcfe26, 0x96b00fa7, 0xe126c1aa, 0x2ba98e3f, 0x00000000, 15, 4293915773) == 0x6f287ff5
    ensures II(0x2ba98e3f, 0x6f287ff5, 0x96b00fa7, 0xe126c1aa, 0x00000000, 21, 2240044497) == 0xfb7bcee0
    ensures II(0xe126c1aa, 0xfb7bcee0, 0x6f287ff5, 0x96b00fa7, 0x00000000, 6, 1873313359) == 0x452c1099
    ensures II(0x96b00fa7, 0x452c1099, 0xfb7bcee0, 0x6f287ff5, 0x00000000, 10, 4264355552) == 0xca801ba6
    ensures II(0x6f287ff5, 0xca801ba6, 0x452c1099, 0xfb7bcee0, 0x00000000, 15, 2734768916) == 0xc197ea8e
    ensures II(0xfb7bcee0, 0xc197ea8e, 0xca801ba6, 0x452c1099, 0x00000000, 21, 1309151649) == 0x5ac74608
    ensures II(0x452c1099, 0x5ac74608, 0xc197ea8e, 0xca801ba6, 0x00000000, 6, 4149444226) == 0x14ae42c6
    ensures II(0xca801ba6, 0x14ae42c6, 0x5ac74608, 0xc197ea8e, 0x00000000, 10, 3174756917) == 0xa52dae75
    ensures II(0xc197ea8e, 0xa52dae75, 0x14ae42c6, 0x5ac74608, 0x00000000, 15, 718787259) == 0x826afd76
    ensures II(0x5ac74608, 0x826afd76, 0xa52dae75, 0x14ae42c6, 0x00000000, 21, 3951481745) == 0x16dd9203
  {
  }

  lemma AlnumBlock2Round4(x: seq<word>)
    requires AlnumBlock2(x)
    ensures Steps(3, 16, Quad(0x54c9eb3a, 0x79c0710a, 0x2ec86f72, 0xd4d9c6ac), x) == Quad(0x14ae42c6, 0x16dd9203, 0x826afd76, 0xa52dae75)
  {
    hide FF, GG, HH, II, Pick, Turn, Sine, Step, Steps, Four;
    Table4();
    AlnumBlock2Ops4();
    StepsSixteen(3, Quad(0x54c9eb3a, 0x79c0710a, 0x2ec86f72, 0xd4d9c6ac), x);
    FourIs(3, 0, Quad(0x54c9eb3a, 0x79c0710a, 0x2ec86f72, 0xd4d9c6ac), x);
    FourIs(3, 4, Quad(0x02095af1, 0x2ba98e3f, 0xa8dcfe26, 0x13d245fd), x);
    FourIs(3, 8, Quad(0xe126c1aa, 0xfb7bcee0, 0x6f287ff5, 0x96b00fa7), x);
    FourIs(3, 12, Quad(0x452c1099, 0x5ac74608, 0xc197ea8e, 0xca801ba6), x);
  }

  lemma AlnumBlock2Compressed(x: seq<word>)
    requires AlnumBlock2(x)
    ensures Compress(Quad(0x83fd320b, 0xdefbe5cf, 0xa9b1642f, 0xfa6f932a), x) == Quad(0x98ab74d1, 0xf5d977d2, 0x2c1c61a5, 0x9f9d419f)
  {
    hide Steps, AlnumBlock2;
    AlnumBlock2Round1(x);
    AlnumBlock2Round2(x);
    AlnumBlock2Round3(x);
    AlnumBlock2Round4(x);
  }

  // ----- the message -----

  /** The capital letters, the small letters, the digits. */
  function Letter(i: nat): octet
    requires i < 62
  {
    if i < 26 then (65 + i) as octet else if i < 52 then (71 + i) as octet else (i - 4) as octet
  }

  function Message(): (m: seq<octet>)
    ensures |m| == 62
  {
    seq(62, i requires 0 <= i < 62 => Letter(i))
  }

  lemma PaddedOctets()
    ensures var p := Padded(Message());
            && |p| == 128 && (forall i :: 0 <= i < 62 ==> p[i] == Letter(i)) && p[62] == 0x80
            && (forall i :: 63 <= i < 120 ==> p[i] == 0)
            && (forall i :: 120 <= i < 128 ==> p[i] == LengthOctets(62)[i - 120])
  {
    hide LengthOctets;
    var m := Message();
    assert FillerLength(62) == 58;
    assert Padded(m) == m + Filler(58) + LengthOctets(62);
  }

  lemma SplitIs()
    ensures Split(496) == [0xF0, 1, 0, 0] && Split(0) == [0, 0, 0, 0]
  {
  }

  lemma LengthIs()
    ensures LengthOctets(62) == [0xF0, 1, 0, 0, 0, 0, 0, 0]
  {
    SplitIs();
    hide Split;
    assert (8 * 62 % WORD) as word == 496 && (8 * 62 / WORD % WORD) as word == 0;
    assert [0xF0, 1, 0, 0] + [0, 0, 0, 0] == [0xF0, 1, 0, 0, 0, 0, 0, 0];
  }

  ghost predicate Octets1(bs: seq<octet>) {
    |bs| == 64 && (forall i :: 0 <= i < 62 ==> bs[i] == Letter(i)) && bs[62] == 0x80 && bs[63] == 0
  }

  ghost predicate Octets2(bs: seq<octet>) {
    |bs| == 64 && (forall i :: 0 <= i < 56 ==> bs[i] == 0) && bs[56] == 0xF0 && bs[57] == 1 &&
    forall i :: 58 <= i < 64 ==> bs[i] == 0
  }

  lemma Words1From0(bs: seq<octet>)
    requires Octets1(bs)
    ensures WordAt(bs, 0) == 0x44434241 && WordAt(bs, 1) == 0x48474645 && WordAt(bs, 2) == 0x4c4b4a49 && WordAt(bs, 3) == 0x504f4e4d
  {
    assert bs[0] == 65 && bs[1] == 66 && bs[2] == 67 && bs[3] == 68;
    assert bs[4] == 69 && bs[5] == 70 && bs[6] == 71 && bs[7] == 72;
    assert bs[8] == 73 && bs[9] == 74 && bs[10] == 75 && bs[11] == 76;
    assert bs[12] == 77 && bs[13] == 78 && bs[14] == 79 && bs[15] == 80;
    hide Octets1, Letter;
  }

  lemma Words1From4(bs: seq<octet>)
    requires Octets1(bs)
    ensures WordAt(bs, 4) == 0x54535251 && WordAt(bs, 5) == 0x58575655 && WordAt(bs, 6) == 0x62615a59 && WordAt(bs, 7) == 0x66656463
  {
    assert bs[16] == 81 && bs[17] == 82 && bs[18] == 83 && bs[19] == 84;
    assert bs[20] == 85 && bs[21] == 86 && bs[22] == 87 && bs[23] == 88;
    assert bs[24] == 89 && bs[25] == 90 && bs[26] == 97 && bs[27] == 98;
    assert bs[28] == 99 && bs[29] == 100 && bs[30] == 101 && bs[31] == 102;
    hide Octets1, Letter;
  }

  lemma Words1From8(bs: seq<octet>)
    requires Octets1(bs)
    ensures WordAt(bs, 8) == 0x6a696867 && WordAt(bs, 9) == 0x6e6d6c6b && WordAt(bs, 10) == 0x7271706f && WordAt(bs, 11) == 0x76757473
  {
    assert bs[32] == 103 && bs[33] == 104 && bs[34] == 105 && bs[35] == 106;
    assert bs[36] == 107 && bs[37] == 108 && bs[38] == 109 && bs[39] == 110;
    assert bs[40] == 111 && bs[41] == 112 && bs[42] == 113 && bs[43] == 114;
    assert bs[44] == 115 && bs[45] == 116 && bs[46] == 117 && bs[47] == 118;
    hide Octets1, Letter;
  }

  lemma Words1From12(bs: seq<octet>)
    requires Octets1(bs)
    ensures WordAt(bs, 12) == 0x7a797877 && WordAt(bs, 13) == 0x33323130 && WordAt(bs, 14) == 0x37363534 && WordAt(bs, 15) == 0x00803938
  {
    assert bs[48] == 119 && bs[49] == 120 && bs[50] == 121 && bs[51] == 122;
    assert bs[52] == 48 && bs[53] == 49 && bs[54] == 50 && bs[55] == 51;
    assert bs[56] == 52 && bs[57] == 53 && bs[58] == 54 && bs[59] == 55;
    assert bs[60] == 56 && bs[61] == 57 && bs[62] == 128 && bs[63] == 0;
    hide Octets1, Letter;
  }

  lemma Words2From0(bs: seq<octet>)
    requires Octets2(bs)
    ensures WordAt(bs, 0) == 0x00000000 && WordAt(bs, 1) == 0x00000000 && WordAt(bs, 2) == 0x00000000 && WordAt(bs, 3) == 0x00000000
  {
    assert bs[0] == 0 && bs[1] == 0 && bs[2] == 0 && bs[3] == 0;
    assert bs[4] == 0 && bs[5] == 0 && bs[6] == 0 && bs[7] == 0;
    assert bs[8] == 0 && bs[9] == 0 && bs[10] == 0 && bs[11] == 0;
    assert bs[12] == 0 && bs[13] == 0 && bs[14] == 0 && bs[15] == 0;
    hide Octets2, Letter;
  }

  lemma Words2From4(bs: seq<octet>)
    requires Octets2(bs)
    ensures WordAt(bs, 4) == 0x00000000 && WordAt(bs, 5) == 0x00000000 && WordAt(bs, 6) == 0x00000000 && WordAt(bs, 7) == 0x00000000
  {
    assert bs[16] == 0 && bs[17] == 0 && bs[18] == 0 && bs[19] == 0;
    assert bs[20] == 0 && bs[21] == 0 && bs[22] == 0 && bs[23] == 0;
    assert bs[24] == 0 && bs[25] == 0 && bs[26] == 0 && bs[27] == 0;
    assert bs[28] == 0 && bs[29] == 0 && bs[30] == 0 && bs[31] == 0;
    hide Octets2, Letter;
  }

  lemma Words2From8(bs: seq<octet>)
    requires Octets2(bs)
    ensures WordAt(bs, 8) == 0x00000000 && WordAt(bs, 9) == 0x00000000 && WordAt(bs, 10) == 0x00000000 && WordAt(bs, 11) == 0x00000000
  {
    assert bs[32] == 0 && bs[33] == 0 && bs[34] == 0 && bs[35] == 0;
    assert bs[36] == 0 && bs[37] == 0 && bs[38] == 0 && bs[39] == 0;
    assert bs[40] == 0 && bs[41] == 0 && bs[42] == 0 && bs[43] == 0;
    assert bs[44] == 0 && bs[45] == 0 && bs[46] == 0 && bs[47] == 0;
    hide Octets2, Letter;
  }

  lemma Words2From12(bs: seq<octet>)
    requires Octets2(bs)
    ensures WordAt(bs, 12) == 0x00000000 && WordAt(bs, 13) == 0x00000000 && WordAt(bs, 14) == 0x000001f0 && WordAt(bs, 15) == 0x00000000
  {
    assert bs[48] == 0 && bs[49] == 0 && bs[50] == 0 && bs[51] == 0;
    assert bs[52] == 0 && bs[53] == 0 && bs[54] == 0 && bs[55] == 0;
    assert bs[56] == 240 && bs[57] == 1 && bs[58] == 0 && bs[59] == 0;
    assert bs[60] == 0 && bs[61] == 0 && bs[62] == 0 && bs[63] == 0;
    hide Octets2, Letter;
  }

  lemma FirstBlock()
    ensures AlnumBlock1(Words(Padded(Message())[0..64]))
  {
    PaddedOctets();
    hide Padded, Message, Join, Letter;
    var bs := Padded(Message())[0..64];
    assert Octets1(bs);
    hide Octets1;
    Words1From0(bs);
    Words1From4(bs);
    Words1From8(bs);
    Words1From12(bs);
    hide WordAt;
  }

  lemma SecondBlock()
    ensures AlnumBlock2(Words(Padded(Message())[64..128]))
  {
    PaddedOctets();
    LengthIs();
    hide Padded, Message, Join, LengthOctets, Letter;
    var bs := Padded(Message())[64..128];
    assert Octets2(bs);
    hide Octets2;
    Words2From0(bs);
    Words2From4(bs);
    Words2From8(bs);
    Words2From12(bs);
    hide WordAt;
  }

  lemma DigestOctets()
    ensures var q := Quad(0x98ab74d1, 0xf5d977d2, 0x2c1c61a5, 0x9f9d419f);
            Split(q.a) + Split(q.b) + Split(q.c) + Split(q.d) == [0xd1, 0x74, 0xab, 0x98, 0xd2, 0x77, 0xd9, 0xf5, 0xa5, 0x61, 0x1c, 0x2c, 0x9f, 0x41, 0x9d, 0x9f]
  {
  }

  /** The digest of the letters and digits is the one the standard gives. */
  lemma KnownDigest()
    ensures Digest(Message()) == [0xd1, 0x74, 0xab, 0x98, 0xd2, 0x77, 0xd9, 0xf5, 0xa5, 0x61, 0x1c, 0x2c, 0x9f, 0x41, 0x9d, 0x9f]
  {
    PaddedOctets();
    FirstBlock();
    SecondBlock();
    DigestOctets();
    var all := Padded(Message());
    hide Padded, Message, Compress, Words, AlnumBlock1, AlnumBlock2, Split;
    AlnumBlock1Compressed(Words(all[0..64]));
    AlnumBlock2Compressed(Words(all[64..128]));
    assert Chain(1, all) == Quad(0x83fd320b, 0xdefbe5cf, 0xa9b1642f, 0xfa6f932a);
    assert Chain(2, all) == Quad(0x98ab74d1, 0xf5d977d2, 0x2c1c61a5, 0x9f9d419f);
  }
}
