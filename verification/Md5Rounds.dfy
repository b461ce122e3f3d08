/** The MD5 compression of one block (section 3.4 of RFC 1321): the unrolled rounds compute the table-driven ones. */
module Md5Rounds {

  type word = bv32

  datatype Quad = Quad(a: word, b: word, c: word, d: word)

  function F(x: word, y: word, z: word): word { (x & y) | (!x & z) }
  function G(x: word, y: word, z: word): word { (x & z) | (y & !z) }
  function H(x: word, y: word, z: word): word { (x ^ y) ^ z }
  function I(x: word, y: word, z: word): word { y ^ (x | !z) }

  function Rotate(x: word, n: nat): word
    requires n <= 32
  {
    (x << n) | (x >> (32 - n))
  }

  function Mix(f: word, a: word, b: word, x: word, s: nat, t: word): word
    requires s <= 32
  {
    Rotate(a + (f + x + t), s) + b
  }

  function FF(a: word, b: word, c: word, d: word, x: word, s: nat, t: word): word
    requires s <= 32
  {
    Mix(F(b, c, d), a, b, x, s, t)
  }

  function GG(a: word, b: word, c: word, d: word, x: word, s: nat, t: word): word
    requires s <= 32
  {
    Mix(G(b, c, d), a, b, x, s, t)
  }

  function HH(a: word, b: word, c: word, d: word, x: word, s: nat, t: word): word
    requires s <= 32
  {
    Mix(H(b, c, d), a, b, x, s, t)
  }

  function II(a: word, b: word, c: word, d: word, x: word, s: nat, t: word): word
    requires s <= 32
  {
    Mix(I(b, c, d), a, b, x, s, t)
  }

  // ----- the rounds as the standard tables them -----

  /** The word a step takes: every word in order, then by fives, by threes and by sevens. */
  function Pick(round: nat, i: nat): nat {
    match round
    case 0 => i % 16
    case 1 => (1 + 5 * i) % 16
    case 2 => (5 + 3 * i) % 16
    case _ => (7 * i) % 16
  }

  function Turn(round: nat, i: nat): (s: nat)
    ensures s <= 32
  {
    match (round, i % 4)
    case (0, 0) => 7
    case (0, 1) => 12
    case (0, 2) => 17
    case (0, 3) => 22
    case (1, 0) => 5
    case (1, 1) => 9
    case (1, 2) => 14
    case (1, 3) => 20
    case (2, 0) => 4
    case (2, 1) => 11
    case (2, 2) => 16
    case (2, 3) => 23
    case (_, 0) => 6
    case (_, 1) => 10
    case (_, 2) => 15
    case (_, _) => 21
  }

  /** The sine table, a row for each round. */
  function Sine1(i: nat): word {
    match i
    case 0 => 3614090360
    case 1 => 3905402710
    case 2 => 606105819
    case 3 => 3250441966
    case 4 => 4118548399
    case 5 => 1200080426
    case 6 => 2821735955
    case 7 => 4249261313
    case 8 => 1770035416
    case 9 => 2336552879
    case 10 => 4294925233
    case 11 => 2304563134
    case 12 => 1804603682
    case 13 => 4254626195
    case 14 => 2792965006
    case _ => 1236535329
  }

  function Sine2(i: nat): word {
    match i
    case 0 => 4129170786
    case 1 => 3225465664
    case 2 => 643717713
    case 3 => 3921069994
    case 4 => 3593408605
    case 5 => 38016083
    case 6 => 3634488961
    case 7 => 3889429448
    case 8 => 568446438
    case 9 => 3275163606
    case 10 => 4107603335
    case 11 => 1163531501
    case 12 => 2850285829
    case 13 => 4243563512
    case 14 => 1735328473
    case _ => 2368359562
  }

  function Sine3(i: nat): word {
    match i
    case 0 => 4294588738
    case 1 => 2272392833
    case 2 => 1839030562
    case 3 => 4259657740
    case 4 => 2763975236
    case 5 => 1272893353
    case 6 => 4139469664
    case 7 => 3200236656
    case 8 => 681279174
    case 9 => 3936430074
    case 10 => 3572445317
    case 11 => 76029189
    case 12 => 3654602809
    case 13 => 3873151461
    case 14 => 530742520
    case _ => 3299628645
  }

  function Sine4(i: nat): word {
    match i
    case 0 => 4096336452
    case 1 => 1126891415
    case 2 => 2878612391
    case 3 => 4237533241
    case 4 => 1700485571
    case 5 => 2399980690
    case 6 => 4293915773
    case 7 => 2240044497
    case 8 => 1873313359
    case 9 => 4264355552
    case 10 => 2734768916
    case 11 => 1309151649
    case 12 => 4149444226
    case 13 => 3174756917
    case 14 => 718787259
    case _ => 3951481745
  }

  function Sine(round: nat, i: nat): word {
    match round
    case 0 => Sine1(i)
    case 1 => Sine2(i)
    case 2 => Sine3(i)
    case _ => Sine4(i)
  }

  function Op(round: nat, a: word, b: word, c: word, d: word, x: word, s: nat, t: word): word
    requires s <= 32
  {
    match round
    case 0 => FF(a, b, c, d, x, s, t)
    case 1 => GG(a, b, c, d, x, s, t)
    case 2 => HH(a, b, c, d, x, s, t)
    case _ => II(a, b, c, d, x, s, t)
  }

  /** One step: the four words move along, the oldest is replaced. */
  function Step(round: nat, i: nat, q: Quad, x: seq<word>): Quad
    requires |x| == 16
  {
    Quad(q.d, Op(round, q.a, q.b, q.c, q.d, x[Pick(round, i)], Turn(round, i), Sine(round, i)), q.b, q.c)
  }

  /** The first i steps of a round. */
  function Steps(round: nat, i: nat, q: Quad, x: seq<word>): Quad
    requires |x| == 16
  {
    if i == 0 then q else Step(round, i - 1, Steps(round, i - 1, q, x), x)
  }

  function Rounds(q: Quad, x: seq<word>): Quad
    requires |x| == 16
  {
    Steps(3, 16, Steps(2, 16, Steps(1, 16, Steps(0, 16, q, x), x), x), x)
  }

  function Add(p: Quad, q: Quad): Quad { Quad(p.a + q.a, p.b + q.b, p.c + q.c, p.d + q.d) }

  /** The compression of one block. */
  function Compress(q: Quad, x: seq<word>): Quad
    requires |x| == 16
  {
    Add(q, Rounds(q, x))
  }

  // ----- the unrolled rounds -----

  function Four(round: nat, i: nat, q: Quad, x: seq<word>): Quad
    requires |x| == 16
  {
    Step(round, i + 3, Step(round, i + 2, Step(round, i + 1, Step(round, i, q, x), x), x), x)
  }

  lemma StepsFour(round: nat, i: nat, q: Quad, x: seq<word>)
    requires |x| == 16
    ensures Steps(round, i + 4, q, x) == Four(round, i, Steps(round, i, q, x), x)
  {
    hide Step;
    assert Steps(round, i + 2, q, x) == Step(round, i + 1, Step(round, i, Steps(round, i, q, x), x), x);
  }

  lemma StepsSixteen(round: nat, q: Quad, x: seq<word>)
    requires |x| == 16
    ensures Steps(round, 16, q, x) == Four(round, 12, Four(round, 8, Four(round, 4, Four(round, 0, q, x), x), x), x)
  {
    hide Four, Step;
    StepsFour(round, 0, q, x);
    StepsFour(round, 4, q, x);
    StepsFour(round, 8, q, x);
    StepsFour(round, 12, q, x);
  }

  /** Four steps bring every word back to its place. */
  lemma FourIs(round: nat, i: nat, q: Quad, x: seq<word>)
    requires |x| == 16
    ensures
      var a := Op(round, q.a, q.b, q.c, q.d, x[Pick(round, i)], Turn(round, i), Sine(round, i));
      var d := Op(round, q.d, a, q.b, q.c, x[Pick(round, i + 1)], Turn(round, i + 1), Sine(round, i + 1));
      var c := Op(round, q.c, d, a, q.b, x[Pick(round, i + 2)], Turn(round, i + 2), Sine(round, i + 2));
      var b := Op(round, q.b, c, d, a, x[Pick(round, i + 3)], Turn(round, i + 3), Sine(round, i + 3));
      Four(round, i, q, x) == Quad(a, b, c, d)
  {
    hide Op, Pick, Turn, Sine;
  }

  lemma Table1()
    ensures forall i :: Sine(0, i) == Sine1(i)
    ensures Pick(0, 0) == 0 && Turn(0, 0) == 7
    ensures Pick(0, 1) == 1 && Turn(0, 1) == 12
    ensures Pick(0, 2) == 2 && Turn(0, 2) == 17
    ensures Pick(0, 3) == 3 && Turn(0, 3) == 22
    ensures Pick(0, 4) == 4 && Turn(0, 4) == 7
    ensures Pick(0, 5) == 5 && Turn(0, 5) == 12
    ensures Pick(0, 6) == 6 && Turn(0, 6) == 17
    ensures Pick(0, 7) == 7 && Turn(0, 7) == 22
    ensures Pick(0, 8) == 8 && Turn(0, 8) == 7
    ensures Pick(0, 9) == 9 && Turn(0, 9) == 12
    ensures Pick(0, 10) == 10 && Turn(0, 10) == 17
    ensures Pick(0, 11) == 11 && Turn(0, 11) == 22
    ensures Pick(0, 12) == 12 && Turn(0, 12) == 7
    ensures Pick(0, 13) == 13 && Turn(0, 13) == 12
    ensures Pick(0, 14) == 14 && Turn(0, 14) == 17
    ensures Pick(0, 15) == 15 && Turn(0, 15) == 22
  {
  }

  method Round1(q: Quad, x: seq<word>) returns (r: Quad)
    requires |x| == 16
    ensures r == Steps(0, 16, q, x)
  {
    hide FF, GG, HH, II, Pick, Turn, Sine, Step, Steps, Four;
    Table1();
    var a, b, c, d := q.a, q.b, q.c, q.d;
    ghost var q0 := Quad(a, b, c, d);
    a := FF(a, b, c, d, x[0], 7, 3614090360);
    d := FF(d, a, b, c, x[1], 12, 3905402710);
    c := FF(c, d, a, b, x[2], 17, 606105819);
    b := FF(b, c, d, a, x[3], 22, 3250441966);
    FourIs(0, 0, q0, x);
    assert Quad(a, b, c, d) == Four(0, 0, q0, x);
    ghost var q4 := Quad(a, b, c, d);
    a := FF(a, b, c, d, x[4], 7, 4118548399);
    d := FF(d, a, b, c, x[5], 12, 1200080426);
    c := FF(c, d, a, b, x[6], 17, 2821735955);
    b := FF(b, c, d, a, x[7], 22, 4249261313);
    FourIs(0, 4, q4, x);
    assert Quad(a, b, c, d) == Four(0, 4, q4, x);
    ghost var q8 := Quad(a, b, c, d);
    a := FF(a, b, c, d, x[8], 7, 1770035416);
    d := FF(d, a, b, c, x[9], 12, 2336552879);
    c := FF(c, d, a, b, x[10], 17, 4294925233);
    b := FF(b, c, d, a, x[11], 22, 2304563134);
    FourIs(0, 8, q8, x);
    assert Quad(a, b, c, d) == Four(0, 8, q8, x);
    ghost var q12 := Quad(a, b, c, d);
    a := FF(a, b, c, d, x[12], 7, 1804603682);
    d := FF(d, a, b, c, x[13], 12, 4254626195);
    c := FF(c, d, a, b, x[14], 17, 2792965006);
    b := FF(b, c, d, a, x[15], 22, 1236535329);
    FourIs(0, 12, q12, x);
    assert Quad(a, b, c, d) == Four(0, 12, q12, x);
    StepsSixteen(0, q, x);
    r := Quad(a, b, c, d);
  }

  lemma Table2()
    ensures forall i :: Sine(1, i) == Sine2(i)
    ensures Pick(1, 0) == 1 && Turn(1, 0) == 5
    ensures Pick(1, 1) == 6 && Turn(1, 1) == 9
    ensures Pick(1, 2) == 11 && Turn(1, 2) == 14
    ensures Pick(1, 3) == 0 && Turn(1, 3) == 20
    ensures Pick(1, 4) == 5 && Turn(1, 4) == 5
    ensures Pick(1, 5) == 10 && Turn(1, 5) == 9
    ensures Pick(1, 6) == 15 && Turn(1, 6) == 14
    ensures Pick(1, 7) == 4 && Turn(1, 7) == 20
    ensures Pick(1, 8) == 9 && Turn(1, 8) == 5
    ensures Pick(1, 9) == 14 && Turn(1, 9) == 9
    ensures Pick(1, 10) == 3 && Turn(1, 10) == 14
    ensures Pick(1, 11) == 8 && Turn(1, 11) == 20
    ensures Pick(1, 12) == 13 && Turn(1, 12) == 5
    ensures Pick(1, 13) == 2 && Turn(1, 13) == 9
    ensures Pick(1, 14) == 7 && Turn(1, 14) == 14
    ensures Pick(1, 15) == 12 && Turn(1, 15) == 20
  {
  }

  method Round2(q: Quad, x: seq<word>) returns (r: Quad)
    requires |x| == 16
    ensures r == Steps(1, 16, q, x)
  {
    hide FF, GG, HH, II, Pick, Turn, Sine, Step, Steps, Four;
    Table2();
    var a, b, c, d := q.a, q.b, q.c, q.d;
    ghost var q0 := Quad(a, b, c, d);
    a := GG(a, b, c, d, x[1], 5, 4129170786);
    d := GG(d, a, b, c, x[6], 9, 3225465664);
    c := GG(c, d, a, b, x[11], 14, 643717713);
    b := GG(b, c, d, a, x[0], 20, 3921069994);
    FourIs(1, 0, q0, x);
    assert Quad(a, b, c, d) == Four(1, 0, q0, x);
    ghost var q4 := Quad(a, b, c, d);
    a := GG(a, b, c, d, x[5], 5, 3593408605);
    d := GG(d, a, b, c, x[10], 9, 38016083);
    c := GG(c, d, a, b, x[15], 14, 3634488961);
    b := GG(b, c, d, a, x[4], 20, 3889429448);
    FourIs(1, 4, q4, x);
    assert Quad(a, b, c, d) == Four(1, 4, q4, x);
    ghost var q8 := Quad(a, b, c, d);
    a := GG(a, b, c, d, x[9], 5, 568446438);
    d := GG(d, a, b, c, x[14], 9, 3275163606);
    c := GG(c, d, a, b, x[3], 14, 4107603335);
    b := GG(b, c, d, a, x[8], 20, 1163531501);
    FourIs(1, 8, q8, x);
    assert Quad(a, b, c, d) == Four(1, 8, q8, x);
    ghost var q12 := Quad(a, b, c, d);
    a := GG(a, b, c, d, x[13], 5, 2850285829);
    d := GG(d, a, b, c, x[2], 9, 4243563512);
    c := GG(c, d, a, b, x[7], 14, 1735328473);
    b := GG(b, c, d, a, x[12], 20, 2368359562);
    FourIs(1, 12, q12, x);
    assert Quad(a, b, c, d) == Four(1, 12, q12, x);
    StepsSixteen(1, q, x);
    r := Quad(a, b, c, d);
  }

  lemma Table3()
    ensures forall i :: Sine(2, i) == Sine3(i)
    ensures Pick(2, 0) == 5 && Turn(2, 0) == 4
    ensures Pick(2, 1) == 8 && Turn(2, 1) == 11
    ensures Pick(2, 2) == 11 && Turn(2, 2) == 16
    ensures Pick(2, 3) == 14 && Turn(2, 3) == 23
    ensures Pick(2, 4) == 1 && Turn(2, 4) == 4
    ensures Pick(2, 5) == 4 && Turn(2, 5) == 11
    ensures Pick(2, 6) == 7 && Turn(2, 6) == 16
    ensures Pick(2, 7) == 10 && Turn(2, 7) == 23
    ensures Pick(2, 8) == 13 && Turn(2, 8) == 4
    ensures Pick(2, 9) == 0 && Turn(2, 9) == 11
    ensures Pick(2, 10) == 3 && Turn(2, 10) == 16
    ensures Pick(2, 11) == 6 && Turn(2, 11) == 23
    ensures Pick(2, 12) == 9 && Turn(2, 12) == 4
    ensures Pick(2, 13) == 12 && Turn(2, 13) == 11
    ensures Pick(2, 14) == 15 && Turn(2, 14) == 16
    ensures Pick(2, 15) == 2 && Turn(2, 15) == 23
  {
  }

  method Round3(q: Quad, x: seq<word>) returns (r: Quad)
    requires |x| == 16
    ensures r == Steps(2, 16, q, x)
  {
    hide FF, GG, HH, II, Pick, Turn, Sine, Step, Steps, Four;
    Table3();
    var a, b, c, d := q.a, q.b, q.c, q.d;
    ghost var q0 := Quad(a, b, c, d);
    a := HH(a, b, c, d, x[5], 4, 4294588738);
    d := HH(d, a, b, c, x[8], 11, 2272392833);
    c := HH(c, d, a, b, x[11], 16, 1839030562);
    b := HH(b, c, d, a, x[14], 23, 4259657740);
    FourIs(2, 0, q0, x);
    assert Quad(a, b, c, d) == Four(2, 0, q0, x);
    ghost var q4 := Quad(a, b, c, d);
    a := HH(a, b, c, d, x[1], 4, 2763975236);
    d := HH(d, a, b, c, x[4], 11, 1272893353);
    c := HH(c, d, a, b, x[7], 16, 4139469664);
    b := HH(b, c, d, a, x[10], 23, 3200236656);
    FourIs(2, 4, q4, x);
    assert Quad(a, b, c, d) == Four(2, 4, q4, x);
    ghost var q8 := Quad(a, b, c, d);
    a := HH(a, b, c, d, x[13], 4, 681279174);
    d := HH(d, a, b, c, x[0], 11, 3936430074);
    c := HH(c, d, a, b, x[3], 16, 3572445317);
    b := HH(b, c, d, a, x[6], 23, 76029189);
    FourIs(2, 8, q8, x);
    assert Quad(a, b, c, d) == Four(2, 8, q8, x);
    ghost var q12 := Quad(a, b, c, d);
    a := HH(a, b, c, d, x[9], 4, 3654602809);
    d := HH(d, a, b, c, x[12], 11, 3873151461);
    c := HH(c, d, a, b, x[15], 16, 530742520);
    b := HH(b, c, d, a, x[2], 23, 3299628645);
    FourIs(2, 12, q12, x);
    assert Quad(a, b, c, d) == Four(2, 12, q12, x);
    StepsSixteen(2, q, x);
    r := Quad(a, b, c, d);
  }

  lemma Table4()
    ensures forall i :: Sine(3, i) == Sine4(i)
    ensures Pick(3, 0) == 0 && Turn(3, 0) == 6
    ensures Pick(3, 1) == 7 && Turn(3, 1) == 10
    ensures Pick(3, 2) == 14 && Turn(3, 2) == 15
    ensures Pick(3, 3) == 5 && Turn(3, 3) == 21
    ensures Pick(3, 4) == 12 && Turn(3, 4) == 6
    ensures Pick(3, 5) == 3 && Turn(3, 5) == 10
    ensures Pick(3, 6) == 10 && Turn(3, 6) == 15
    ensures Pick(3, 7) == 1 && Turn(3, 7) == 21
    ensures Pick(3, 8) == 8 && Turn(3, 8) == 6
    ensures Pick(3, 9) == 15 && Turn(3, 9) == 10
    ensures Pick(3, 10) == 6 && Turn(3, 10) == 15
    ensures Pick(3, 11) == 13 && Turn(3, 11) == 21
    ensures Pick(3, 12) == 4 && Turn(3, 12) == 6
    ensures Pick(3, 13) == 11 && Turn(3, 13) == 10
    ensures Pick(3, 14) == 2 && Turn(3, 14) == 15
    ensures Pick(3, 15) == 9 && Turn(3, 15) == 21
  {
  }

  method Round4(q: Quad, x: seq<word>) returns (r: Quad)
    requires |x| == 16
    ensures r == Steps(3, 16, q, x)
  {
    hide FF, GG, HH, II, Pick, Turn, Sine, Step, Steps, Four;
    Table4();
    var a, b, c, d := q.a, q.b, q.c, q.d;
    ghost var q0 := Quad(a, b, c, d);
    a := II(a, b, c, d, x[0], 6, 4096336452);
    d := II(d, a, b, c, x[7], 10, 1126891415);
    c := II(c, d, a, b, x[14], 15, 2878612391);
    b := II(b, c, d, a, x[5], 21, 4237533241);
    FourIs(3, 0, q0, x);
    assert Quad(a, b, c, d) == Four(3, 0, q0, x);
    ghost var q4 := Quad(a, b, c, d);
    a := II(a, b, c, d, x[12], 6, 1700485571);
    d := II(d, a, b, c, x[3], 10, 2399980690);
    c := II(c, d, a, b, x[10], 15, 4293915773);
    b := II(b, c, d, a, x[1], 21, 2240044497);
    FourIs(3, 4, q4, x);
    assert Quad(a, b, c, d) == Four(3, 4, q4, x);
    ghost var q8 := Quad(a, b, c, d);
    a := II(a, b, c, d, x[8], 6, 1873313359);
    d := II(d, a, b, c, x[15], 10, 4264355552);
    c := II(c, d, a, b, x[6], 15, 2734768916);
    b := II(b, c, d, a, x[13], 21, 1309151649);
    FourIs(3, 8, q8, x);
    assert Quad(a, b, c, d) == Four(3, 8, q8, x);
    ghost var q12 := Quad(a, b, c, d);
    a := II(a, b, c, d, x[4], 6, 4149444226);
    d := II(d, a, b, c, x[11], 10, 3174756917);
    c := II(c, d, a, b, x[2], 15, 718787259);
    b := II(b, c, d, a, x[9], 21, 3951481745);
    FourIs(3, 12, q12, x);
    assert Quad(a, b, c, d) == Four(3, 12, q12, x);
    StepsSixteen(3, q, x);
    r := Quad(a, b, c, d);
  }

  method AllRounds(q: Quad, x: seq<word>) returns (r: Quad)
    requires |x| == 16
    ensures r == Rounds(q, x)
  {
    hide Steps;
    r := Round1(q, x);
    r := Round2(r, x);
    r := Round3(r, x);
    r := Round4(r, x);
  }

  /** Transform: the state of a digest after one more block. */
  method Transform(buf: array<word>, x: seq<word>)
    requires buf.Length == 4 && |x| == 16
    modifies buf
    ensures AsQuad(buf[..]) == Compress(AsQuad(old(buf[..])), x)
  {
    hide Rounds;
    var q := Quad(buf[0], buf[1], buf[2], buf[3]);
    var r := AllRounds(q, x);
    var sum := Add(q, r);
    hide Add;
    buf[0], buf[1], buf[2], buf[3] := sum.a, sum.b, sum.c, sum.d;
  }

  function AsQuad(s: seq<word>): Quad
    requires |s| == 4
  {
    Quad(s[0], s[1], s[2], s[3])
  }
}
