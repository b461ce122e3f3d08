/** Row order of interlaced GIF images (Appendix E of the GIF89a specification): the encoder walks
    the rows in four passes, the decoder computes where each row was stored. */
module Interlace {

  const EOF: int := -1

  /** Rows stored before passes two, three and four. */
  function Pass2(h: nat): nat { (h + 7) / 8 }
  function Pass3(h: nat): nat { Pass2(h) + (h + 3) / 8 }
  function Pass4(h: nat): nat { Pass3(h) + (h + 1) / 4 }

  /** get_interlaced_row: the stored position of image row `r`. */
  function Irow(r: nat, h: nat): nat {
    match r % 8
    case 0 => r / 8
    case 4 => r / 8 + Pass2(h)
    case 2 => r / 4 + Pass3(h)
    case 6 => r / 4 + Pass3(h)
    case _ => r / 2 + Pass4(h)
  }

  /** The image row stored at position `k`: every eighth row from 0, every eighth from 4, every
      fourth from 2, every second from 1. */
  function RowAt(k: nat, h: nat): nat {
    if k < Pass2(h) then 8 * k
    else if k < Pass3(h) then 8 * (k - Pass2(h)) + 4
    else if k < Pass4(h) then 4 * (k - Pass3(h)) + 2
    else 2 * (k - Pass4(h)) + 1
  }

  lemma PassesFill(h: nat)
    ensures Pass4(h) + h / 2 == h
  {
    var q, r := h / 8, h % 8;
    assert h == 8 * q + r;
    assert (h + 7) / 8 == q + if r >= 1 then 1 else 0;
    assert (h + 3) / 8 == q + if r >= 5 then 1 else 0;
    assert (h + 1) / 4 == 2 * q + if r == 7 then 2 else if r >= 3 then 1 else 0;
    assert h / 2 == 4 * q + if r >= 6 then 3 else if r >= 4 then 2 else if r >= 2 then 1 else 0;
  }

  /** For every height the decoder's formula is a bijection on the rows. */
  lemma IrowBijective(r: nat, k: nat, h: nat)
    ensures r < h ==> Irow(r, h) < h && RowAt(Irow(r, h), h) == r
    ensures k < h ==> RowAt(k, h) < h && Irow(RowAt(k, h), h) == k
  {
    PassesFill(h);
    IrowInverse(r, h);
    RowAtInverse(k, h);
  }

  lemma IrowInverse(r: nat, h: nat)
    requires Pass4(h) + h / 2 == h
    ensures r < h ==> Irow(r, h) < h && RowAt(Irow(r, h), h) == r
  {
    hide Irow, RowAt, Pass4;
    if r < h {
      var q, m := r / 8, r % 8;
      if m == 0 || m == 4 {
        FourRow(r, h, q, m);
      } else if m == 2 || m == 6 {
        TwoRow(r, h, q, m);
      } else {
        OddRow(r, h, q, m);
      }
    }
  }

  lemma Quarter(r: nat, j: nat)
    requires r == 4 * j + 2
    ensures r / 4 == j
  {
  }

  lemma Half(r: nat, j: nat)
    requires r == 2 * j + 1
    ensures r / 2 == j
  {
  }

  lemma HalfBound(j: nat, h: nat)
    requires 2 * j + 1 < h
    ensures j < h / 2
  {
  }

  lemma OddRow(r: nat, h: nat, q: nat, m: nat)
    requires Pass4(h) + h / 2 == h && r < h && r == 8 * q + m && r % 8 == m && (m == 1 || m == 3 || m == 5 || m == 7)
    ensures Irow(r, h) < h && RowAt(Irow(r, h), h) == r
  {
    var j := 4 * q + if m == 1 then 0 else if m == 3 then 1 else if m == 5 then 2 else 3;
    Half(r, j);
    HalfBound(j, h);
    PassesOrder(h);
    hide Pass2, Pass3, Pass4;
    assert Irow(r, h) == j + Pass4(h);
  }

  lemma TwoRow(r: nat, h: nat, q: nat, m: nat)
    requires Pass4(h) + h / 2 == h && r < h && r == 8 * q + m && r % 8 == m && (m == 2 || m == 6)
    ensures Irow(r, h) < h && RowAt(Irow(r, h), h) == r
  {
    var j := 2 * q + if m == 2 then 0 else 1;
    Quarter(r, j);
    PassesOrder(h);
    FillsPasses(j, h);
    hide Pass2, Pass3, Pass4;
    assert Irow(r, h) == j + Pass3(h);
  }

  lemma FourRow(r: nat, h: nat, q: nat, m: nat)
    requires Pass4(h) + h / 2 == h && r < h && r == 8 * q + m && r % 8 == m && r / 8 == q && (m == 0 || m == 4)
    ensures Irow(r, h) < h && RowAt(Irow(r, h), h) == r
  {
    PassesOrder(h);
    FillsPasses(q, h);
    hide Pass2, Pass3, Pass4;
    assert Irow(r, h) == if m == 0 then q else q + Pass2(h);
  }

  /** The rows of the first three passes have room there. */
  lemma FillsPasses(j: nat, h: nat)
    ensures 8 * j < h ==> j < Pass2(h)
    ensures 8 * j + 4 < h ==> j + Pass2(h) < Pass3(h)
    ensures 4 * j + 2 < h ==> j + Pass3(h) < Pass4(h)
  {
  }

  lemma PassesOrder(h: nat)
    ensures Pass2(h) <= Pass3(h) <= Pass4(h)
  {
  }

  lemma StrideEight(j: nat)
    ensures (8 * j) % 8 == 0 && (8 * j) / 8 == j
    ensures (8 * j + 4) % 8 == 4 && (8 * j + 4) / 8 == j
  {
  }

  lemma StrideFour(j: nat)
    ensures ((4 * j + 2) % 8 == 2 || (4 * j + 2) % 8 == 6) && (4 * j + 2) / 4 == j
  {
    assert j == 2 * (j / 2) + j % 2;
  }

  lemma StrideTwo(j: nat)
    ensures (2 * j + 1) / 2 == j
    ensures (2 * j + 1) % 8 != 0 && (2 * j + 1) % 8 != 2 && (2 * j + 1) % 8 != 4 && (2 * j + 1) % 8 != 6
  {
    assert 2 * j + 1 == 8 * ((2 * j + 1) / 8) + (2 * j + 1) % 8;
  }

  lemma RowAtBound(k: nat, h: nat)
    requires Pass4(h) + h / 2 == h && k < h
    ensures RowAt(k, h) < h
  {
  }

  lemma RowAtInverse(k: nat, h: nat)
    requires Pass4(h) + h / 2 == h
    ensures k < h ==> RowAt(k, h) < h && Irow(RowAt(k, h), h) == k
  {
    if k < h {
      RowAtBound(k, h);
      hide Pass2, Pass3, Pass4;
      if k < Pass2(h) {
        StrideEight(k);
      } else if k < Pass3(h) {
        StrideEight(k - Pass2(h));
      } else if k < Pass4(h) {
        StrideFour(k - Pass3(h));
      } else {
        StrideTwo(k - Pass4(h));
      }
    }
  }

  /** The pass a row belongs to: every eighth row from 0, every eighth from 4, every fourth from 2, every second
      from 1. */
  function GroupOf(r: nat): nat { if r % 8 == 0 then 1 else if r % 8 == 4 then 2 else if r % 4 == 2 then 3 else 4 }

  lemma GroupRemainder(r: nat)
    ensures GroupOf(r) == 3 <==> r % 8 == 2 || r % 8 == 6
    ensures GroupOf(r) == 4 <==> r % 8 == 1 || r % 8 == 3 || r % 8 == 5 || r % 8 == 7
  {
    assert r == 8 * (r / 8) + r % 8;
  }

  /** The rows of a pass take the positions of the pass. */
  lemma GroupPlace(r: nat, h: nat)
    requires r < h
    ensures GroupOf(r) == 1 ==> Irow(r, h) == r / 8 && r == 8 * (r / 8) && r / 8 < Pass2(h)
    ensures GroupOf(r) == 2 ==> Irow(r, h) == r / 8 + Pass2(h) && r == 8 * (r / 8) + 4 && Irow(r, h) < Pass3(h)
    ensures GroupOf(r) == 3 ==> Irow(r, h) == r / 4 + Pass3(h) && r == 4 * (r / 4) + 2 && Irow(r, h) < Pass4(h)
    ensures GroupOf(r) == 4 ==> Irow(r, h) == r / 2 + Pass4(h) && r == 2 * (r / 2) + 1
  {
    GroupRemainder(r);
    FillsPasses(r / 8, h);
    FillsPasses(r / 4, h);
    OddHalf(r);
    hide Pass2, Pass3, Pass4;
    assert r == 8 * (r / 8) + r % 8 && r == 4 * (r / 4) + r % 4;
  }

  lemma OddHalf(r: nat)
    ensures r % 8 == 1 || r % 8 == 3 || r % 8 == 5 || r % 8 == 7 ==> r == 2 * (r / 2) + 1
  {
    var q, m := r / 8, r % 8;
    if m == 1 || m == 3 || m == 5 || m == 7 {
      Half(r, 4 * q + if m == 1 then 0 else if m == 3 then 1 else if m == 5 then 2 else 3);
    }
  }

  /** The rows are stored pass by pass, and within a pass from the top down; this alone settles every position. */
  lemma RowsInPasses(r: nat, s: nat, h: nat)
    requires r < h && s < h
    ensures Irow(r, h) < Irow(s, h) <==> GroupOf(r) < GroupOf(s) || (GroupOf(r) == GroupOf(s) && r < s)
  {
    GroupPlace(r, h);
    GroupPlace(s, h);
    PassesOrder(h);
    hide Irow, Pass2, Pass3, Pass4;
  }

  /** The encoder's cursor between rows. */
  datatype Cursor = Cursor(pass: nat, y: nat)

  /** BumpPixel at the end of a scan line of an interlaced image. */
  function NextRow(c: Cursor, h: nat): Cursor {
    match c.pass
    case 0 => if c.y + 8 >= h then Cursor(1, 4) else Cursor(0, c.y + 8)
    case 1 => if c.y + 8 >= h then Cursor(2, 2) else Cursor(1, c.y + 8)
    case 2 => if c.y + 4 >= h then Cursor(3, 1) else Cursor(2, c.y + 4)
    case 3 => Cursor(3, c.y + 2)
    case _ => c
  }

  /** The cursor on the `k`-th line visited. */
  function Visit(k: nat, h: nat): Cursor {
    if k == 0 then Cursor(0, 0) else NextRow(Visit(k - 1, h), h)
  }

  function PassOf(k: nat, h: nat): nat {
    if k < Pass2(h) then 0 else if k < Pass3(h) then 1 else if k < Pass4(h) then 2 else 3
  }

  lemma {:induction false} VisitIs(k: nat, h: nat)
    requires k < h && (h == 1 || h >= 5)
    ensures Visit(k, h) == Cursor(PassOf(k, h), RowAt(k, h))
  {
    if k > 0 {
      VisitIs(k - 1, h);
      StepIs(k - 1, h);
    }
  }

  lemma StepIs(k: nat, h: nat)
    requires k + 1 < h && h >= 5
    ensures NextRow(Cursor(PassOf(k, h), RowAt(k, h)), h) == Cursor(PassOf(k + 1, h), RowAt(k + 1, h))
  {
    PassesFill(h);
  }

  /** The encoder's walk visits the rows in the order the decoder assumes, all of them inside the
      image, exactly when the height is 1 or at least 5. */
  lemma WalkMatches(h: nat)
    requires h > 0
    ensures (forall k :: 0 <= k < h ==> Visit(k, h).y == RowAt(k, h)) <==> (h == 1 || h >= 5)
    ensures (forall k :: 0 <= k < h ==> Visit(k, h).y < h) <==> (h == 1 || h >= 5)
  {
    if h == 1 || h >= 5 {
      forall k | 0 <= k < h
        ensures Visit(k, h).y == RowAt(k, h) < h
      {
        VisitIs(k, h);
        IrowBijective(0, k, h);
      }
    } else {
      assert Visit(1, h) == Cursor(1, 4);
    }
  }
}
