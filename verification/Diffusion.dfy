/** Floyd-Steinberg error diffusion onto a colour map, in serpentine order. The program scatters each pixel's error
    over four neighbours; here that is shown to be the gather formula, exactly and in both directions. */
module Diffusion {
  import opened PixelMath

  const FS_SCALE: int := 1024

  /** A colour, or an error in each of its components. */
  datatype Vec = Vec(r: int, g: int, b: int)

  const ZERO := Vec(0, 0, 0)

  function Plus(u: Vec, v: Vec): Vec { Vec(u.r + v.r, u.g + v.g, u.b + v.b) }
  function Minus(u: Vec, v: Vec): Vec { Vec(u.r - v.r, u.g - v.g, u.b - v.b) }

  /** An error in the scale of the error rows, and its shares of seven, five, three and one sixteenth. */
  function Whole(v: Vec): Vec { Vec(FS_SCALE * v.r, FS_SCALE * v.g, FS_SCALE * v.b) }
  function Seven(v: Vec): Vec { Vec(448 * v.r, 448 * v.g, 448 * v.b) }
  function Five(v: Vec): Vec { Vec(320 * v.r, 320 * v.g, 320 * v.b) }
  function Three(v: Vec): Vec { Vec(192 * v.r, 192 * v.g, 192 * v.b) }
  function One(v: Vec): Vec { Vec(64 * v.r, 64 * v.g, 64 * v.b) }

  function QuotientVec(v: Vec, b: int): Vec
    requires b > 0
  {
    Vec(Quotient(v.r, b), Quotient(v.g, b), Quotient(v.b, b))
  }

  function ClampVec(v: Vec, maxval: int): Vec { Vec(Clamp(v.r, maxval), Clamp(v.g, maxval), Clamp(v.b, maxval)) }

  predicate InRange(v: Vec, maxval: int) {
    0 <= v.r <= maxval && 0 <= v.g <= maxval && 0 <= v.b <= maxval
  }

  predicate Within(v: Vec, bound: int) {
    -bound <= v.r <= bound && -bound <= v.g <= bound && -bound <= v.b <= bound
  }

  // ----- the closest colour -----

  function Distance(u: Vec, v: Vec): int {
    (u.r - v.r) * (u.r - v.r) + (u.g - v.g) * (u.g - v.g) + (u.b - v.b) * (u.b - v.b)
  }

  const FAR: int := 2000000000

  /** The first of the closest colours, among those closer than FAR. */
  predicate IsNearest(v: Vec, colormap: seq<Vec>, i: int) {
    0 <= i < |colormap| && Distance(v, colormap[i]) < FAR &&
    (forall j :: 0 <= j < |colormap| ==> Distance(v, colormap[i]) <= Distance(v, colormap[j])) &&
    (forall j :: 0 <= j < i ==> Distance(v, colormap[i]) < Distance(v, colormap[j]))
  }

  lemma NearestUnique(v: Vec, colormap: seq<Vec>, i: int, j: int)
    requires IsNearest(v, colormap, i) && IsNearest(v, colormap, j)
    ensures i == j
  {
    hide Distance;
  }

  method Search(v: Vec, colormap: seq<Vec>) returns (ind: int)
    ensures ind == -1 || IsNearest(v, colormap, ind)
    ensures ind == -1 <==> forall j :: 0 <= j < |colormap| ==> Distance(v, colormap[j]) >= FAR
  {
    hide Distance;
    ind := -1;
    var dist := FAR;
    for i := 0 to |colormap|
      invariant ind == -1 ==> dist == FAR
      invariant ind != -1 ==> 0 <= ind < i && dist == Distance(v, colormap[ind]) < FAR
      invariant ind != -1 ==> forall j :: 0 <= j < ind ==> dist < Distance(v, colormap[j])
      invariant forall j :: 0 <= j < i ==> dist <= Distance(v, colormap[j])
    {
      var newdist := Distance(v, colormap[i]);
      if newdist < dist {
        ind, dist := i, newdist;
      }
    }
  }

  lemma SquareBound(x: int, m: int)
    requires -m <= x <= m
    ensures x * x <= m * m
  {
    if x >= 0 {
      assert x * x <= x * m <= m * m;
    } else {
      assert x * x == (-x) * (-x) <= (-x) * m <= m * m;
    }
  }

  predicate OnScale(colormap: seq<Vec>, maxval: int) { forall i :: 0 <= i < |colormap| ==> InRange(colormap[i], maxval) }

  /** Every colour on the scale is close enough to some colour of the map to be found. */
  ghost predicate Covers(colormap: seq<Vec>, maxval: int) {
    forall v :: InRange(v, maxval) ==> Reached(v, colormap)
  }

  ghost predicate Reached(v: Vec, colormap: seq<Vec>) {
    exists j :: 0 <= j < |colormap| && Distance(v, colormap[j]) < FAR
  }

  lemma NearestReached(v: Vec, colormap: seq<Vec>, i: int)
    requires IsNearest(v, colormap, i)
    ensures Reached(v, colormap)
  {
    hide Distance;
  }

  lemma Close(u: Vec, v: Vec, maxval: int)
    requires InRange(u, maxval) && InRange(v, maxval) && maxval <= 25819
    ensures Distance(u, v) < FAR
  {
    SquareBound(u.r - v.r, 25819);
    SquareBound(u.g - v.g, 25819);
    SquareBound(u.b - v.b, 25819);
  }

  /** From 25820 on black is too far from white. */
  lemma Apart(maxval: int)
    requires maxval >= 25820
    ensures !Covers([Vec(maxval, maxval, maxval)], maxval)
  {
    var white := Vec(maxval, maxval, maxval);
    assert maxval * maxval >= 25820 * 25820;
    assert Distance(ZERO, white) >= FAR;
    assert InRange(ZERO, maxval);
    assert !Reached(ZERO, [white]);
  }

  /** A map of any colours on the scale covers it exactly on scales up to 25819. */
  lemma CoversIff(maxval: nat)
    ensures maxval <= 25819 <==>
            forall colormap: seq<Vec> :: colormap != [] && OnScale(colormap, maxval) ==> Covers(colormap, maxval)
  {
    if maxval <= 25819 {
      forall colormap: seq<Vec> | colormap != [] && OnScale(colormap, maxval)
        ensures Covers(colormap, maxval)
      {
        forall v | InRange(v, maxval)
          ensures Reached(v, colormap)
        {
          Close(v, colormap[0], maxval);
        }
      }
    } else {
      Apart(maxval);
      var white := [Vec(maxval, maxval, maxval)];
      assert white != [] && OnScale(white, maxval);
    }
  }

  // ----- shares of an error -----

  lemma ShareIs(x: int)
    ensures Quotient(FS_SCALE * x * 7, 16) == 448 * x && Quotient(FS_SCALE * x * 5, 16) == 320 * x
    ensures Quotient(FS_SCALE * x * 3, 16) == 192 * x && Quotient(FS_SCALE * x, 16) == 64 * x
  {
  }

  function Share(err: Vec, k: int): Vec {
    Vec(Quotient(err.r * k, 16), Quotient(err.g * k, 16), Quotient(err.b * k, 16))
  }

  /** The shares the program divides off lose nothing to rounding: together they are the whole error. */
  lemma SharesExact(x: Vec)
    ensures Share(Whole(x), 7) == Seven(x) && Share(Whole(x), 3) == Three(x)
    ensures Share(Whole(x), 5) == Five(x) && Share(Whole(x), 1) == One(x)
    ensures Plus(Plus(Share(Whole(x), 7), Share(Whole(x), 3)), Plus(Share(Whole(x), 5), Share(Whole(x), 1))) == Whole(x)
  {
    hide Quotient;
    ShareIs(x.r);
    ShareIs(x.g);
    ShareIs(x.b);
  }

  // ----- the gather formulas -----

  /** The error of a column, nothing outside the row. */
  function At(e: seq<Vec>, c: int): Vec { if 0 <= c < |e| then e[c] else ZERO }

  /** What the error cell above column c holds when the column's turn comes. */
  function Ahead(init: seq<Vec>, e: seq<Vec>, j: nat, right: bool): Vec
    requires j < |init|
  {
    Plus(init[j], Seven(At(e, if right then j - 2 else j)))
  }

  function Gathered(near: Vec, above: Vec, far: Vec): Vec { Plus(Plus(Three(near), Five(above)), One(far)) }

  /** What a cell of the next row has received. */
  function Below(e: seq<Vec>, j: nat, right: bool): Vec {
    if right then Gathered(At(e, j), At(e, j - 1), At(e, j - 2))
    else Gathered(At(e, j - 2), At(e, j - 1), At(e, j))
  }

  /** The colour a column asks for. */
  function Wanted(pixel: Vec, cell: Vec, maxval: int): Vec {
    ClampVec(Plus(pixel, QuotientVec(cell, FS_SCALE)), maxval)
  }

  // ----- one row -----

  /** A column whose colour, error and output are as the formulas say. */
  ghost predicate ColumnDone(pixel: Vec, shown: Vec, init: seq<Vec>, e: seq<Vec>, c: nat, right: bool,
                             colormap: seq<Vec>, maxval: int)
    requires c + 1 < |init| && c < |e|
  {
    var want := Wanted(pixel, Ahead(init, e, c + 1, right), maxval);
    (exists i :: IsNearest(want, colormap, i) && shown == colormap[i]) && e[c] == Minus(want, shown)
  }

  /** The whole row: each column shows the colour closest to its pixel plus the error that reached it. */
  ghost predicate RowDone(pixels: seq<Vec>, shown: seq<Vec>, init: seq<Vec>, e: seq<Vec>, right: bool,
                          colormap: seq<Vec>, maxval: int)
  {
    |shown| == |e| == |pixels| && |init| == |pixels| + 2 &&
    forall c :: 0 <= c < |pixels| ==> ColumnDone(pixels[c], shown[c], init, e, c, right, colormap, maxval)
  }

  /** The error rows while some columns are still to come; e is zero there. */
  ghost predicate Scattered(init: seq<Vec>, e: seq<Vec>, cur: seq<Vec>, next: seq<Vec>, right: bool) {
    |init| == |cur| == |next| == |e| + 2 &&
    (forall j :: 0 <= j < |cur| ==> cur[j] == Ahead(init, e, j, right)) &&
    (forall j :: 0 <= j < |next| ==> next[j] == Below(e, j, right))
  }

  lemma ScatteredStart(init: seq<Vec>, next: seq<Vec>, right: bool, e: seq<Vec>)
    requires |init| == |next| == |e| + 2
    requires forall c :: 0 <= c < |e| ==> e[c] == ZERO
    requires forall j :: 0 <= j < |next| ==> next[j] == ZERO
    ensures Scattered(init, e, init, next, right)
  {
    forall j | 0 <= j < |init|
      ensures init[j] == Ahead(init, e, j, right) && next[j] == Below(e, j, right)
    {
      NothingScattered(init, e, j, right);
    }
    hide Ahead, Below;
  }

  lemma NothingScattered(init: seq<Vec>, e: seq<Vec>, j: nat, right: bool)
    requires j < |init| && forall c :: 0 <= c < |e| ==> e[c] == ZERO
    ensures Ahead(init, e, j, right) == init[j] && Below(e, j, right) == ZERO
  {
    assert At(e, j) == ZERO && At(e, j - 1) == ZERO && At(e, j - 2) == ZERO;
    hide At;
  }

  function ScatterCur(cur: seq<Vec>, c: nat, x: Vec, right: bool): seq<Vec>
    requires c + 2 < |cur|
  {
    var j := if right then c + 2 else c;
    cur[j := Plus(cur[j], Seven(x))]
  }

  function ScatterNext(next: seq<Vec>, c: nat, x: Vec, right: bool): seq<Vec>
    requires c + 2 < |next|
  {
    var near, far := if right then c else c + 2, if right then c + 2 else c;
    var n1 := next[near := Plus(next[near], Three(x))];
    var n2 := n1[c + 1 := Plus(n1[c + 1], Five(x))];
    n2[far := Plus(n2[far], One(x))]
  }

  lemma AheadUpdated(init: seq<Vec>, e: seq<Vec>, right: bool, c: nat, x: Vec, j: nat)
    requires j < |init| && c < |e| && e[c] == ZERO
    ensures Ahead(init, e[c := x], j, right) ==
            if j == (if right then c + 2 else c) then Plus(Ahead(init, e, j, right), Seven(x))
            else Ahead(init, e, j, right)
  {
  }

  lemma GatheredMore(near: Vec, above: Vec, far: Vec, x: Vec)
    ensures Gathered(x, above, far) == Plus(Gathered(ZERO, above, far), Three(x))
    ensures Gathered(near, x, far) == Plus(Gathered(near, ZERO, far), Five(x))
    ensures Gathered(near, above, x) == Plus(Gathered(near, above, ZERO), One(x))
  {
  }

  lemma BelowUpdated(e: seq<Vec>, right: bool, c: nat, x: Vec, j: nat)
    requires c < |e| && e[c] == ZERO
    ensures Below(e[c := x], j, right) ==
            if j == (if right then c else c + 2) then Plus(Below(e, j, right), Three(x))
            else if j == c + 1 then Plus(Below(e, j, right), Five(x))
            else if j == (if right then c + 2 else c) then Plus(Below(e, j, right), One(x))
            else Below(e, j, right)
  {
    hide Gathered, Plus, Three, Five, One;
    GatheredMore(At(e, if right then j else j - 2), At(e, j - 1), At(e, if right then j - 2 else j), x);
  }

  lemma ScatteredMore(init: seq<Vec>, e: seq<Vec>, cur: seq<Vec>, next: seq<Vec>, right: bool, c: nat, x: Vec)
    requires Scattered(init, e, cur, next, right) && c < |e| && e[c] == ZERO
    ensures Scattered(init, e[c := x], ScatterCur(cur, c, x, right), ScatterNext(next, c, x, right), right)
  {
    hide Ahead, Below, Plus, Seven, Five, Three, One;
    var e', cur', next' := e[c := x], ScatterCur(cur, c, x, right), ScatterNext(next, c, x, right);
    forall j | 0 <= j < |cur|
      ensures cur'[j] == Ahead(init, e', j, right)
    {
      AheadUpdated(init, e, right, c, x, j);
    }
    forall j | 0 <= j < |next|
      ensures next'[j] == Below(e', j, right)
    {
      BelowUpdated(e, right, c, x, j);
    }
  }

  /** Columns that come before col in the order of the row. */
  predicate Past(c: int, col: int, right: bool) { if right then c < col else c > col }

  /** The columns already passed are done, the others have no error yet and keep their pixel. */
  ghost predicate Partly(pixels: seq<Vec>, line: seq<Vec>, init: seq<Vec>, e: seq<Vec>, col: int, right: bool,
                         colormap: seq<Vec>, maxval: int)
  {
    |line| == |e| == |pixels| && |init| == |pixels| + 2 &&
    forall c :: 0 <= c < |pixels| ==>
      if Past(c, col, right) then ColumnDone(pixels[c], line[c], init, e, c, right, colormap, maxval)
      else line[c] == pixels[c] && e[c] == ZERO
  }

  /** The columns before `col` are done, and the colour wanted there is too far from every colour of the map. */
  ghost predicate RowStuck(pixels: seq<Vec>, line: seq<Vec>, init: seq<Vec>, e: seq<Vec>, col: nat, right: bool,
                           colormap: seq<Vec>, maxval: int)
  {
    Partly(pixels, line, init, e, col, right, colormap, maxval) && col < |pixels| &&
    !Reached(Wanted(pixels[col], Ahead(init, e, col + 1, right), maxval), colormap)
  }

  lemma ColumnKept(pixel: Vec, shown: Vec, init: seq<Vec>, e: seq<Vec>, c: nat, right: bool, colormap: seq<Vec>,
                   maxval: int, d: nat, x: Vec)
    requires c + 1 < |init| && c < |e| && d < |e| && d != c && Past(c, d, right)
    requires ColumnDone(pixel, shown, init, e, c, right, colormap, maxval)
    ensures ColumnDone(pixel, shown, init, e[d := x], c, right, colormap, maxval)
  {
    assert Ahead(init, e[d := x], c + 1, right) == Ahead(init, e, c + 1, right);
    hide Ahead;
  }

  lemma ColumnMade(pixel: Vec, shown: Vec, init: seq<Vec>, e: seq<Vec>, c: nat, right: bool, colormap: seq<Vec>,
                   maxval: int, i: int)
    requires c + 1 < |init| && c < |e|
    requires IsNearest(Wanted(pixel, Ahead(init, e, c + 1, right), maxval), colormap, i) && shown == colormap[i]
    ensures var x := Minus(Wanted(pixel, Ahead(init, e, c + 1, right), maxval), shown);
            ColumnDone(pixel, shown, init, e[c := x], c, right, colormap, maxval)
  {
    var x := Minus(Wanted(pixel, Ahead(init, e, c + 1, right), maxval), shown);
    assert Ahead(init, e[c := x], c + 1, right) == Ahead(init, e, c + 1, right);
    hide Ahead, Wanted, IsNearest;
  }

  lemma PartlyMore(pixels: seq<Vec>, line: seq<Vec>, init: seq<Vec>, e: seq<Vec>, col: nat, right: bool,
                   colormap: seq<Vec>, maxval: int, i: int)
    requires Partly(pixels, line, init, e, col, right, colormap, maxval) && col < |pixels|
    requires IsNearest(Wanted(pixels[col], Ahead(init, e, col + 1, right), maxval), colormap, i)
    ensures var x := Minus(Wanted(pixels[col], Ahead(init, e, col + 1, right), maxval), colormap[i]);
            Partly(pixels, line[col := colormap[i]], init, e[col := x], if right then col + 1 else col - 1, right,
                   colormap, maxval)
  {
    var x := Minus(Wanted(pixels[col], Ahead(init, e, col + 1, right), maxval), colormap[i]);
    var next := if right then col + 1 else col - 1;
    var line', e' := line[col := colormap[i]], e[col := x];
    ColumnMade(pixels[col], colormap[i], init, e, col, right, colormap, maxval, i);
    hide ColumnDone, Wanted, Ahead, IsNearest, Minus;
    forall c | 0 <= c < |pixels|
      ensures if Past(c, next, right) then ColumnDone(pixels[c], line'[c], init, e', c, right, colormap, maxval)
              else line'[c] == pixels[c] && e'[c] == ZERO
    {
      if c != col && Past(c, col, right) {
        ColumnKept(pixels[c], line[c], init, e, c, right, colormap, maxval, col, x);
      }
    }
  }

  lemma WantedInRange(pixel: Vec, cell: Vec, maxval: int)
    requires 0 <= maxval
    ensures InRange(Wanted(pixel, cell, maxval), maxval)
  {
  }

  lemma NearestIndex(v: Vec, colormap: seq<Vec>, i: int)
    requires IsNearest(v, colormap, i)
    ensures 0 <= i < |colormap|
  {
  }

  // ----- nothing is lost -----

  function Sum(s: seq<Vec>): Vec {
    if s == [] then ZERO else Plus(Sum(s[..|s| - 1]), s[|s| - 1])
  }

  lemma {:induction false} SumUpdated(s: seq<Vec>, j: nat, v: Vec)
    requires j < |s|
    ensures Sum(s[j := Plus(s[j], v)]) == Plus(Sum(s), v)
  {
    var n, s' := |s| - 1, s[j := Plus(s[j], v)];
    if j == n {
      assert s'[..n] == s[..n];
    } else {
      assert s'[..n] == s[..n][j := Plus(s[j], v)];
      SumUpdated(s[..n], j, v);
    }
  }

  /** The error rows together hold what they held before the row and all the errors of the row. */
  ghost predicate Balanced(init: seq<Vec>, e: seq<Vec>, cur: seq<Vec>, next: seq<Vec>) {
    Plus(Sum(cur), Sum(next)) == Plus(Sum(init), Whole(Sum(e)))
  }

  lemma NextSum(next: seq<Vec>, c: nat, x: Vec, right: bool)
    requires c + 2 < |next|
    ensures Sum(ScatterNext(next, c, x, right)) == Plus(Plus(Plus(Sum(next), Three(x)), Five(x)), One(x))
  {
    hide Sum, Plus, Three, Five, One;
    var near, far := if right then c else c + 2, if right then c + 2 else c;
    var n1 := next[near := Plus(next[near], Three(x))];
    var n2 := n1[c + 1 := Plus(n1[c + 1], Five(x))];
    SumUpdated(next, near, Three(x));
    SumUpdated(n1, c + 1, Five(x));
    SumUpdated(n2, far, One(x));
  }

  lemma BalancedMore(init: seq<Vec>, e: seq<Vec>, cur: seq<Vec>, next: seq<Vec>, right: bool, c: nat, x: Vec)
    requires Balanced(init, e, cur, next) && c < |e| && |cur| == |next| == |e| + 2 && e[c] == ZERO
    ensures Balanced(init, e[c := x], ScatterCur(cur, c, x, right), ScatterNext(next, c, x, right))
  {
    hide Sum;
    var j := if right then c + 2 else c;
    SumUpdated(cur, j, Seven(x));
    NextSum(next, c, x, right);
    SumUpdated(e, c, x);
    assert Plus(e[c], x) == x;
    assert ScatterCur(cur, c, x, right) == cur[j := Plus(cur[j], Seven(x))];
    hide ScatterCur, ScatterNext;
  }

  predicate AllZero(s: seq<Vec>) { s == [] || (AllZero(s[..|s| - 1]) && s[|s| - 1] == ZERO) }

  lemma {:induction false} SumOfZeros(s: seq<Vec>)
    requires AllZero(s)
    ensures Sum(s) == ZERO
  {
    if s != [] {
      SumOfZeros(s[..|s| - 1]);
    }
  }

  lemma {:induction false} ZerosAre(s: seq<Vec>)
    requires forall j :: 0 <= j < |s| ==> s[j] == ZERO
    ensures AllZero(s)
  {
    if s != [] {
      ZerosAre(s[..|s| - 1]);
    }
  }

  lemma BalancedStart(init: seq<Vec>, e: seq<Vec>, next: seq<Vec>)
    requires forall j :: 0 <= j < |e| ==> e[j] == ZERO
    requires forall j :: 0 <= j < |next| ==> next[j] == ZERO
    ensures Balanced(init, e, init, next)
  {
    ZerosAre(e);
    ZerosAre(next);
    SumOfZeros(e);
    SumOfZeros(next);
    hide Sum, AllZero;
  }

  class Ditherer {
    const colormap: seq<Vec>
    const maxval: int

    /** How many colours the table of colours already matched has room for. */
    const room: nat
    var matched: map<Vec, int>
    var useHash: bool

    ghost predicate Valid()
      reads this`matched
    {
      0 <= maxval && OnScale(colormap, maxval) &&
      forall v :: v in matched ==> IsNearest(v, colormap, matched[v])
    }

    constructor (colors: seq<Vec>, max: int, space: nat)
      requires 0 <= max && OnScale(colors, max)
      ensures Valid() && colormap == colors && maxval == max
    {
      colormap, maxval, room := colors, max, space;
      matched, useHash := map[], true;
    }

    /** The closest colour, from the table if it was matched before; -1 if every colour is too far away. */
    method Match(v: Vec) returns (ind: int)
      requires Valid() && InRange(v, maxval)
      modifies this`matched, this`useHash
      ensures Valid() && (ind == -1 <==> !Reached(v, colormap)) && (ind != -1 ==> IsNearest(v, colormap, ind))
    {
      if v in matched {
        ind := matched[v];
        NearestReached(v, colormap, ind);
      } else {
        ind := Search(v, colormap);
        hide IsNearest, Distance, Reached;
        if useHash && ind != -1 {
          if |matched| < room {
            matched := matched[v := ind];
          } else {
            useHash := false;
          }
        }
      }
    }

    /** Scatters the error of a column over its neighbours. */
    static method Propagate(cur: array<Vec>, next: array<Vec>, col: nat, x: Vec, right: bool)
      requires cur != next && col + 2 < cur.Length == next.Length
      modifies cur, next
      ensures cur[..] == ScatterCur(old(cur[..]), col, x, right)
      ensures next[..] == ScatterNext(old(next[..]), col, x, right)
    {
      SharesExact(x);
      hide Plus, Share, Whole, Seven, Five, Three, One;
      var err := Whole(x);
      if right {
        cur[col + 2] := Plus(cur[col + 2], Share(err, 7));
        next[col] := Plus(next[col], Share(err, 3));
        next[col + 1] := Plus(next[col + 1], Share(err, 5));
        next[col + 2] := Plus(next[col + 2], Share(err, 1));
      } else {
        cur[col] := Plus(cur[col], Share(err, 7));
        next[col + 2] := Plus(next[col + 2], Share(err, 3));
        next[col + 1] := Plus(next[col + 1], Share(err, 5));
        next[col] := Plus(next[col], Share(err, 1));
      }
    }

    /** One row of the image, in place.  It goes wrong at a column whose colour is too far from every colour of the map,
        and only there. */
    method DitherRow(line: array<Vec>, cur: array<Vec>, next: array<Vec>, right: bool)
      returns (ok: bool, ghost e: seq<Vec>, ghost stuck: nat)
      requires Valid() && line.Length >= 1
      requires cur.Length == next.Length == line.Length + 2 && line != cur && line != next && cur != next
      modifies this`matched, this`useHash, line, cur, next
      ensures Valid()
      ensures ok ==> RowDone(old(line[..]), line[..], old(cur[..]), e, right, colormap, maxval)
      ensures ok ==> Scattered(old(cur[..]), e, cur[..], next[..], right)
      ensures ok ==> Balanced(old(cur[..]), e, cur[..], next[..])
      ensures !ok ==> RowStuck(old(line[..]), line[..], old(cur[..]), e, stuck, right, colormap, maxval)
    {
      hide Sum, Balanced, ColumnDone, Wanted, Ahead, Below, IsNearest, ScatterCur, ScatterNext;
      ghost var pixels, init := line[..], cur[..];
      e := seq(line.Length, _ => ZERO);
      for j := 0 to next.Length
        invariant forall k :: 0 <= k < j ==> next[k] == ZERO
        invariant Valid() && line[..] == pixels && cur[..] == init
      {
        next[j] := ZERO;
      }
      ScatteredStart(init, next[..], right, e);
      BalancedStart(init, e, next[..]);
      var col := if right then 0 else line.Length - 1;
      var limit := if right then line.Length else -1;
      while col != limit
        invariant -1 <= col <= line.Length && (if right then col >= 0 else col < line.Length)
        invariant Valid() && Partly(pixels, line[..], init, e, col, right, colormap, maxval)
        invariant Scattered(init, e, cur[..], next[..], right) && Balanced(init, e, cur[..], next[..])
        decreases if right then line.Length - col else col + 1
      {
        assert e[col] == ZERO && cur[col + 1] == Ahead(init, e, col + 1, right);
        assert line[..][col] == pixels[col];
        var want := Wanted(line[col], cur[col + 1], maxval);
        WantedInRange(line[col], cur[col + 1], maxval);
        var ind := Match(want);
        if ind == -1 {
          stuck := col;
          return false, e, stuck;
        }
        NearestIndex(want, colormap, ind);
        PartlyMore(pixels, line[..], init, e, col, right, colormap, maxval, ind);
        ghost var x := Minus(want, colormap[ind]);
        ScatteredMore(init, e, cur[..], next[..], right, col, x);
        BalancedMore(init, e, cur[..], next[..], right, col, x);
        Propagate(cur, next, col, Minus(want, colormap[ind]), right);
        line[col] := colormap[ind];
        e := e[col := x];
        col := if right then col + 1 else col - 1;
      }
      ok, stuck := true, 0;
    }
  }

  // ----- every error stays in bounds -----

  lemma RowErrors(pixels: seq<Vec>, shown: seq<Vec>, init: seq<Vec>, e: seq<Vec>, right: bool, colormap: seq<Vec>,
                  maxval: int, c: nat)
    requires RowDone(pixels, shown, init, e, right, colormap, maxval) && c < |e| && 0 <= maxval
    requires forall i :: 0 <= i < |colormap| ==> InRange(colormap[i], maxval)
    ensures Within(e[c], maxval)
  {
    assert ColumnDone(pixels[c], shown[c], init, e, c, right, colormap, maxval);
    WantedInRange(pixels[c], Ahead(init, e, c + 1, right), maxval);
    hide Wanted, Ahead, RowDone;
  }

  lemma AtBounded(e: seq<Vec>, c: int, bound: int)
    requires 0 <= bound && forall i :: 0 <= i < |e| ==> Within(e[i], bound)
    ensures Within(At(e, c), bound)
  {
  }

  /** A cell never receives more than nine sixteenths from the row above and seven from its own. */
  lemma CellBounds(init: seq<Vec>, e: seq<Vec>, j: nat, right: bool, maxval: int, start: int)
    requires j < |init| && Within(init[j], start) && 0 <= maxval
    requires forall i :: 0 <= i < |e| ==> Within(e[i], maxval)
    ensures Within(Below(e, j, right), 576 * maxval)
    ensures Within(Ahead(init, e, j, right), start + 448 * maxval)
  {
    AtBounded(e, j, maxval);
    AtBounded(e, j - 1, maxval);
    AtBounded(e, j - 2, maxval);
    hide At;
  }

  // ----- the formulas determine the row, and the two directions mirror each other -----

  /** The gather equations have one solution, so they say exactly what the row shows. */
  lemma {:induction false} RowUnique(pixels: seq<Vec>, s1: seq<Vec>, e1: seq<Vec>, s2: seq<Vec>, e2: seq<Vec>,
                                     init: seq<Vec>, right: bool, colormap: seq<Vec>, maxval: int, c: nat)
    requires RowDone(pixels, s1, init, e1, right, colormap, maxval)
    requires RowDone(pixels, s2, init, e2, right, colormap, maxval)
    requires c < |pixels|
    ensures s1[c] == s2[c] && e1[c] == e2[c]
    decreases if right then c else |pixels| - c
  {
    hide ColumnDone;
    var before := if right then c - 1 else c + 1;
    if 0 <= before < |pixels| {
      RowUnique(pixels, s1, e1, s2, e2, init, right, colormap, maxval, before);
    }
    ColumnUnique(pixels[c], s1[c], e1, s2[c], e2, init, c, right, colormap, maxval);
  }

  lemma ColumnUnique(pixel: Vec, s1: Vec, e1: seq<Vec>, s2: Vec, e2: seq<Vec>, init: seq<Vec>, c: nat, right: bool,
                     colormap: seq<Vec>, maxval: int)
    requires c + 1 < |init| && c < |e1| && c < |e2|
    requires ColumnDone(pixel, s1, init, e1, c, right, colormap, maxval)
    requires ColumnDone(pixel, s2, init, e2, c, right, colormap, maxval)
    requires At(e1, if right then c - 1 else c + 1) == At(e2, if right then c - 1 else c + 1)
    ensures s1 == s2 && e1[c] == e2[c]
  {
    assert Ahead(init, e1, c + 1, right) == Ahead(init, e2, c + 1, right);
    var want := Wanted(pixel, Ahead(init, e1, c + 1, right), maxval);
    hide Wanted, Ahead, IsNearest;
    var i :| IsNearest(want, colormap, i) && s1 == colormap[i];
    var j :| IsNearest(want, colormap, j) && s2 == colormap[j];
    NearestUnique(want, colormap, i, j);
  }

  function Mirror(s: seq<Vec>): (r: seq<Vec>)
    ensures |r| == |s|
  {
    seq(|s|, i requires 0 <= i < |s| => s[|s| - 1 - i])
  }

  lemma MirrorCells(init: seq<Vec>, e: seq<Vec>, j: nat, right: bool)
    requires |init| == |e| + 2 && j < |init|
    ensures var m := |e| + 1 - j;
            Ahead(Mirror(init), Mirror(e), m, !right) == Ahead(init, e, j, right) &&
            Below(Mirror(e), m, !right) == Below(e, j, right)
  {
    var m := |e| + 1 - j;
    assert At(Mirror(e), m) == At(e, j - 2) && At(Mirror(e), m - 1) == At(e, j - 1) && At(Mirror(e), m - 2) == At(e, j);
    assert Mirror(init)[m] == init[j];
    hide At;
  }

  /** A row walked leftwards is the mirror image of the mirrored row walked rightwards. */
  lemma RowMirrored(pixels: seq<Vec>, shown: seq<Vec>, init: seq<Vec>, e: seq<Vec>, right: bool, colormap: seq<Vec>,
                    maxval: int)
    requires RowDone(pixels, shown, init, e, right, colormap, maxval)
    ensures RowDone(Mirror(pixels), Mirror(shown), Mirror(init), Mirror(e), !right, colormap, maxval)
  {
    hide Wanted, Ahead, IsNearest;
    forall c | 0 <= c < |pixels|
      ensures ColumnDone(Mirror(pixels)[c], Mirror(shown)[c], Mirror(init), Mirror(e), c, !right, colormap, maxval)
    {
      var d := |pixels| - 1 - c;
      assert ColumnDone(pixels[d], shown[d], init, e, d, right, colormap, maxval);
      MirrorCells(init, e, d + 1, right);
    }
  }

  // ----- the image -----

  predicate Rightward(k: nat) { k % 2 == 0 }

  function BelowRow(e: seq<Vec>, right: bool): (s: seq<Vec>)
    ensures |s| == |e| + 2
  {
    seq(|e| + 2, j requires 0 <= j => Below(e, j, right))
  }

  /** The errors row k starts from: the random start, or what the row above passed down. */
  function RowStart(start: seq<Vec>, errs: seq<seq<Vec>>, k: nat): seq<Vec>
    requires k <= |errs|
  {
    if k == 0 then start else BelowRow(errs[k - 1], Rightward(k - 1))
  }

  ghost predicate RowOk(image: seq<seq<Vec>>, shown: seq<seq<Vec>>, start: seq<Vec>, errs: seq<seq<Vec>>, k: nat,
                        colormap: seq<Vec>, maxval: int)
    requires |shown| == |errs| == |image| && k < |image|
  {
    RowDone(image[k], shown[k], RowStart(start, errs, k), errs[k], Rightward(k), colormap, maxval)
  }

  ghost predicate ImageDone(image: seq<seq<Vec>>, shown: seq<seq<Vec>>, start: seq<Vec>, errs: seq<seq<Vec>>,
                            colormap: seq<Vec>, maxval: int)
  {
    |shown| == |errs| == |image| &&
    forall k :: 0 <= k < |image| ==> RowOk(image, shown, start, errs, k, colormap, maxval)
  }

  lemma RowOkKept(image: seq<seq<Vec>>, shown: seq<seq<Vec>>, start: seq<Vec>, errs: seq<seq<Vec>>, k: nat,
                  colormap: seq<Vec>, maxval: int, pixels: seq<Vec>, line: seq<Vec>, e: seq<Vec>)
    requires |shown| == |errs| == |image| && k < |image| && RowOk(image, shown, start, errs, k, colormap, maxval)
    ensures RowOk(image + [pixels], shown + [line], start, errs + [e], k, colormap, maxval)
  {
    hide RowDone, Rightward, BelowRow;
  }

  lemma RowOkNew(image: seq<seq<Vec>>, shown: seq<seq<Vec>>, start: seq<Vec>, errs: seq<seq<Vec>>,
                 colormap: seq<Vec>, maxval: int, pixels: seq<Vec>, line: seq<Vec>, e: seq<Vec>)
    requires |shown| == |errs| == |image|
    requires RowDone(pixels, line, RowStart(start, errs, |image|), e, Rightward(|image|), colormap, maxval)
    ensures RowOk(image + [pixels], shown + [line], start, errs + [e], |image|, colormap, maxval)
  {
    hide RowDone, Rightward, BelowRow;
  }

  lemma ImageMore(image: seq<seq<Vec>>, shown: seq<seq<Vec>>, start: seq<Vec>, errs: seq<seq<Vec>>,
                  colormap: seq<Vec>, maxval: int, pixels: seq<Vec>, line: seq<Vec>, e: seq<Vec>)
    requires ImageDone(image, shown, start, errs, colormap, maxval)
    requires RowDone(pixels, line, RowStart(start, errs, |image|), e, Rightward(|image|), colormap, maxval)
    ensures ImageDone(image + [pixels], shown + [line], start, errs + [e], colormap, maxval)
  {
    var image', shown', errs' := image + [pixels], shown + [line], errs + [e];
    hide RowOk, RowDone, RowStart, Rightward;
    RowOkNew(image, shown, start, errs, colormap, maxval, pixels, line, e);
    forall k | 0 <= k < |image'|
      ensures RowOk(image', shown', start, errs', k, colormap, maxval)
    {
      if k < |image| {
        RowOkKept(image, shown, start, errs, k, colormap, maxval, pixels, line, e);
      }
    }
  }

  lemma PassedDown(init: seq<Vec>, e: seq<Vec>, cur: seq<Vec>, next: seq<Vec>, right: bool)
    requires Scattered(init, e, cur, next, right)
    ensures next == BelowRow(e, right)
  {
    hide Below, Ahead;
  }

  /** One row of the image, from the line read to the line written; what it passes down is left in `next`. */
  method DitherLine(d: Ditherer, pixels: seq<Vec>, cur: array<Vec>, next: array<Vec>, right: bool)
    returns (ok: bool, line: seq<Vec>, ghost e: seq<Vec>, ghost stuck: nat)
    requires d.Valid() && |pixels| >= 1 && cur.Length == next.Length == |pixels| + 2 && cur != next
    modifies d`matched, d`useHash, cur, next
    ensures d.Valid()
    ensures ok ==> RowDone(pixels, line, old(cur[..]), e, right, d.colormap, d.maxval) && next[..] == BelowRow(e, right)
    ensures !ok ==> RowStuck(pixels, line, old(cur[..]), e, stuck, right, d.colormap, d.maxval)
  {
    hide RowDone, RowStuck, Scattered, Balanced, Ditherer.Valid, BelowRow;
    var a := new Vec[|pixels|](j requires 0 <= j < |pixels| => pixels[j]);
    assert a[..] == pixels;
    ghost var init := cur[..];
    ok, e, stuck := d.DitherRow(a, cur, next, right);
    if ok {
      PassedDown(init, e, cur[..], next[..], right);
    }
    line := a[..];
  }

  /** The rows before some row are done, and that row cannot be. */
  ghost predicate ImageStuck(image: seq<seq<Vec>>, shown: seq<seq<Vec>>, start: seq<Vec>, errs: seq<seq<Vec>>,
                             line: seq<Vec>, e: seq<Vec>, col: nat, colormap: seq<Vec>, maxval: int)
  {
    var k := |shown|;
    |errs| == k < |image| && ImageDone(image[..k], shown, start, errs, colormap, maxval) &&
    RowStuck(image[k], line, RowStart(start, errs, k), e, col, Rightward(k), colormap, maxval)
  }

  /** Dithers an image of equally long rows. */
  method DitherImage(image: seq<seq<Vec>>, cols: nat, start: seq<Vec>, colors: seq<Vec>, maxval: int, room: nat)
    returns (ok: bool, shown: seq<seq<Vec>>, ghost errs: seq<seq<Vec>>, line: seq<Vec>, ghost e: seq<Vec>, ghost stuck: nat)
    requires cols >= 1 && |start| == cols + 2 && forall k :: 0 <= k < |image| ==> |image[k]| == cols
    requires 0 <= maxval && OnScale(colors, maxval)
    ensures ok ==> ImageDone(image, shown, start, errs, colors, maxval)
    ensures !ok ==> ImageStuck(image, shown, start, errs, line, e, stuck, colors, maxval)
    ensures Covers(colors, maxval) ==> ok
  {
    hide RowDone, RowStuck, ImageDone, OnScale, Covers, Ditherer.Valid, RowStart, BelowRow;
    var d := new Ditherer(colors, maxval, room);
    var cur := new Vec[cols + 2](j requires 0 <= j < |start| => start[j]);
    var next := new Vec[cols + 2](_ => ZERO);
    var right := true;
    ok, shown, errs, line, e, stuck := true, [], [], [], [], 0;
    NoRows(start, colors, maxval);
    assert image[..0] == [];
    assert cur[..] == start;
    FirstStart(start, errs);
    for row := 0 to |image|
      invariant d.Valid() && d.colormap == colors && d.maxval == maxval && fresh(d)
      invariant fresh(cur) && fresh(next) && cur != next && cur.Length == next.Length == cols + 2
      invariant |shown| == |errs| == row && right == Rightward(row) && ok
      invariant cur[..] == RowStart(start, errs, row)
      invariant ImageDone(image[..row], shown, start, errs, colors, maxval)
    {
      ok, line, e, stuck := DitherLine(d, image[row], cur, next, right);
      if !ok {
        StuckUncovered(image[row], line, RowStart(start, errs, row), e, stuck, right, colors, maxval);
        return;
      }
      ImageMore(image[..row], shown, start, errs, colors, maxval, image[row], line, e);
      NextStart(start, errs, e);
      assert image[..row] + [image[row]] == image[..row + 1];
      shown, errs := shown + [line], errs + [e];
      cur, next := next, cur;
      right := !right;
    }
    assert image[..|image|] == image;
  }

  lemma StuckUncovered(pixels: seq<Vec>, line: seq<Vec>, init: seq<Vec>, e: seq<Vec>, col: nat, right: bool,
                       colormap: seq<Vec>, maxval: int)
    requires RowStuck(pixels, line, init, e, col, right, colormap, maxval) && 0 <= maxval
    ensures !Covers(colormap, maxval)
  {
    WantedInRange(pixels[col], Ahead(init, e, col + 1, right), maxval);
    hide Wanted, Ahead, Reached, Partly;
  }

  /** In a row that can be done, the colour wanted at each column is close enough to some colour of the map. */
  lemma DoneReaches(pixels: seq<Vec>, line: seq<Vec>, init: seq<Vec>, e: seq<Vec>, col: nat, right: bool,
                    colormap: seq<Vec>, maxval: int, shown: seq<Vec>, e': seq<Vec>)
    requires Partly(pixels, line, init, e, col, right, colormap, maxval) && col < |pixels|
    requires RowDone(pixels, shown, init, e', right, colormap, maxval)
    ensures Reached(Wanted(pixels[col], Ahead(init, e, col + 1, right), maxval), colormap)
  {
    var before := if right then col - 1 else col + 1;
    if 0 <= before < |pixels| {
      PartlyUnique(pixels, line, e, shown, e', init, col, right, colormap, maxval, before);
    }
    assert Ahead(init, e, col + 1, right) == Ahead(init, e', col + 1, right);
    assert ColumnDone(pixels[col], shown[col], init, e', col, right, colormap, maxval);
    var want := Wanted(pixels[col], Ahead(init, e, col + 1, right), maxval);
    hide Wanted, Ahead, Reached, IsNearest, Partly, RowDone;
    var i :| IsNearest(want, colormap, i) && shown[col] == colormap[i];
    NearestReached(want, colormap, i);
  }

  /** So a row that is stuck at some column cannot be done in any way. */
  lemma StuckNotDone(pixels: seq<Vec>, line: seq<Vec>, init: seq<Vec>, e: seq<Vec>, col: nat, right: bool,
                     colormap: seq<Vec>, maxval: int, shown: seq<Vec>, e': seq<Vec>)
    requires RowStuck(pixels, line, init, e, col, right, colormap, maxval)
    ensures !RowDone(pixels, shown, init, e', right, colormap, maxval)
  {
    hide RowDone, Partly, Reached, Wanted, Ahead;
    if RowDone(pixels, shown, init, e', right, colormap, maxval) {
      DoneReaches(pixels, line, init, e, col, right, colormap, maxval, shown, e');
    }
  }

  lemma {:induction false} PartlyUnique(pixels: seq<Vec>, s1: seq<Vec>, e1: seq<Vec>, s2: seq<Vec>, e2: seq<Vec>,
                                        init: seq<Vec>, col: nat, right: bool, colormap: seq<Vec>, maxval: int, c: nat)
    requires Partly(pixels, s1, init, e1, col, right, colormap, maxval)
    requires RowDone(pixels, s2, init, e2, right, colormap, maxval)
    requires c < |pixels| && Past(c, col, right)
    ensures s1[c] == s2[c] && e1[c] == e2[c]
    decreases if right then c else |pixels| - c
  {
    hide ColumnDone;
    var before := if right then c - 1 else c + 1;
    if 0 <= before < |pixels| {
      PartlyUnique(pixels, s1, e1, s2, e2, init, col, right, colormap, maxval, before);
    }
    ColumnUnique(pixels[c], s1[c], e1, s2[c], e2, init, c, right, colormap, maxval);
  }

  lemma FirstStart(start: seq<Vec>, errs: seq<seq<Vec>>)
    ensures RowStart(start, errs, 0) == start
  {
  }

  lemma NextStart(start: seq<Vec>, errs: seq<seq<Vec>>, e: seq<Vec>)
    ensures RowStart(start, errs + [e], |errs| + 1) == BelowRow(e, Rightward(|errs|))
  {
    hide BelowRow, Rightward;
  }

  lemma NoRows(start: seq<Vec>, colormap: seq<Vec>, maxval: int)
    ensures ImageDone([], [], start, [], colormap, maxval)
  {
  }

  /** In every row, in both directions, every error cell stays within a whole step of the colour scale, provided
      the scale has at least two steps. */
  lemma ErrorsBounded(image: seq<seq<Vec>>, shown: seq<seq<Vec>>, start: seq<Vec>, errs: seq<seq<Vec>>,
                      colormap: seq<Vec>, maxval: int, k: nat, j: nat)
    requires ImageDone(image, shown, start, errs, colormap, maxval)
    requires k < |image| && j < |RowStart(start, errs, k)|
    requires maxval >= 2 && forall i :: 0 <= i < |colormap| ==> InRange(colormap[i], maxval)
    requires forall i :: 0 <= i < |start| ==> Within(start[i], FS_SCALE)
    requires forall i :: 0 <= i < |image| ==> |image[i]| == |image[k]|
    ensures Within(RowStart(start, errs, k)[j], 576 * maxval)
    ensures Within(Ahead(RowStart(start, errs, k), errs[k], j, Rightward(k)), FS_SCALE * maxval)
  {
    hide ImageDone, Within, InRange, Below, Ahead, BelowRow;
    RowInBounds(image, shown, start, errs, colormap, maxval, k);
    if k > 0 {
      RowInBounds(image, shown, start, errs, colormap, maxval, k - 1);
      PassedBounded(errs[k - 1], j, Rightward(k - 1), maxval);
    }
    StartBounded(start, errs, k, j, maxval);
    hide RowStart;
    CellBounds(RowStart(start, errs, k), errs[k], j, Rightward(k), maxval, 576 * maxval);
    assert 576 * maxval + 448 * maxval == FS_SCALE * maxval;
  }

  lemma StartBounded(start: seq<Vec>, errs: seq<seq<Vec>>, k: nat, j: nat, maxval: int)
    requires k <= |errs| && j < |RowStart(start, errs, k)| && maxval >= 2
    requires k == 0 ==> Within(start[j], FS_SCALE)
    requires k > 0 ==> Within(Below(errs[k - 1], j, Rightward(k - 1)), 576 * maxval)
    ensures Within(RowStart(start, errs, k)[j], 576 * maxval)
  {
    hide Below;
  }

  lemma PassedBounded(e: seq<Vec>, j: nat, right: bool, maxval: int)
    requires 0 <= maxval && forall i :: 0 <= i < |e| ==> Within(e[i], maxval)
    ensures Within(Below(e, j, right), 576 * maxval)
  {
    CellBounds(seq(j + 1, _ => ZERO), e, j, right, maxval, 0);
  }

  lemma RowInBounds(image: seq<seq<Vec>>, shown: seq<seq<Vec>>, start: seq<Vec>, errs: seq<seq<Vec>>,
                    colormap: seq<Vec>, maxval: int, k: nat)
    requires ImageDone(image, shown, start, errs, colormap, maxval) && k < |image| && 0 <= maxval
    requires forall i :: 0 <= i < |colormap| ==> InRange(colormap[i], maxval)
    ensures |errs| == |image| && |errs[k]| == |image[k]| && |RowStart(start, errs, k)| == |image[k]| + 2
    ensures forall c :: 0 <= c < |errs[k]| ==> Within(errs[k][c], maxval)
  {
    assert RowOk(image, shown, start, errs, k, colormap, maxval);
    forall c | 0 <= c < |errs[k]|
      ensures Within(errs[k][c], maxval)
    {
      RowErrors(image[k], shown[k], RowStart(start, errs, k), errs[k], Rightward(k), colormap, maxval, c);
    }
  }

  /** With a single step it can fail: a black row onto a white map, from an allowed start. */
  lemma OneStepOverflows()
    ensures var pixels, shown := [ZERO, ZERO], [Vec(1, 1, 1), Vec(1, 1, 1)];
            var start := seq(4, _ => Vec(-1024, -1024, -1024));
            var e := [Vec(-1, -1, -1), Vec(-1, -1, -1)];
            RowDone(pixels, shown, start, e, true, [Vec(1, 1, 1)], 1) &&
            !Within(Ahead(start, e, 2, true), FS_SCALE * 1)
  {
    var pixels, shown := [ZERO, ZERO], [Vec(1, 1, 1), Vec(1, 1, 1)];
    var start := seq(4, _ => Vec(-1024, -1024, -1024));
    var e := [Vec(-1, -1, -1), Vec(-1, -1, -1)];
    assert Ahead(start, e, 1, true) == Vec(-1024, -1024, -1024);
    assert Ahead(start, e, 2, true) == Vec(-1472, -1472, -1472);
    assert IsNearest(ZERO, [Vec(1, 1, 1)], 0);
    assert ColumnDone(ZERO, Vec(1, 1, 1), start, e, 0, true, [Vec(1, 1, 1)], 1);
    assert ColumnDone(ZERO, Vec(1, 1, 1), start, e, 1, true, [Vec(1, 1, 1)], 1);
  }
}
