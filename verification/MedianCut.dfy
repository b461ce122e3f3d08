/** Median-cut colour quantisation: boxes of a colour histogram are split at their median until there are enough,
    and each gives the average of its pixels. */
module MedianCut {
  import opened Diffusion

  /** A colour and how many pixels have it. */
  datatype Item = Item(color: Vec, value: nat)

  /** A run of the histogram. */
  datatype Box = Box(ind: nat, colors: nat, sum: int)

  // ----- sorting -----

  ghost predicate SortedBy<T>(s: seq<T>, key: T -> int) {
    forall i, j :: 0 <= i < j < |s| ==> key(s[i]) <= key(s[j])
  }

  function Insert<T>(x: T, s: seq<T>, key: T -> int): (r: seq<T>)
    ensures |r| == |s| + 1
  {
    if s == [] || key(x) <= key(s[0]) then [x] + s else [s[0]] + Insert(x, s[1..], key)
  }

  function Sort<T>(s: seq<T>, key: T -> int): (r: seq<T>)
    ensures |r| == |s|
  {
    if s == [] then [] else Insert(s[0], Sort(s[1..], key), key)
  }

  lemma ConsSorted<T>(x: T, s: seq<T>, key: T -> int)
    requires SortedBy(s, key) && forall y <- multiset(s) :: key(x) <= key(y)
    ensures SortedBy([x] + s, key)
  {
    var r := [x] + s;
    forall i, j | 0 <= i < j < |r|
      ensures key(r[i]) <= key(r[j])
    {
      assert r[j] == s[j - 1] && s[j - 1] in multiset(s);
    }
  }

  lemma TailSorted<T>(s: seq<T>, key: T -> int)
    requires SortedBy(s, key) && s != []
    ensures SortedBy(s[1..], key) && forall y <- multiset(s[1..]) :: key(s[0]) <= key(y)
    ensures multiset(s) == multiset{s[0]} + multiset(s[1..])
  {
    assert s == [s[0]] + s[1..];
  }

  lemma {:induction false} InsertSorts<T>(x: T, s: seq<T>, key: T -> int)
    requires SortedBy(s, key)
    ensures SortedBy(Insert(x, s, key), key)
    ensures multiset(Insert(x, s, key)) == multiset{x} + multiset(s)
  {
    if s == [] || key(x) <= key(s[0]) {
      assert forall y <- multiset(s) :: key(x) <= key(y);
      ConsSorted(x, s, key);
    } else {
      var tail, rest := s[1..], Insert(x, s[1..], key);
      assert Insert(x, s, key) == [s[0]] + rest;
      hide Insert, SortedBy;
      TailSorted(s, key);
      InsertSorts(x, tail, key);
      ConsSorted(s[0], rest, key);
      assert multiset([s[0]] + rest) == multiset{s[0]} + multiset(rest);
    }
  }

  /** What a sorting routine promises: the same elements, in order. */
  lemma {:induction false} Sorts<T>(s: seq<T>, key: T -> int)
    ensures SortedBy(Sort(s, key), key) && multiset(Sort(s, key)) == multiset(s)
  {
    if s != [] {
      Sorts(s[1..], key);
      InsertSorts(s[0], Sort(s[1..], key), key);
      assert s == [s[0]] + s[1..];
      hide SortedBy, Insert;
    }
  }

  // ----- pixel counts -----

  function Total(s: seq<Item>): nat {
    if s == [] then 0 else Total(s[..|s| - 1]) + s[|s| - 1].value
  }

  lemma {:induction false} TotalSum(a: seq<Item>, b: seq<Item>)
    ensures Total(a + b) == Total(a) + Total(b)
  {
    if b == [] {
      assert a + b == a;
    } else {
      assert (a + b)[..|a + b| - 1] == a + b[..|b| - 1];
      TotalSum(a, b[..|b| - 1]);
    }
  }

  lemma TotalOne(x: Item)
    ensures Total([x]) == x.value
  {
    assert [x][..0] == [];
  }

  /** Taking one element out. */
  lemma TotalWithout(s: seq<Item>, i: nat)
    requires i < |s|
    ensures Total(s) == Total(s[..i] + s[i + 1..]) + s[i].value
  {
    hide Total;
    var a, x, b := s[..i], s[i], s[i + 1..];
    TotalOne(x);
    assert s == a + [x] + b;
    TotalSum(a, b);
    TotalSum(a, [x]);
    TotalSum(a + [x], b);
  }

  lemma Without<T>(s: seq<T>, i: nat)
    requires i < |s|
    ensures multiset(s[..i] + s[i + 1..]) == multiset(s) - multiset{s[i]}
  {
    assert s == s[..i] + [s[i]] + s[i + 1..];
  }

  lemma {:induction false} TotalPermuted(a: seq<Item>, b: seq<Item>)
    requires multiset(a) == multiset(b)
    ensures Total(a) == Total(b)
    decreases |a|
  {
    assert |multiset(a)| == |a| && |multiset(b)| == |b|;
    if a != [] {
      var n := |a| - 1;
      assert a[n] in multiset(b);
      var i :| 0 <= i < |b| && b[i] == a[n];
      Without(a, n);
      Without(b, i);
      assert a[..n] + a[n + 1..] == a[..n];
      TotalPermuted(a[..n], b[..i] + b[i + 1..]);
      TotalWithout(b, i);
    }
  }

  // ----- boxes that tile the histogram -----

  /** The boxes follow each other from one index to another, none empty, each with its pixel count. */
  ghost predicate Tiles(t: seq<Box>, chv: seq<Item>, from: nat, to: nat)
    decreases |t|
  {
    if t == [] then from == to <= |chv|
    else
      t[0].ind == from && t[0].colors >= 1 && from + t[0].colors <= to <= |chv| &&
      t[0].sum == Total(chv[from..from + t[0].colors]) && Tiles(t[1..], chv, from + t[0].colors, to)
  }

  lemma {:induction false} TilesJoin(a: seq<Box>, b: seq<Box>, chv: seq<Item>, from: nat, mid: nat, to: nat)
    requires Tiles(a, chv, from, mid) && Tiles(b, chv, mid, to) && mid <= to
    ensures Tiles(a + b, chv, from, to)
    decreases |a|
  {
    if a == [] {
      assert a + b == b;
    } else {
      assert (a + b)[1..] == a[1..] + b;
      TilesJoin(a[1..], b, chv, from + a[0].colors, mid, to);
    }
  }

  lemma {:induction false} TilesCut(t: seq<Box>, p: nat, chv: seq<Item>, from: nat, to: nat)
    requires Tiles(t, chv, from, to) && p < |t|
    ensures var box := t[p]; from <= box.ind && box.ind + box.colors <= to && box.colors >= 1
    ensures Tiles(t[..p], chv, from, t[p].ind)
    ensures t[p].sum == Total(chv[t[p].ind..t[p].ind + t[p].colors])
    ensures Tiles(t[p + 1..], chv, t[p].ind + t[p].colors, to)
    decreases p
  {
    if p > 0 {
      TilesCut(t[1..], p - 1, chv, from + t[0].colors, to);
      assert t[1..][..p - 1] == t[..p][1..];
      assert t[1..][p..] == t[p + 1..];
    }
  }

  /** Only the stretch that is tiled matters. */
  lemma {:induction false} TilesFrame(t: seq<Box>, c1: seq<Item>, c2: seq<Item>, from: nat, to: nat)
    requires Tiles(t, c1, from, to) && from <= to <= |c2| && c1[from..to] == c2[from..to]
    ensures Tiles(t, c2, from, to)
    decreases |t|
  {
    if t != [] {
      var mid := from + t[0].colors;
      assert c1[from..mid] == c1[from..to][..mid - from];
      assert c2[from..mid] == c2[from..to][..mid - from];
      assert c1[mid..to] == c1[from..to][mid - from..];
      assert c2[mid..to] == c2[from..to][mid - from..];
      TilesFrame(t[1..], c1, c2, mid, to);
    }
  }

  lemma TilesOne(box: Box, chv: seq<Item>, from: nat, to: nat)
    requires from < to <= |chv| && box == Box(from, to - from, Total(chv[from..to]))
    ensures Tiles([box], chv, from, to)
  {
    assert [box][1..] == [];
  }

  lemma TilesTwo(chv: seq<Item>, lo: nat, mid: nat, hi: nat)
    requires lo < mid < hi <= |chv|
    ensures var low := Total(chv[lo..mid]);
            Tiles([Box(lo, mid - lo, low), Box(mid, hi - mid, Total(chv[lo..hi]) - low)], chv, lo, hi)
  {
    hide Tiles, Total;
    var left := Box(lo, mid - lo, Total(chv[lo..mid]));
    var right := Box(mid, hi - mid, Total(chv[mid..hi]));
    assert chv[lo..hi] == chv[lo..mid] + chv[mid..hi];
    TotalSum(chv[lo..mid], chv[mid..hi]);
    TilesOne(left, chv, lo, mid);
    TilesOne(right, chv, mid, hi);
    TilesJoin([left], [right], chv, lo, mid, hi);
    assert [left] + [right] == [left, right];
  }

  /** c2 is c1 but for the stretch from lo to hi, which still counts as many pixels. */
  ghost predicate Rearranged(c1: seq<Item>, c2: seq<Item>, lo: nat, hi: nat) {
    lo <= hi <= |c1| == |c2| && Total(c2[lo..hi]) == Total(c1[lo..hi]) &&
    forall k :: 0 <= k < lo || hi <= k < |c1| ==> c2[k] == c1[k]
  }

  lemma TilesAround(a: seq<Box>, b: seq<Box>, c1: seq<Item>, c2: seq<Item>, lo: nat, hi: nat, to: nat)
    requires Rearranged(c1, c2, lo, hi) && hi <= to <= |c1|
    requires Tiles(a, c1, 0, lo) && Tiles(b, c1, hi, to)
    ensures Tiles(a, c2, 0, lo) && Tiles(b, c2, hi, to)
  {
    hide Tiles, Total;
    assert c2[0..lo] == c1[0..lo] && c2[hi..to] == c1[hi..to];
    TilesFrame(a, c1, c2, 0, lo);
    TilesFrame(b, c1, c2, hi, to);
  }

  function Left(box: Box, i: nat, low: int): Box { Box(box.ind, i, low) }

  function Right(box: Box, i: nat, low: int): Box
    requires i <= box.colors
  {
    Box(box.ind + i, box.colors - i, box.sum - low)
  }

  lemma TilesHalves(box: Box, i: nat, c: seq<Item>)
    requires 1 <= i < box.colors && box.ind + box.colors <= |c|
    requires box.sum == Total(c[box.ind..box.ind + box.colors])
    ensures var low := Total(c[box.ind..box.ind + i]);
            Tiles([Left(box, i, low), Right(box, i, low)], c, box.ind, box.ind + box.colors)
  {
    hide Tiles, Total;
    TilesTwo(c, box.ind, box.ind + i, box.ind + box.colors);
  }

  lemma SplitPieces(a: seq<Box>, box: Box, b: seq<Box>, c1: seq<Item>, c2: seq<Item>, to: nat, i: nat)
    requires 1 <= i < box.colors && box.ind + box.colors <= to <= |c1|
    requires Rearranged(c1, c2, box.ind, box.ind + box.colors)
    requires Tiles(a, c1, 0, box.ind) && Tiles(b, c1, box.ind + box.colors, to)
    requires box.sum == Total(c1[box.ind..box.ind + box.colors])
    ensures var low := Total(c2[box.ind..box.ind + i]);
            Tiles(a + [Left(box, i, low), Right(box, i, low)] + b, c2, 0, to)
  {
    hide Tiles, Total, Left, Right;
    TilesHalves(box, i, c2);
    TilesAround(a, b, c1, c2, box.ind, box.ind + box.colors, to);
    var low := Total(c2[box.ind..box.ind + i]);
    ThreeTiles(a, [Left(box, i, low), Right(box, i, low)], b, c2, box.ind, box.ind + box.colors, to);
  }

  /** Splitting one box, whose stretch may have been rearranged, keeps the tiling. */
  lemma TilesSplit(t: seq<Box>, p: nat, c1: seq<Item>, c2: seq<Item>, to: nat, i: nat)
    requires Tiles(t, c1, 0, to) && p < |t| && 1 <= i < t[p].colors && to <= |c1|
    requires Rearranged(c1, c2, t[p].ind, t[p].ind + t[p].colors)
    ensures t[p].ind + i <= |c2|
    ensures var low := Total(c2[t[p].ind..t[p].ind + i]);
            Tiles(t[..p] + [Left(t[p], i, low), Right(t[p], i, low)] + t[p + 1..], c2, 0, to)
  {
    hide Tiles, Total, Left, Right;
    TilesCut(t, p, c1, 0, to);
    SplitPieces(t[..p], t[p], t[p + 1..], c1, c2, to, i);
  }

  lemma ThreeTiles(a: seq<Box>, b: seq<Box>, c: seq<Box>, chv: seq<Item>, lo: nat, hi: nat, to: nat)
    requires lo <= hi <= to && Tiles(a, chv, 0, lo) && Tiles(b, chv, lo, hi) && Tiles(c, chv, hi, to)
    ensures Tiles(a + b + c, chv, 0, to)
  {
    hide Tiles;
    TilesJoin(a, b, chv, 0, lo, hi);
    TilesJoin(a + b, c, chv, 0, hi, to);
  }

  lemma {:induction false} TilesCount(t: seq<Box>, chv: seq<Item>, from: nat, to: nat)
    requires Tiles(t, chv, from, to)
    ensures |t| <= to - from
    ensures (forall k :: 0 <= k < |t| ==> t[k].colors == 1) ==> |t| == to - from
    decreases |t|
  {
    if t != [] {
      TilesCount(t[1..], chv, from + t[0].colors, to);
    }
  }

  lemma {:induction false} TilesTotal(t: seq<Box>, chv: seq<Item>, from: nat, to: nat)
    requires Tiles(t, chv, from, to) && from <= to
    ensures BoxSum(t) == Total(chv[from..to])
    decreases |t|
  {
    if t != [] {
      var mid := from + t[0].colors;
      TilesTotal(t[1..], chv, mid, to);
      TotalSum(chv[from..mid], chv[mid..to]);
      assert chv[from..to] == chv[from..mid] + chv[mid..to];
    }
  }

  function BoxSum(t: seq<Box>): int {
    if t == [] then 0 else t[0].sum + BoxSum(t[1..])
  }

  // ----- representatives -----

  function Comp(v: Vec, axis: nat): int { if axis == 0 then v.r else if axis == 1 then v.g else v.b }

  function Least(s: seq<Item>, axis: nat): int
    requires s != []
  {
    var x := Comp(s[|s| - 1].color, axis);
    if |s| == 1 then x
    else
      var m := Least(s[..|s| - 1], axis);
      if x < m then x else m
  }

  function Greatest(s: seq<Item>, axis: nat): int
    requires s != []
  {
    var x := Comp(s[|s| - 1].color, axis);
    if |s| == 1 then x
    else
      var m := Greatest(s[..|s| - 1], axis);
      if x > m then x else m
  }

  lemma {:induction false} LeastGreatest(s: seq<Item>, axis: nat, i: nat)
    requires i < |s|
    ensures Least(s, axis) <= Comp(s[i].color, axis) <= Greatest(s, axis)
  {
    if i < |s| - 1 {
      LeastGreatest(s[..|s| - 1], axis, i);
    }
  }

  /** And some colour has them. */
  lemma {:induction false} ExtremesTaken(s: seq<Item>, axis: nat) returns (i: nat, j: nat)
    requires s != []
    ensures i < |s| && Comp(s[i].color, axis) == Least(s, axis)
    ensures j < |s| && Comp(s[j].color, axis) == Greatest(s, axis)
  {
    var n := |s| - 1;
    if n == 0 {
      i, j := 0, 0;
    } else {
      i, j := ExtremesTaken(s[..n], axis);
      if Comp(s[n].color, axis) == Least(s, axis) {
        i := n;
      }
      if Comp(s[n].color, axis) == Greatest(s, axis) {
        j := n;
      }
    }
  }

  /** The component added up over all pixels. */
  function Weighted(s: seq<Item>, axis: nat): int {
    if s == [] then 0 else Weighted(s[..|s| - 1], axis) + Comp(s[|s| - 1].color, axis) * s[|s| - 1].value
  }

  lemma Grows(a: int, b: int, n: nat)
    requires a <= b
    ensures a * n <= b * n
  {
  }

  lemma AddScaled(a: int, n: nat, v: nat)
    ensures a * (n + v) == a * n + a * v
  {
  }

  lemma {:induction false} WeightedBounds(s: seq<Item>, axis: nat, lo: int, hi: int)
    requires forall i :: 0 <= i < |s| ==> lo <= Comp(s[i].color, axis) <= hi
    ensures lo * Total(s) <= Weighted(s, axis) <= hi * Total(s)
  {
    if s != [] {
      var front, last := s[..|s| - 1], s[|s| - 1];
      WeightedBounds(front, axis, lo, hi);
      var c := Comp(last.color, axis);
      Grows(lo, c, last.value);
      Grows(c, hi, last.value);
      AddScaled(lo, Total(front), last.value);
      AddScaled(hi, Total(front), last.value);
    }
  }

  lemma Divided(w: int, t: nat, lo: int, hi: int)
    requires t > 0 && lo * t <= w <= hi * t
    ensures lo <= w / t <= hi
  {
    assert w == t * (w / t) + w % t;
    if w / t < lo {
      Grows(w / t + 1, lo, t);
    }
    if w / t > hi {
      Grows(hi + 1, w / t, t);
    }
  }

  lemma {:induction false} TotalPositive(s: seq<Item>)
    requires s != [] && forall i :: 0 <= i < |s| ==> s[i].value >= 1
    ensures Total(s) >= 1
  {
  }

  /** The average lies between the least and the greatest component. */
  lemma AverageBetween(s: seq<Item>, axis: nat)
    requires s != [] && forall i :: 0 <= i < |s| ==> s[i].value >= 1
    ensures Total(s) >= 1
    ensures Least(s, axis) <= Weighted(s, axis) / Total(s) <= Greatest(s, axis)
  {
    TotalPositive(s);
    var lo, hi := Least(s, axis), Greatest(s, axis);
    forall i | 0 <= i < |s|
      ensures lo <= Comp(s[i].color, axis) <= hi
    {
      LeastGreatest(s, axis, i);
    }
    WeightedBounds(s, axis, lo, hi);
    hide Total, Weighted, Least, Greatest;
    Divided(Weighted(s, axis), Total(s), lo, hi);
  }

  // ----- the algorithm -----

  method Place(chv: array<Item>, lo: nat, s: seq<Item>)
    requires lo + |s| <= chv.Length
    modifies chv
    ensures chv[..lo] == old(chv[..lo]) && chv[lo + |s|..] == old(chv[lo + |s|..])
    ensures chv[lo..lo + |s|] == s
  {
    for k := 0 to |s|
      invariant chv[..lo] == old(chv[..lo]) && chv[lo + |s|..] == old(chv[lo + |s|..])
      invariant forall j :: 0 <= j < k ==> chv[lo + j] == s[j]
    {
      chv[lo + k] := s[k];
    }
  }

  /** Sorts a stretch of the histogram by one component. */
  method SortRange(chv: array<Item>, lo: nat, hi: nat, axis: nat)
    requires lo <= hi <= chv.Length
    modifies chv
    ensures chv[..lo] == old(chv[..lo]) && chv[hi..] == old(chv[hi..])
    ensures multiset(chv[lo..hi]) == multiset(old(chv[lo..hi]))
    ensures SortedBy(chv[lo..hi], (x: Item) => Comp(x.color, axis))
  {
    hide SortedBy, Sort, Comp;
    var key := (x: Item) => Comp(x.color, axis);
    var sorted := Sort(chv[lo..hi], key);
    Sorts(chv[lo..hi], key);
    Place(chv, lo, sorted);
  }

  /** A step along one axis, as a colour. */
  function Along(axis: nat, x: int): Vec { if axis == 0 then Vec(x, 0, 0) else if axis == 1 then Vec(0, x, 0) else Vec(0, 0, x) }

  /** How long a box is along an axis, in luminance; how colours have luminance is left to `lum`. */
  function Extent(s: seq<Item>, axis: nat, lum: Vec -> real): real
    requires s != []
  {
    lum(Along(axis, Greatest(s, axis) - Least(s, axis)))
  }

  /** The first of the axes along which the box is longest. */
  ghost predicate IsLongest(s: seq<Item>, lum: Vec -> real, axis: nat)
    requires s != []
  {
    axis < 3 &&
    forall a: nat :: a < 3 ==>
      if a < axis then Extent(s, a, lum) < Extent(s, axis, lum) else Extent(s, a, lum) <= Extent(s, axis, lum)
  }

  method LongestAxis(chv: array<Item>, box: Box, lum: Vec -> real) returns (axis: nat)
    requires box.colors >= 1 && box.ind + box.colors <= chv.Length
    ensures axis < 3 && IsLongest(chv[box.ind..box.ind + box.colors], lum, axis)
  {
    var lo := box.ind;
    var minr, maxr := chv[lo].color.r, chv[lo].color.r;
    var ming, maxg := chv[lo].color.g, chv[lo].color.g;
    var minb, maxb := chv[lo].color.b, chv[lo].color.b;
    assert chv[lo..lo + 1] == [chv[lo]];
    for i := 1 to box.colors
      invariant minr == Least(chv[lo..lo + i], 0) && maxr == Greatest(chv[lo..lo + i], 0)
      invariant ming == Least(chv[lo..lo + i], 1) && maxg == Greatest(chv[lo..lo + i], 1)
      invariant minb == Least(chv[lo..lo + i], 2) && maxb == Greatest(chv[lo..lo + i], 2)
    {
      assert chv[lo..lo + i + 1][..i] == chv[lo..lo + i];
      var v := chv[lo + i].color.r;
      if v < minr { minr := v; }
      if v > maxr { maxr := v; }
      v := chv[lo + i].color.g;
      if v < ming { ming := v; }
      if v > maxg { maxg := v; }
      v := chv[lo + i].color.b;
      if v < minb { minb := v; }
      if v > maxb { maxb := v; }
    }
    hide Least, Greatest;
    var rl, gl, bl := lum(Vec(maxr - minr, 0, 0)), lum(Vec(0, maxg - ming, 0)), lum(Vec(0, 0, maxb - minb));
    axis := if rl >= gl && rl >= bl then 0 else if gl >= bl then 1 else 2;
    ghost var s := chv[lo..lo + box.colors];
    assert Extent(s, 0, lum) == rl && Extent(s, 1, lum) == gl && Extent(s, 2, lum) == bl;
    hide Extent;
  }

  /** The least split point from which on the lower part has half the pixels, if there is one before the last. */
  ghost predicate IsMedian(chv: seq<Item>, box: Box, i: nat) {
    var lo := box.ind;
    1 <= i < box.colors && lo + box.colors <= |chv| &&
    (Total(chv[lo..lo + i]) >= box.sum / 2 || i == box.colors - 1) &&
    (i > 1 ==> Total(chv[lo..lo + i - 1]) < box.sum / 2)
  }

  method FindMedian(chv: array<Item>, box: Box) returns (i: nat, low: nat)
    requires box.colors >= 2 && box.ind + box.colors <= chv.Length
    ensures IsMedian(chv[..], box, i) && low == Total(chv[box.ind..box.ind + i])
  {
    var lo, half := box.ind, box.sum / 2;
    low := chv[lo].value;
    i := 1;
    TotalOne(chv[lo]);
    assert chv[lo..lo + 1] == [chv[lo]];
    while i < box.colors - 1
      invariant 1 <= i < box.colors && low == Total(chv[lo..lo + i])
      invariant i > 1 ==> Total(chv[lo..lo + i - 1]) < half
    {
      if low >= half {
        break;
      }
      low := low + chv[lo + i].value;
      i := i + 1;
      assert chv[lo..lo + i][..i - 1] == chv[lo..lo + i - 1];
    }
    assert chv[..][lo..lo + i] == chv[lo..lo + i] && chv[..][lo..lo + i - 1] == chv[lo..lo + i - 1];
  }

  method FirstSplittable(bv: seq<Box>) returns (bi: nat)
    ensures bi <= |bv| && (bi < |bv| ==> bv[bi].colors >= 2)
    ensures forall k :: 0 <= k < bi ==> bv[k].colors < 2
  {
    bi := 0;
    while bi < |bv|
      invariant bi <= |bv| && forall k :: 0 <= k < bi ==> bv[k].colors < 2
    {
      if bv[bi].colors >= 2 {
        break;
      }
      bi := bi + 1;
    }
  }

  lemma SplitSame(s: seq<Box>, i: nat, l: Box, r: Box)
    requires i < |s|
    ensures multiset(s[i := l] + [r]) == multiset(s[..i] + [l, r] + s[i + 1..])
    ensures multiset(s[i := l] + [r]) == multiset(s) - multiset{s[i]} + multiset{l, r}
  {
    assert s == s[..i] + [s[i]] + s[i + 1..];
    assert s[i := l] == s[..i] + [l] + s[i + 1..];
  }

  /** The box list after a split, in any order. */
  lemma SplitMultiset(bv: seq<Box>, bi: nat, t: seq<Box>, p: nat, l: Box, r: Box)
    requires multiset(bv) == multiset(t) && bi < |bv| && p < |t| && bv[bi] == t[p]
    ensures multiset(bv[bi := l] + [r]) == multiset(t[..p] + [l, r] + t[p + 1..])
  {
    SplitSame(bv, bi, l, r);
    SplitSame(t, p, l, r);
  }

  lemma WholeMultiset(c1: seq<Item>, c2: seq<Item>, lo: nat, hi: nat)
    requires lo <= hi <= |c1| == |c2| && c2[..lo] == c1[..lo] && c2[hi..] == c1[hi..]
    requires multiset(c2[lo..hi]) == multiset(c1[lo..hi])
    ensures multiset(c2) == multiset(c1)
  {
    assert c1 == c1[..lo] + c1[lo..hi] + c1[hi..];
    assert c2 == c2[..lo] + c2[lo..hi] + c2[hi..];
  }

  /** What holds of the boxes after any number of splits. */
  ghost predicate Boxed(bv: seq<Box>, t: seq<Box>, chv: seq<Item>) {
    multiset(bv) == multiset(t) && Tiles(t, chv, 0, |chv|)
  }

  lemma BoxedIndex(bv: seq<Box>, bi: nat, t: seq<Box>, chv: seq<Item>) returns (p: nat)
    requires Boxed(bv, t, chv) && bi < |bv|
    ensures p < |t| && t[p] == bv[bi]
    ensures bv[bi].ind + bv[bi].colors <= |chv|
  {
    assert bv[bi] in multiset(t);
    p :| 0 <= p < |t| && t[p] == bv[bi];
    TilesCut(t, p, chv, 0, |chv|);
  }

  /** c2 is c1 with the colours from lo to hi in some other order. */
  ghost predicate Reordered(c1: seq<Item>, c2: seq<Item>, lo: nat, hi: nat) {
    lo <= hi <= |c1| == |c2| && c2[..lo] == c1[..lo] && c2[hi..] == c1[hi..] &&
    multiset(c2[lo..hi]) == multiset(c1[lo..hi])
  }

  lemma IsReordered(c1: seq<Item>, c2: seq<Item>, lo: nat, hi: nat)
    requires lo <= hi <= |c1| == |c2| && c2[..lo] == c1[..lo] && c2[hi..] == c1[hi..]
    requires multiset(c2[lo..hi]) == multiset(c1[lo..hi])
    ensures Reordered(c1, c2, lo, hi)
  {
  }

  /** The boxes after box bi has been cut behind its first i colours, in any order. */
  ghost predicate Cut(bv: seq<Box>, bi: nat, chv: seq<Item>, i: nat, bv': seq<Box>) {
    bi < |bv| && i <= bv[bi].colors && bv[bi].ind + i <= |chv| &&
    var low := Total(chv[bv[bi].ind..bv[bi].ind + i]);
    multiset(bv') == multiset(bv[bi := Left(bv[bi], i, low)] + [Right(bv[bi], i, low)])
  }

  lemma IsCutAt(bv: seq<Box>, bi: nat, chv: seq<Item>, i: nat, bv': seq<Box>, l: Box, r: Box)
    requires bi < |bv| && i <= bv[bi].colors && bv[bi].ind + i <= |chv|
    requires var low := Total(chv[bv[bi].ind..bv[bi].ind + i]); l == Left(bv[bi], i, low) && r == Right(bv[bi], i, low)
    requires multiset(bv') == multiset(bv[bi := l] + [r])
    ensures Cut(bv, bi, chv, i, bv')
  {
  }

  lemma SameOutside(c1: seq<Item>, c2: seq<Item>, lo: nat, hi: nat)
    requires lo <= hi <= |c1| == |c2| && c2[..lo] == c1[..lo] && c2[hi..] == c1[hi..]
    ensures forall k :: 0 <= k < lo || hi <= k < |c1| ==> c2[k] == c1[k]
  {
    forall k | 0 <= k < lo || hi <= k < |c1|
      ensures c2[k] == c1[k]
    {
      if k < lo {
        assert c2[k] == c2[..lo][k] && c1[k] == c1[..lo][k];
      } else {
        assert c2[k] == c2[hi..][k - hi] && c1[k] == c1[hi..][k - hi];
      }
    }
  }

  /** Sorts the colours of a box; the rest of the histogram stays. */
  method SortBox(chv: array<Item>, lo: nat, hi: nat, axis: nat)
    requires lo <= hi <= chv.Length
    modifies chv
    ensures Reordered(old(chv[..]), chv[..], lo, hi) && Rearranged(old(chv[..]), chv[..], lo, hi)
    ensures multiset(chv[..]) == multiset(old(chv[..]))
    ensures SortedBy(chv[..][lo..hi], (x: Item) => Comp(x.color, axis))
  {
    hide Total, SortedBy, Comp;
    ghost var c1 := chv[..];
    assert c1[lo..hi] == chv[lo..hi] && c1[..lo] == chv[..lo] && c1[hi..] == chv[hi..];
    SortRange(chv, lo, hi, axis);
    ghost var c2 := chv[..];
    assert c2[lo..hi] == chv[lo..hi] && c2[..lo] == chv[..lo] && c2[hi..] == chv[hi..];
    WholeMultiset(c1, c2, lo, hi);
    TotalPermuted(c1[lo..hi], c2[lo..hi]);
    SameOutside(c1, c2, lo, hi);
    IsReordered(c1, c2, lo, hi);
  }

  /** A box is sorted along an axis and cut at its median. */
  method Split(chv: array<Item>, bv: seq<Box>, bi: nat, axis: nat, ghost t: seq<Box>)
    returns (bv': seq<Box>, ghost t': seq<Box>, ghost i: nat)
    requires Boxed(bv, t, chv[..]) && bi < |bv| && bv[bi].colors >= 2
    modifies chv
    ensures Boxed(bv', t', chv[..]) && |bv'| == |bv| + 1
    ensures multiset(chv[..]) == multiset(old(chv[..]))
    ensures SortedBy(bv', (b: Box) => -b.sum)
    ensures Reordered(old(chv[..]), chv[..], bv[bi].ind, bv[bi].ind + bv[bi].colors)
    ensures IsMedian(chv[..], bv[bi], i) && Halved(chv[..], bv[bi], i, axis)
    ensures Cut(bv, bi, chv[..], i, bv')
  {
    hide Tiles, Total, Sort, SortedBy, IsMedian, Halved, Reordered, Rearranged, Cut;
    var box := bv[bi];
    ghost var p := BoxedIndex(bv, bi, t, chv[..]);
    ghost var c1 := chv[..];
    var lo, hi := box.ind, box.ind + box.colors;
    SortBox(chv, lo, hi, axis);
    ghost var c2 := chv[..];
    var cut, low := FindMedian(chv, box);
    i := cut;
    MedianInside(c2, box, i);
    HalvesOrdered(c2, box, i, axis);
    assert c2[lo..lo + i] == chv[lo..lo + i];
    TilesSplit(t, p, c1, c2, |c1|, i);
    var l, r := Left(box, cut, low), Right(box, cut, low);
    t' := t[..p] + [l, r] + t[p + 1..];
    SplitMultiset(bv, bi, t, p, l, r);
    var unsorted := bv[bi := l] + [r];
    var key := (b: Box) => -b.sum;
    bv' := Sort(unsorted, key);
    Sorts(unsorted, key);
    IsCutAt(bv, bi, c2, i, bv', l, r);
  }

  /** Along the axis no colour of the lower part is above one of the upper part. */
  ghost predicate Halved(chv: seq<Item>, box: Box, i: nat, axis: nat)
    requires i <= box.colors && box.ind + box.colors <= |chv|
  {
    forall a, b :: box.ind <= a < box.ind + i <= b < box.ind + box.colors ==>
      Comp(chv[a].color, axis) <= Comp(chv[b].color, axis)
  }

  lemma HalvesOrdered(chv: seq<Item>, box: Box, i: nat, axis: nat)
    requires i <= box.colors && box.ind + box.colors <= |chv|
    requires SortedBy(chv[box.ind..box.ind + box.colors], (x: Item) => Comp(x.color, axis))
    ensures Halved(chv, box, i, axis)
  {
    hide Comp;
    var part := chv[box.ind..box.ind + box.colors];
    forall a, b | box.ind <= a < box.ind + i <= b < box.ind + box.colors
      ensures Comp(chv[a].color, axis) <= Comp(chv[b].color, axis)
    {
      assert part[a - box.ind] == chv[a] && part[b - box.ind] == chv[b];
    }
  }

  lemma MedianInside(chv: seq<Item>, box: Box, i: nat)
    requires IsMedian(chv, box, i)
    ensures 1 <= i < box.colors
  {
  }

  /** The average colour of the pixels of a box. */
  method Representative(chv: array<Item>, box: Box, maxval: int) returns (v: Vec)
    requires box.colors >= 1 && box.ind + box.colors <= chv.Length
    requires forall i :: 0 <= i < chv.Length ==> chv[i].value >= 1 && InRange(chv[i].color, maxval)
    ensures InRange(v, maxval)
    ensures var s := chv[box.ind..box.ind + box.colors];
            Total(s) > 0 &&
            forall axis :: axis in {0, 1, 2} ==>
              Comp(v, axis) == Weighted(s, axis) / Total(s) && Least(s, axis) <= Comp(v, axis) <= Greatest(s, axis)
  {
    var r, g, b, sum := 0, 0, 0, 0;
    ghost var lo := box.ind;
    for i := 0 to box.colors
      invariant r == Weighted(chv[lo..lo + i], 0) && g == Weighted(chv[lo..lo + i], 1)
      invariant b == Weighted(chv[lo..lo + i], 2) && sum == Total(chv[lo..lo + i])
    {
      var item := chv[box.ind + i];
      r := r + item.color.r * item.value;
      g := g + item.color.g * item.value;
      b := b + item.color.b * item.value;
      sum := sum + item.value;
      assert chv[lo..lo + i + 1][..i] == chv[lo..lo + i];
    }
    ghost var s := chv[lo..lo + box.colors];
    AverageBetween(s, 0);
    AverageBetween(s, 1);
    AverageBetween(s, 2);
    InsideRange(s, maxval);
    hide Weighted, Total, Least, Greatest;
    v := Vec(Min(r / sum, maxval), Min(g / sum, maxval), Min(b / sum, maxval));
  }

  function Min(a: int, b: int): int { if a > b then b else a }

  lemma {:induction false} InsideRange(s: seq<Item>, maxval: int)
    requires s != [] && forall i :: 0 <= i < |s| ==> InRange(s[i].color, maxval)
    ensures forall axis :: axis in {0, 1, 2} ==> 0 <= Least(s, axis) && Greatest(s, axis) <= maxval
  {
    if |s| > 1 {
      InsideRange(s[..|s| - 1], maxval);
    }
  }

  /** The histogram and the boxes between two splits. */
  datatype Stage = Stage(chv: seq<Item>, boxes: seq<Box>)

  /** One split: of the boxes with two colours or more one with the most pixels, sorted along its longest axis and cut
      at its median. */
  ghost predicate CutAt(s: Stage, s': Stage, lum: Vec -> real, bi: nat, axis: nat, i: nat) {
    bi < |s.boxes| && s.boxes[bi].colors >= 2 && s.boxes[bi].ind + s.boxes[bi].colors <= |s.chv| &&
    MostPixels(s.boxes, bi) &&
    var box := s.boxes[bi];
    IsLongest(s.chv[box.ind..box.ind + box.colors], lum, axis) &&
    Reordered(s.chv, s'.chv, box.ind, box.ind + box.colors) &&
    IsMedian(s'.chv, box, i) && Halved(s'.chv, box, i, axis) && Cut(s.boxes, bi, s'.chv, i, s'.boxes)
  }

  ghost predicate MostPixels(bv: seq<Box>, bi: nat)
    requires bi < |bv|
  {
    forall k :: 0 <= k < |bv| && bv[k].colors >= 2 ==> bv[k].sum <= bv[bi].sum
  }

  lemma FirstHasMost(bv: seq<Box>, bi: nat)
    requires SortedBy(bv, (b: Box) => -b.sum) && bi < |bv| && forall k :: 0 <= k < bi ==> bv[k].colors < 2
    ensures MostPixels(bv, bi)
  {
  }

  /** Each stage comes from the one before by a split. */
  ghost predicate IsRun(run: seq<Stage>, lum: Vec -> real) {
    run != [] && (|run| == 1 || (IsRun(run[..|run| - 1], lum) && IsCut(run[|run| - 2], run[|run| - 1], lum)))
  }

  ghost predicate IsCut(s: Stage, s': Stage, lum: Vec -> real) {
    exists bi: nat, axis: nat, i: nat :: CutAt(s, s', lum, bi, axis, i)
  }

  lemma RunMore(run: seq<Stage>, s: Stage, lum: Vec -> real)
    requires IsRun(run, lum) && IsCut(run[|run| - 1], s, lum)
    ensures IsRun(run + [s], lum)
  {
    hide IsCut;
    assert (run + [s])[..|run|] == run;
  }

  /** The first box that can be split is split along its longest axis. */
  method SplitLongest(chv: array<Item>, bv: seq<Box>, bi: nat, lum: Vec -> real, ghost t: seq<Box>)
    returns (bv': seq<Box>, ghost t': seq<Box>)
    requires Boxed(bv, t, chv[..]) && bi < |bv| && bv[bi].colors >= 2 && SortedBy(bv, (b: Box) => -b.sum)
    requires forall k :: 0 <= k < bi ==> bv[k].colors < 2
    modifies chv
    ensures Boxed(bv', t', chv[..]) && |bv'| == |bv| + 1 && SortedBy(bv', (b: Box) => -b.sum)
    ensures multiset(chv[..]) == multiset(old(chv[..]))
    ensures IsCut(Stage(old(chv[..]), bv), Stage(chv[..], bv'), lum)
  {
    hide Tiles, Total, SortedBy, IsMedian, Halved, Reordered, IsLongest, MostPixels, Cut;
    ghost var p := BoxedIndex(bv, bi, t, chv[..]);
    FirstHasMost(bv, bi);
    var axis := LongestAxis(chv, bv[bi], lum);
    ghost var c1 := chv[..];
    assert c1[bv[bi].ind..bv[bi].ind + bv[bi].colors] == chv[bv[bi].ind..bv[bi].ind + bv[bi].colors];
    ghost var i;
    bv', t', i := Split(chv, bv, bi, axis, t);
    assert CutAt(Stage(c1, bv), Stage(chv[..], bv'), lum, bi, axis, i);
  }

  /** Splits until there are enough boxes or every box has one colour, then averages each. */
  method MedianCut(chv: array<Item>, sum: nat, maxval: int, newcolors: nat, lum: Vec -> real)
    returns (bv: seq<Box>, colormap: seq<Vec>, ghost t: seq<Box>, ghost run: seq<Stage>)
    requires chv.Length >= 1 && newcolors >= 1 && sum == Total(chv[..])
    requires forall i :: 0 <= i < chv.Length ==> chv[i].value >= 1 && InRange(chv[i].color, maxval)
    modifies chv
    ensures multiset(chv[..]) == multiset(old(chv[..]))
    ensures Boxed(bv, t, chv[..]) && BoxSum(t) == sum
    ensures IsRun(run, lum) && run[0] == Stage(old(chv[..]), [Box(0, chv.Length, sum)])
    ensures run[|run| - 1] == Stage(chv[..], bv)
    ensures |colormap| == |bv| == if newcolors < chv.Length then newcolors else chv.Length
    ensures forall k :: 0 <= k < |bv| ==> Represents(colormap[k], bv[k], chv[..], maxval)
  {
    hide Tiles, Total, Represents, SortedBy, IsRun, IsCut;
    bv := [Box(0, chv.Length, sum)];
    t := bv;
    assert chv[..][0..chv.Length] == chv[..];
    TilesOne(bv[0], chv[..], 0, chv.Length);
    run := [Stage(chv[..], bv)];
    FirstStage(run, lum);
    while |bv| < newcolors
      invariant Boxed(bv, t, chv[..]) && 1 <= |bv| <= newcolors
      invariant SortedBy(bv, (b: Box) => -b.sum)
      invariant multiset(chv[..]) == multiset(old(chv[..]))
      invariant IsRun(run, lum) && run != [] && run[0] == Stage(old(chv[..]), [Box(0, chv.Length, sum)])
      invariant run[|run| - 1] == Stage(chv[..], bv)
      decreases newcolors - |bv|
    {
      var bi := FirstSplittable(bv);
      if bi == |bv| {
        break;
      }
      bv, t := SplitLongest(chv, bv, bi, lum, t);
      RunMore(run, Stage(chv[..], bv), lum);
      run := run + [Stage(chv[..], bv)];
    }
    BoxedCount(bv, t, chv[..]);
    BoxedTotal(bv, t, chv[..]);
    TotalPermuted(chv[..], old(chv[..]));
    ItemsKept(old(chv[..]), chv[..], maxval);
    colormap := Representatives(chv, bv, maxval, t);
  }

  lemma FirstStage(run: seq<Stage>, lum: Vec -> real)
    requires |run| == 1 && |run[0].boxes| == 1
    ensures IsRun(run, lum) && SortedBy(run[0].boxes, (b: Box) => -b.sum)
  {
  }

  method Representatives(chv: array<Item>, bv: seq<Box>, maxval: int, ghost t: seq<Box>) returns (colormap: seq<Vec>)
    requires Boxed(bv, t, chv[..])
    requires forall i :: 0 <= i < chv.Length ==> chv[i].value >= 1 && InRange(chv[i].color, maxval)
    ensures |colormap| == |bv|
    ensures forall k :: 0 <= k < |bv| ==> Represents(colormap[k], bv[k], chv[..], maxval)
  {
    hide Tiles, Total, Represents;
    colormap := [];
    for k := 0 to |bv|
      invariant |colormap| == k
      invariant forall j :: 0 <= j < k ==> Represents(colormap[j], bv[j], chv[..], maxval)
    {
      BoxedInside(bv, k, t, chv[..]);
      var v := Representative(chv, bv[k], maxval);
      assert chv[..][bv[k].ind..bv[k].ind + bv[k].colors] == chv[bv[k].ind..bv[k].ind + bv[k].colors];
      IsRepresentative(v, bv[k], chv[..], maxval);
      colormap := colormap + [v];
    }
  }

  /** The average of the pixels of a box, and so between the box's least and greatest component on every axis. */
  ghost predicate Represents(v: Vec, box: Box, chv: seq<Item>, maxval: int) {
    box.colors >= 1 && box.ind + box.colors <= |chv| && InRange(v, maxval) &&
    var s := chv[box.ind..box.ind + box.colors];
    Total(s) > 0 &&
    forall axis :: axis in {0, 1, 2} ==>
      Comp(v, axis) == Weighted(s, axis) / Total(s) && Least(s, axis) <= Comp(v, axis) <= Greatest(s, axis)
  }

  lemma IsRepresentative(v: Vec, box: Box, chv: seq<Item>, maxval: int)
    requires box.colors >= 1 && box.ind + box.colors <= |chv| && InRange(v, maxval)
    requires var s := chv[box.ind..box.ind + box.colors];
             Total(s) > 0 &&
             forall axis :: axis in {0, 1, 2} ==>
               Comp(v, axis) == Weighted(s, axis) / Total(s) && Least(s, axis) <= Comp(v, axis) <= Greatest(s, axis)
    ensures Represents(v, box, chv, maxval)
  {
  }

  lemma BoxedInside(bv: seq<Box>, k: nat, t: seq<Box>, chv: seq<Item>)
    requires Boxed(bv, t, chv) && k < |bv|
    ensures bv[k].colors >= 1 && bv[k].ind + bv[k].colors <= |chv|
  {
    hide Tiles;
    var p := BoxedIndex(bv, k, t, chv);
    TilesCut(t, p, chv, 0, |chv|);
  }

  lemma BoxedCount(bv: seq<Box>, t: seq<Box>, chv: seq<Item>)
    requires Boxed(bv, t, chv)
    ensures |bv| <= |chv| && ((forall k :: 0 <= k < |bv| ==> bv[k].colors < 2) ==> |bv| == |chv|)
  {
    assert |multiset(bv)| == |bv| && |multiset(t)| == |t|;
    TilesCount(t, chv, 0, |chv|);
    if forall k :: 0 <= k < |bv| ==> bv[k].colors < 2 {
      forall k | 0 <= k < |t|
        ensures t[k].colors == 1
      {
        assert t[k] in multiset(bv);
        TilesCut(t, k, chv, 0, |chv|);
      }
    }
  }

  lemma BoxedTotal(bv: seq<Box>, t: seq<Box>, chv: seq<Item>)
    requires Boxed(bv, t, chv)
    ensures BoxSum(t) == Total(chv)
  {
    TilesTotal(t, chv, 0, |chv|);
    assert chv[0..|chv|] == chv;
  }

  lemma ItemsKept(c1: seq<Item>, c2: seq<Item>, maxval: int)
    requires multiset(c1) == multiset(c2)
    requires forall i :: 0 <= i < |c1| ==> c1[i].value >= 1 && InRange(c1[i].color, maxval)
    ensures forall i :: 0 <= i < |c2| ==> c2[i].value >= 1 && InRange(c2[i].color, maxval)
  {
    forall i | 0 <= i < |c2|
      ensures c2[i].value >= 1 && InRange(c2[i].color, maxval)
    {
      assert c2[i] in multiset(c1);
    }
  }
}
