/** The dithered image in each colour component apart: the textbook weights in plain numbers, the colour each column
    settles on, and how much of each component a row and an image show. */
module DiffusionChannels {
  import opened PixelMath
  import opened Diffusion

  datatype Channel = Red | Green | Blue

  function Of(v: Vec, ch: Channel): int {
    match ch
    case Red => v.r
    case Green => v.g
    case Blue => v.b
  }

  function ErrorAt(e: seq<Vec>, c: int, ch: Channel): int { if 0 <= c < |e| then Of(e[c], ch) else 0 }

  /** The error that reaches column c of row k, in 1024ths of a level: seven sixteenths from the column just done,
      and from the row above three sixteenths from the side the row comes from, five from straight above and one
      from the side it goes to. The first row has the random start in place of a row above. */
  function Reaching(start: seq<Vec>, errs: seq<seq<Vec>>, k: nat, c: nat, ch: Channel): int
    requires k < |errs| && (k == 0 ==> c + 1 < |start|)
  {
    var d := if k % 2 == 0 then 1 else -1;
    1024 * 7 / 16 * ErrorAt(errs[k], c - d, ch) +
    if k == 0 then Of(start[c + 1], ch)
    else 1024 * 3 / 16 * ErrorAt(errs[k - 1], c - d, ch) + 1024 * 5 / 16 * ErrorAt(errs[k - 1], c, ch) +
         1024 * 1 / 16 * ErrorAt(errs[k - 1], c + d, ch)
  }

  lemma WantedSettles(pixel: Vec, cell: Vec, maxval: int, ch: Channel)
    requires 0 <= maxval
    ensures Settles(Of(pixel, ch), Of(cell, ch), 1024, Of(Wanted(pixel, cell, maxval), ch), maxval)
  {
    hide Settles, Quotient, Clamp;
    QuotientSettles(Of(pixel, ch), Of(cell, ch), 1024, maxval);
  }

  lemma OfAt(e: seq<Vec>, c: int, ch: Channel)
    ensures Of(At(e, c), ch) == ErrorAt(e, c, ch)
  {
  }

  lemma OfPlus(u: Vec, v: Vec, ch: Channel)
    ensures Of(Plus(u, v), ch) == Of(u, ch) + Of(v, ch) && Of(Minus(u, v), ch) == Of(u, ch) - Of(v, ch)
    ensures Of(Whole(u), ch) == 1024 * Of(u, ch)
  {
  }

  lemma OfShares(u: Vec, ch: Channel)
    ensures Of(Seven(u), ch) == 448 * Of(u, ch) && Of(Five(u), ch) == 320 * Of(u, ch)
    ensures Of(Three(u), ch) == 192 * Of(u, ch) && Of(One(u), ch) == 64 * Of(u, ch)
  {
  }

  lemma OfGathered(near: Vec, above: Vec, far: Vec, ch: Channel)
    ensures Of(Gathered(near, above, far), ch) == 192 * Of(near, ch) + 320 * Of(above, ch) + 64 * Of(far, ch)
  {
    hide Of, Plus, Three, Five, One;
    OfShares(near, ch);
    OfShares(above, ch);
    OfShares(far, ch);
    OfPlus(Three(near), Five(above), ch);
    OfPlus(Plus(Three(near), Five(above)), One(far), ch);
  }

  lemma OfAhead(init: seq<Vec>, e: seq<Vec>, j: nat, right: bool, ch: Channel)
    requires j < |init|
    ensures Of(Ahead(init, e, j, right), ch) == Of(init[j], ch) + 448 * ErrorAt(e, if right then j - 2 else j, ch)
  {
    hide Of, Plus, Seven, At, ErrorAt;
    var c := if right then j - 2 else j;
    OfAt(e, c, ch);
    OfShares(At(e, c), ch);
    OfPlus(init[j], Seven(At(e, c)), ch);
  }

  lemma OfBelow(e: seq<Vec>, j: nat, right: bool, ch: Channel)
    ensures Of(Below(e, j, right), ch) ==
            192 * ErrorAt(e, if right then j else j - 2, ch) + 320 * ErrorAt(e, j - 1, ch) +
            64 * ErrorAt(e, if right then j - 2 else j, ch)
  {
    hide Of, At, ErrorAt, Gathered;
    OfAt(e, j, ch);
    OfAt(e, j - 1, ch);
    OfAt(e, j - 2, ch);
    if right {
      OfGathered(At(e, j), At(e, j - 1), At(e, j - 2), ch);
    } else {
      OfGathered(At(e, j - 2), At(e, j - 1), At(e, j), ch);
    }
  }

  lemma RowFacts(image: seq<seq<Vec>>, shown: seq<seq<Vec>>, start: seq<Vec>, errs: seq<seq<Vec>>,
                 colormap: seq<Vec>, maxval: int, k: nat)
    requires ImageDone(image, shown, start, errs, colormap, maxval) && k < |image|
    ensures |shown| == |errs| == |image| && |shown[k]| == |errs[k]| == |image[k]|
    ensures |RowStart(start, errs, k)| == |image[k]| + 2
    ensures forall c :: 0 <= c < |image[k]| ==>
              ColumnDone(image[k][c], shown[k][c], RowStart(start, errs, k), errs[k], c, Rightward(k), colormap, maxval)
  {
    assert RowOk(image, shown, start, errs, k, colormap, maxval);
    hide ColumnDone, RowStart;
  }

  lemma CellReaching(start: seq<Vec>, errs: seq<seq<Vec>>, k: nat, c: nat, ch: Channel)
    requires k < |errs| && c + 1 < |RowStart(start, errs, k)|
    ensures k == 0 ==> c + 1 < |start|
    ensures Of(Ahead(RowStart(start, errs, k), errs[k], c + 1, Rightward(k)), ch) == Reaching(start, errs, k, c, ch)
  {
    hide Ahead, Below, ErrorAt, Of;
    OfAhead(RowStart(start, errs, k), errs[k], c + 1, Rightward(k), ch);
    if k > 0 {
      OfBelow(errs[k - 1], c + 1, Rightward(k - 1), ch);
    }
  }

  /** Every column of a dithered image shows the first of the colours closest to what it shows and its error
      together, and that, in each component, is the pixel and the error that reaches it, on the scale. */
  lemma TextbookColumn(image: seq<seq<Vec>>, shown: seq<seq<Vec>>, start: seq<Vec>, errs: seq<seq<Vec>>,
                       colormap: seq<Vec>, maxval: int, k: nat, c: nat, ch: Channel)
    requires ImageDone(image, shown, start, errs, colormap, maxval) && 0 <= maxval && k < |image| && c < |image[k]|
    ensures |shown| == |errs| == |image| && |shown[k]| == |errs[k]| == |image[k]| && (k == 0 ==> c + 1 < |start|)
    ensures exists i :: IsNearest(Plus(shown[k][c], errs[k][c]), colormap, i) && shown[k][c] == colormap[i]
    ensures Settles(Of(image[k][c], ch), Reaching(start, errs, k, c, ch), 1024,
                    Of(shown[k][c], ch) + Of(errs[k][c], ch), maxval)
  {
    hide ImageDone, RowStart, Wanted, Settles, IsNearest, Ahead, Reaching, Of;
    RowFacts(image, shown, start, errs, colormap, maxval, k);
    var cell := Ahead(RowStart(start, errs, k), errs[k], c + 1, Rightward(k));
    var want := Wanted(image[k][c], cell, maxval);
    assert ColumnDone(image[k][c], shown[k][c], RowStart(start, errs, k), errs[k], c, Rightward(k), colormap, maxval);
    assert want == Plus(shown[k][c], errs[k][c]);
    OfPlus(shown[k][c], errs[k][c], ch);
    WantedSettles(image[k][c], cell, maxval, ch);
    CellReaching(start, errs, k, c, ch);
  }

  // ----- colours of the map are kept -----

  lemma SelfNearest(v: Vec, colormap: seq<Vec>, i: int)
    requires v in colormap && IsNearest(v, colormap, i)
    ensures colormap[i] == v
  {
    var j :| 0 <= j < |colormap| && colormap[j] == v;
    assert Distance(v, colormap[i]) <= Distance(v, colormap[j]) == 0;
    SquareZero(v.r - colormap[i].r, v.g - colormap[i].g, v.b - colormap[i].b);
  }

  lemma SquareZero(x: int, y: int, z: int)
    requires x * x + y * y + z * z <= 0
    ensures x == y == z == 0
  {
    SquarePositive(x);
    SquarePositive(y);
    SquarePositive(z);
  }

  lemma SquarePositive(x: int)
    ensures x * x >= 0 && (x != 0 ==> x * x > 0)
  {
  }

  ghost predicate NoErrors(e: seq<Vec>) { forall c :: 0 <= c < |e| ==> e[c] == ZERO }

  lemma AloneWanted(pixel: Vec, maxval: int)
    requires InRange(pixel, maxval)
    ensures Wanted(pixel, ZERO, maxval) == pixel
  {
  }

  lemma NothingAhead(init: seq<Vec>, e: seq<Vec>, c: nat, right: bool)
    requires c + 1 < |init| && init[c + 1] == ZERO && At(e, if right then c - 1 else c + 1) == ZERO
    ensures Ahead(init, e, c + 1, right) == ZERO
  {
    hide At;
  }

  lemma ColumnExact(pixel: Vec, shown: Vec, init: seq<Vec>, e: seq<Vec>, c: nat, right: bool, colormap: seq<Vec>,
                    maxval: int)
    requires c + 1 < |init| && c < |e| && ColumnDone(pixel, shown, init, e, c, right, colormap, maxval)
    requires init[c + 1] == ZERO && At(e, if right then c - 1 else c + 1) == ZERO
    requires pixel in colormap && InRange(pixel, maxval)
    ensures shown == pixel && e[c] == ZERO
  {
    hide Ahead, Wanted, IsNearest, InRange, At;
    NothingAhead(init, e, c, right);
    AloneWanted(pixel, maxval);
    ShownSelf(pixel, shown, colormap);
  }

  lemma ShownSelf(pixel: Vec, shown: Vec, colormap: seq<Vec>)
    requires pixel in colormap && exists i :: IsNearest(pixel, colormap, i) && shown == colormap[i]
    ensures shown == pixel
  {
    hide Distance;
    var i :| IsNearest(pixel, colormap, i) && shown == colormap[i];
    SelfNearest(pixel, colormap, i);
  }

  lemma {:induction false} RowExact(pixels: seq<Vec>, shown: seq<Vec>, init: seq<Vec>, e: seq<Vec>, right: bool,
                                    colormap: seq<Vec>, maxval: int, c: nat)
    requires RowDone(pixels, shown, init, e, right, colormap, maxval) && c < |pixels|
    requires forall j :: 0 <= j < |init| ==> init[j] == ZERO
    requires forall d :: 0 <= d < |pixels| ==> pixels[d] in colormap && InRange(pixels[d], maxval)
    ensures shown[c] == pixels[c] && e[c] == ZERO
    decreases if right then c else |pixels| - c
  {
    hide ColumnDone, InRange;
    var before := if right then c - 1 else c + 1;
    if 0 <= before < |pixels| {
      RowExact(pixels, shown, init, e, right, colormap, maxval, before);
    }
    assert ColumnDone(pixels[c], shown[c], init, e, c, right, colormap, maxval);
    ColumnExact(pixels[c], shown[c], init, e, c, right, colormap, maxval);
  }

  lemma StartZero(start: seq<Vec>, errs: seq<seq<Vec>>, k: nat, j: nat)
    requires k <= |errs| && j < |RowStart(start, errs, k)|
    requires k == 0 ==> start[j] == ZERO
    requires k > 0 ==> NoErrors(errs[k - 1])
    ensures RowStart(start, errs, k)[j] == ZERO
  {
    if k > 0 {
      NothingScattered(seq(j + 1, _ => ZERO), errs[k - 1], j, Rightward(k - 1));
    }
    hide Below;
  }

  /** An image made of colours of the map, started from no error, is shown as it is. */
  lemma {:induction false} ImageExact(image: seq<seq<Vec>>, shown: seq<seq<Vec>>, start: seq<Vec>, errs: seq<seq<Vec>>,
                                      colormap: seq<Vec>, maxval: int, k: nat)
    requires ImageDone(image, shown, start, errs, colormap, maxval) && k < |image|
    requires forall j :: 0 <= j < |start| ==> start[j] == ZERO
    requires forall i, c :: 0 <= i < |image| && 0 <= c < |image[i]| ==>
               image[i][c] in colormap && InRange(image[i][c], maxval)
    ensures |shown| == |errs| == |image| && shown[k] == image[k] && NoErrors(errs[k])
  {
    hide ImageDone, ColumnDone, RowStart, InRange;
    RowFacts(image, shown, start, errs, colormap, maxval, k);
    if k > 0 {
      ImageExact(image, shown, start, errs, colormap, maxval, k - 1);
    }
    var init := RowStart(start, errs, k);
    forall j | 0 <= j < |init|
      ensures init[j] == ZERO
    {
      FirstRow(start, errs, k);
      StartZero(start, errs, k, j);
    }
    forall c | 0 <= c < |image[k]|
      ensures shown[k][c] == image[k][c] && errs[k][c] == ZERO
    {
      RowExact(image[k], shown[k], init, errs[k], Rightward(k), colormap, maxval, c);
    }
  }

  lemma FirstRow(start: seq<Vec>, errs: seq<seq<Vec>>, k: nat)
    requires k <= |errs|
    ensures k == 0 ==> RowStart(start, errs, k) == start
  {
  }

  // ----- what a row shows of a component -----

  function Total(s: seq<Vec>, ch: Channel): int {
    if s == [] then 0 else Total(s[..|s| - 1], ch) + Of(s[|s| - 1], ch)
  }

  lemma {:induction false} TotalIsSum(s: seq<Vec>, ch: Channel)
    ensures Total(s, ch) == Of(Sum(s), ch)
  {
    if s != [] {
      TotalIsSum(s[..|s| - 1], ch);
      OfPlus(Sum(s[..|s| - 1]), s[|s| - 1], ch);
    }
  }

  lemma {:induction false} TotalFirst(s: seq<Vec>, ch: Channel)
    requires s != []
    ensures Total(s, ch) == Of(s[0], ch) + Total(s[1..], ch)
  {
    var n := |s| - 1;
    if n > 0 {
      TotalFirst(s[..n], ch);
      assert s[..n][1..] == s[1..][..n - 1];
    }
  }

  /** The cells of a row of errors without the two margins. */
  function Inner(s: seq<Vec>): seq<Vec>
    requires |s| >= 2
  {
    s[1..|s| - 1]
  }

  lemma TotalMargins(s: seq<Vec>, ch: Channel)
    requires |s| >= 2
    ensures Total(s, ch) == Of(s[0], ch) + Total(Inner(s), ch) + Of(s[|s| - 1], ch)
  {
    var t := s[..|s| - 1];
    TotalFirst(t, ch);
    assert t[1..] == s[1..|s| - 1];
  }

  /** At every column what is shown and its error make up the pixel and the cell, to within a level. */
  ghost predicate Close(pixels: seq<Vec>, shown: seq<Vec>, e: seq<Vec>, cells: seq<Vec>, ch: Channel) {
    |pixels| == |shown| == |e| == |cells| &&
    forall c :: 0 <= c < |pixels| ==>
      -1024 < 1024 * (Of(shown[c], ch) + Of(e[c], ch) - Of(pixels[c], ch)) - Of(cells[c], ch) < 1024
  }

  /** Less than n levels, or nothing. */
  predicate WithinLevels(x: int, n: nat) { if n == 0 then x == 0 else -1024 * n < x < 1024 * n }

  lemma {:induction false} CloseTotals(pixels: seq<Vec>, shown: seq<Vec>, e: seq<Vec>, cells: seq<Vec>, ch: Channel)
    requires Close(pixels, shown, e, cells, ch)
    ensures WithinLevels(1024 * (Total(shown, ch) + Total(e, ch) - Total(pixels, ch)) - Total(cells, ch), |pixels|)
  {
    if pixels != [] {
      var n := |pixels| - 1;
      CloseTotals(pixels[..n], shown[..n], e[..n], cells[..n], ch);
    }
  }

  /** A column whose pixel and error stay on the scale. */
  predicate Free(p: int, x: int, maxval: int) { 0 <= 1024 * p + x <= 1024 * maxval }

  lemma FreeSettles(p: int, x: int, w: int, maxval: int)
    requires Free(p, x, maxval) && Settles(p, x, 1024, w, maxval)
    ensures -1024 < 1024 * (w - p) - x < 1024
  {
  }

  lemma RowClose(pixels: seq<Vec>, shown: seq<Vec>, init: seq<Vec>, e: seq<Vec>, cur: seq<Vec>, next: seq<Vec>,
                 right: bool, colormap: seq<Vec>, maxval: int, ch: Channel)
    requires RowDone(pixels, shown, init, e, right, colormap, maxval) && Scattered(init, e, cur, next, right)
    requires 0 <= maxval
    requires forall c :: 0 <= c < |pixels| ==> Free(Of(pixels[c], ch), Of(cur[c + 1], ch), maxval)
    ensures Close(pixels, shown, e, Inner(cur), ch)
  {
    hide Ahead, Below, Wanted, Settles, Free, IsNearest, Of;
    forall c | 0 <= c < |pixels|
      ensures -1024 < 1024 * (Of(shown[c], ch) + Of(e[c], ch) - Of(pixels[c], ch)) - Of(cur[c + 1], ch) < 1024
    {
      assert ColumnDone(pixels[c], shown[c], init, e, c, right, colormap, maxval);
      var want := Wanted(pixels[c], cur[c + 1], maxval);
      OfPlus(want, shown[c], ch);
      WantedSettles(pixels[c], cur[c + 1], maxval, ch);
      FreeSettles(Of(pixels[c], ch), Of(cur[c + 1], ch), Of(want, ch), maxval);
    }
  }

  /** What a row is given of a component, in 1024ths of a level. */
  function Given(pixels: seq<Vec>, init: seq<Vec>, ch: Channel): int { 1024 * Total(pixels, ch) + Total(init, ch) }

  /** What it shows, what goes to the next row and what runs off its two ends. */
  function Leaving(shown: seq<Vec>, cur: seq<Vec>, next: seq<Vec>, ch: Channel): int
    requires |cur| >= 2
  {
    1024 * Total(shown, ch) + Total(next, ch) + Of(cur[0], ch) + Of(cur[|cur| - 1], ch)
  }

  /** A row shows the colour it was given: in each component that stays on the scale, the pixels and the error the
      row started from are what is shown, what goes to the next row and what runs off the two ends of the row, to
      within a level for each column. */
  lemma RowShows(pixels: seq<Vec>, shown: seq<Vec>, init: seq<Vec>, e: seq<Vec>, cur: seq<Vec>, next: seq<Vec>,
                 right: bool, colormap: seq<Vec>, maxval: int, ch: Channel)
    requires RowDone(pixels, shown, init, e, right, colormap, maxval) && Scattered(init, e, cur, next, right)
    requires Balanced(init, e, cur, next) && 0 <= maxval && pixels != []
    requires forall c :: 0 <= c < |pixels| ==> Free(Of(pixels[c], ch), Of(cur[c + 1], ch), maxval)
    ensures WithinLevels(Leaving(shown, cur, next, ch) - Given(pixels, init, ch), |pixels|)
  {
    hide RowDone, Scattered, Total, Sum, Of, Close, Whole, Plus, Free, Balanced, WithinLevels, Inner, Leaving, Given;
    RowLengths(pixels, shown, init, e, cur, next, right, colormap, maxval);
    RowClose(pixels, shown, init, e, cur, next, right, colormap, maxval, ch);
    CloseShows(pixels, shown, init, e, cur, next, ch);
  }

  lemma CloseShows(pixels: seq<Vec>, shown: seq<Vec>, init: seq<Vec>, e: seq<Vec>, cur: seq<Vec>, next: seq<Vec>,
                   ch: Channel)
    requires |cur| >= 2 && Close(pixels, shown, e, Inner(cur), ch) && Balanced(init, e, cur, next)
    ensures WithinLevels(Leaving(shown, cur, next, ch) - Given(pixels, init, ch), |pixels|)
  {
    hide Total, Sum, Of, Close, Balanced, WithinLevels, Inner;
    CloseTotals(pixels, shown, e, Inner(cur), ch);
    TotalMargins(cur, ch);
    BalancedTotals(init, e, cur, next, ch);
    Rearranged(Total(shown, ch), Total(e, ch), Total(pixels, ch), Total(Inner(cur), ch), Total(cur, ch),
               Total(next, ch), Total(init, ch), Of(cur[0], ch), Of(cur[|cur| - 1], ch), |pixels|);
  }

  lemma Rearranged(s: int, x: int, p: int, c: int, cur: int, next: int, init: int, first: int, last: int, n: nat)
    requires WithinLevels(1024 * (s + x - p) - c, n)
    requires cur + next == init + 1024 * x && cur == first + c + last
    ensures WithinLevels((1024 * s + next + first + last) - (1024 * p + init), n)
  {
    assert (1024 * s + next + first + last) - (1024 * p + init) == 1024 * (s + x - p) - c;
    hide WithinLevels;
  }

  lemma BalancedTotals(init: seq<Vec>, e: seq<Vec>, cur: seq<Vec>, next: seq<Vec>, ch: Channel)
    requires Balanced(init, e, cur, next)
    ensures Total(cur, ch) + Total(next, ch) == Total(init, ch) + 1024 * Total(e, ch)
  {
    hide Total, Sum, Of, Whole, Plus;
    TotalIsSum(cur, ch);
    TotalIsSum(next, ch);
    TotalIsSum(init, ch);
    TotalIsSum(e, ch);
    OfPlus(Sum(cur), Sum(next), ch);
    OfPlus(Sum(init), Whole(Sum(e)), ch);
    OfPlus(Sum(e), ZERO, ch);
  }

  lemma RowLengths(pixels: seq<Vec>, shown: seq<Vec>, init: seq<Vec>, e: seq<Vec>, cur: seq<Vec>, next: seq<Vec>,
                   right: bool, colormap: seq<Vec>, maxval: int)
    requires RowDone(pixels, shown, init, e, right, colormap, maxval) && Scattered(init, e, cur, next, right)
    ensures |cur| == |pixels| + 2
  {
  }
}
