/** What the high-pass filter does to an image: it moves each pixel away from the mean of the window around it. */
module HipassWindow {
  import opened PixelMath
  import opened Hipass

  // ----- the window -----

  function SumFrom(p: seq<int>, lo: nat, hi: nat): int
    requires lo <= hi <= |p|
  {
    if lo == hi then 0 else SumFrom(p, lo, hi - 1) + p[hi - 1]
  }

  /** The three places around i, as far as they lie below n. */
  function First(i: nat): nat { if i == 0 then 0 else i - 1 }
  function After(i: nat, n: nat): nat { if i + 2 <= n then i + 2 else n }
  function Count(i: nat, n: nat): int { After(i, n) - First(i) }

  /** The sum over the columns around x of the rows from top to bottom. */
  function BlockSum(image: seq<seq<int>>, xsize: nat, top: nat, bottom: nat, x: nat): int
    requires IsImage(image, xsize) && top <= bottom <= |image| && x < xsize
  {
    if top == bottom then 0
    else BlockSum(image, xsize, top, bottom - 1, x) + SumFrom(image[bottom - 1], First(x), After(x, xsize))
  }

  /** The sum over the pixels at most one row and one column away. */
  function Window(image: seq<seq<int>>, xsize: nat, y: nat, x: nat): int
    requires IsImage(image, xsize) && y < |image| && x < xsize
  {
    BlockSum(image, xsize, First(y), After(y, |image|), x)
  }

  lemma BlurIsMean(p: seq<int>, x: nat)
    requires x < |p| && |p| >= 3
    ensures var s := SumFrom(p, First(x), After(x, |p|));
            3 * s <= Count(x, |p|) * Blur(p, x) <= 3 * s + 1
    ensures 0 < x < |p| - 1 ==> Blur(p, x) == SumFrom(p, First(x), After(x, |p|))
  {
    if x == 0 {
      SumOfTwo(p, 0);
    } else if x == |p| - 1 {
      SumOfTwo(p, x - 1);
    } else {
      SumOfThree(p, x - 1);
    }
  }

  lemma SumOfTwo(p: seq<int>, lo: nat)
    requires lo + 2 <= |p|
    ensures SumFrom(p, lo, lo + 2) == p[lo] + p[lo + 1]
  {
    assert SumFrom(p, lo, lo + 1) == p[lo];
  }

  lemma SumOfThree(p: seq<int>, lo: nat)
    requires lo + 3 <= |p|
    ensures SumFrom(p, lo, lo + 3) == p[lo] + p[lo + 1] + p[lo + 2]
  {
    SumOfTwo(p, lo);
  }

  function RowPart(image: seq<seq<int>>, xsize: nat, y: nat, x: nat): int
    requires IsImage(image, xsize) && y < |image| && x < xsize
  {
    SumFrom(image[y], First(x), After(x, xsize))
  }

  lemma WindowRows(image: seq<seq<int>>, xsize: nat, y: nat, x: nat)
    requires IsImage(image, xsize) && |image| >= 3 && y < |image| && x < xsize
    ensures Window(image, xsize, y, x) ==
            (if y > 0 then RowPart(image, xsize, y - 1, x) else 0) + RowPart(image, xsize, y, x) +
            (if y < |image| - 1 then RowPart(image, xsize, y + 1, x) else 0)
  {
    hide SumFrom;
    var top, bottom := First(y), After(y, |image|);
    assert BlockSum(image, xsize, top, top, x) == 0;
    assert BlockSum(image, xsize, top, top + 1, x) == RowPart(image, xsize, top, x);
    assert BlockSum(image, xsize, top, top + 2, x) == RowPart(image, xsize, top, x) + RowPart(image, xsize, top + 1, x);
  }

  /** The filter's sum over its weight is the mean of the window, exactly away from the left and right edges and at
      most a sixth of a level above it there. */
  lemma AroundIsMean(image: seq<seq<int>>, xsize: nat, y: nat, x: nat)
    requires IsImage(image, xsize) && xsize >= 3 && |image| >= 3 && y < |image| && x < xsize
    ensures Weight(image, y) == 3 * Count(y, |image|)
    ensures 3 * Window(image, xsize, y, x) <= Count(x, xsize) * Around(image, xsize, y, x) <=
            3 * Window(image, xsize, y, x) + Count(y, |image|)
    ensures 0 < x < xsize - 1 ==> Around(image, xsize, y, x) == Window(image, xsize, y, x)
  {
    hide Blur, SumFrom, BlockSum;
    WindowRows(image, xsize, y, x);
    if y > 0 {
      BlurIsMean(image[y - 1], x);
    }
    BlurIsMean(image[y], x);
    if y < |image| - 1 {
      BlurIsMean(image[y + 1], x);
    }
  }

  // ----- the direction and the length of the move -----

  /** The move asked for is the strength times how far the pixel is from the sum around it. */
  lemma MoveSettles(image: seq<seq<int>>, xsize: nat, ext: int, y: nat, x: nat)
    requires IsImage(image, xsize) && xsize >= 3 && |image| >= 3 && y < |image| && x < xsize
    ensures Settles(image[y][x], ext * (Weight(image, y) * image[y][x] - Around(image, xsize, y, x)),
                    256 * Weight(image, y), Filtered(image, xsize, ext, y, x), 255)
  {
    hide Around, Clamp, Quotient, Settles;
    var pixel, k, sum := image[y][x], Weight(image, y), Around(image, xsize, y, x);
    PixelRange(image, xsize, y, x);
    if ext == 0 {
      StaysPut(pixel, 256 * k);
    } else {
      QuotientSettles(pixel, ext * (k * pixel - sum), 256 * k, 255);
    }
  }

  lemma PixelRange(image: seq<seq<int>>, xsize: nat, y: nat, x: nat)
    requires IsImage(image, xsize) && y < |image| && x < xsize
    ensures 0 <= image[y][x] <= 255
  {
    assert IsRow(image[y], xsize);
  }

  lemma StaysPut(p: int, parts: int)
    requires 0 <= p <= 255 && parts > 0
    ensures Settles(p, 0, parts, p, 255)
  {
  }

  lemma SettlesSide(p: int, x: int, parts: int, w: int, maxval: int)
    requires parts > 0 && 0 <= p <= maxval && Settles(p, x, parts, w, maxval)
    ensures x >= 0 ==> w >= p
    ensures x <= 0 ==> w <= p
  {
    Product(parts, p, maxval);
    Product(parts, w - p, maxval);
    Product(parts, maxval - p, p);
  }

  /** A positive strength takes a pixel away from the mean of its window and a negative one towards it, and a pixel
      at the mean, away from the left and right edges, stays. */
  lemma AwayFromMean(image: seq<seq<int>>, xsize: nat, ext: int, y: nat, x: nat)
    requires IsImage(image, xsize) && xsize >= 3 && |image| >= 3 && y < |image| && x < xsize
    ensures var n := Count(x, xsize) * Count(y, |image|);
            var above := n * image[y][x] - Window(image, xsize, y, x);
            var w := Filtered(image, xsize, ext, y, x);
            (above <= 0 ==> if ext >= 0 then w <= image[y][x] else w >= image[y][x]) &&
            (3 * above >= Count(y, |image|) ==> if ext >= 0 then w >= image[y][x] else w <= image[y][x]) &&
            (above == 0 && 0 < x < xsize - 1 ==> w == image[y][x])
  {
    hide Around, Window, Filtered, Settles;
    var pixel, k, sum := image[y][x], Weight(image, y), Around(image, xsize, y, x);
    var n, m := Count(x, xsize), Count(y, |image|);
    PixelRange(image, xsize, y, x);
    AroundIsMean(image, xsize, y, x);
    MoveSettles(image, xsize, ext, y, x);
    SettlesSide(pixel, ext * (k * pixel - sum), 256 * k, Filtered(image, xsize, ext, y, x), 255);
    Signs(ext, k * pixel - sum);
    Compared(n, m, pixel, sum, Window(image, xsize, y, x));
  }

  lemma Signs(ext: int, d: int)
    ensures ext >= 0 && d >= 0 ==> ext * d >= 0
    ensures ext >= 0 && d <= 0 ==> ext * d <= 0
    ensures ext < 0 && d >= 0 ==> ext * d <= 0
    ensures ext < 0 && d <= 0 ==> ext * d >= 0
  {
  }

  lemma Compared(n: int, m: int, pixel: int, sum: int, s: int)
    requires (n == 2 || n == 3) && (m == 2 || m == 3) && 3 * s <= n * sum <= 3 * s + m
    ensures n * m * pixel - s <= 0 ==> 3 * m * pixel - sum <= 0
    ensures 3 * (n * m * pixel - s) >= m ==> 3 * m * pixel - sum >= 0
  {
  }

  // ----- an even image -----

  predicate Even(image: seq<seq<int>>, xsize: nat, v: int)
    requires IsImage(image, xsize)
  {
    forall y, x :: 0 <= y < |image| && 0 <= x < xsize ==> image[y][x] == v
  }

  lemma EvenBlur(p: seq<int>, x: nat, v: int)
    requires x < |p| && |p| >= 3 && forall j :: 0 <= j < |p| ==> p[j] == v
    ensures Blur(p, x) == 3 * v
  {
  }

  /** An image of one value comes out as it is, whatever the strength. */
  lemma EvenKept(image: seq<seq<int>>, xsize: nat, ext: int, v: int, y: nat, x: nat)
    requires IsImage(image, xsize) && Even(image, xsize, v) && y < |image| && x < xsize
    ensures Filtered(image, xsize, ext, y, x) == v
  {
    if xsize >= 3 && |image| >= 3 && ext != 0 {
      hide Blur, Settles;
      if y > 0 {
        EvenBlur(image[y - 1], x, v);
      }
      EvenBlur(image[y], x, v);
      if y < |image| - 1 {
        EvenBlur(image[y + 1], x, v);
      }
      assert Around(image, xsize, y, x) == Weight(image, y) * v;
      hide Around, Filtered;
      MoveSettles(image, xsize, ext, y, x);
      PixelRange(image, xsize, y, x);
      SettlesSide(v, ext * 0, 256 * Weight(image, y), Filtered(image, xsize, ext, y, x), 255);
    }
  }
}
