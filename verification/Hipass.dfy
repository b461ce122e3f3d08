/** A high-pass filter that streams an image row by row, keeping running sums, and the whole-image formula it
    computes. */
module Hipass {
  import opened PixelMath

  // ----- the formula -----

  /** A pixel and its two neighbours in the row; at the ends the two pixels there, weighted as three. */
  function Blur(p: seq<int>, x: nat): int
    requires x < |p| && |p| >= 3
  {
    if x == 0 then (3 * (p[0] + p[1]) + 1) / 2
    else if x == |p| - 1 then (3 * (p[x - 1] + p[x]) + 1) / 2
    else p[x - 1] + p[x] + p[x + 1]
  }

  predicate IsImage(image: seq<seq<int>>, xsize: nat) {
    forall y :: 0 <= y < |image| ==> IsRow(image[y], xsize)
  }

  predicate IsRow(p: seq<int>, xsize: nat) {
    |p| == xsize && forall x :: 0 <= x < xsize ==> 0 <= p[x] <= 255
  }

  /** The sum over the neighbourhood of a pixel: three rows, or two at the top and the bottom. */
  function Around(image: seq<seq<int>>, xsize: nat, y: nat, x: nat): int
    requires IsImage(image, xsize) && xsize >= 3 && |image| >= 3 && y < |image| && x < xsize
  {
    (if y > 0 then Blur(image[y - 1], x) else 0) + Blur(image[y], x) +
    (if y < |image| - 1 then Blur(image[y + 1], x) else 0)
  }

  /** How many pixels the neighbourhood counts as. */
  function Weight(image: seq<seq<int>>, y: nat): int {
    if y == 0 || y == |image| - 1 then 6 else 9
  }

  function Sharpen(pixel: int, sum: int, k: int, ext: int): int
    requires k > 0
  {
    Clamp(pixel + Quotient(ext * (pixel * k - sum), k * 256), 255)
  }

  /** The filtered pixel; small images and a zero strength leave the image alone. */
  function Filtered(image: seq<seq<int>>, xsize: nat, ext: int, y: nat, x: nat): int
    requires IsImage(image, xsize) && y < |image| && x < xsize
  {
    if xsize < 3 || |image| < 3 || ext == 0 then image[y][x]
    else Sharpen(image[y][x], Around(image, xsize, y, x), Weight(image, y), ext)
  }

  lemma BlurRange(p: seq<int>, xsize: nat, x: nat)
    requires IsRow(p, xsize) && xsize >= 3 && x < xsize
    ensures 0 <= Blur(p, x) <= 765
  {
  }

  // ----- row operations -----

  /** Blurs a row with a running sum of three pixels. */
  method XBlur(dst: array<int>, src: array<int>)
    requires dst != src && dst.Length == src.Length >= 3 && IsRow(src[..], src.Length)
    modifies dst
    ensures forall x :: 0 <= x < dst.Length ==> dst[x] == Blur(src[..], x)
  {
    var n := src.Length;
    var acc := src[0] + src[1];
    dst[0] := (3 * acc + 1) / 2;
    acc := acc + src[2];
    var at := 1;
    while at < n - 2
      invariant 1 <= at <= n - 2 && acc == src[at - 1] + src[at] + src[at + 1]
      invariant forall x :: 0 <= x < at ==> dst[x] == Blur(src[..], x)
    {
      dst[at] := acc;
      acc := acc - src[at - 1];
      acc := acc + src[at + 2];
      at := at + 1;
    }
    dst[at] := acc;
    acc := acc - src[at - 1];
    dst[at + 1] := (3 * acc + 1) / 2;
  }

  /** Fits the 16-bit cells of the rows. */
  predicate Fits(v: int) { -32768 <= v <= 32767 }

  /** Adds a row, eight cells at a time while there are eight. */
  method AddRow(dst: array<int>, src: array<int>)
    requires dst != src && dst.Length == src.Length
    requires forall x :: 0 <= x < dst.Length ==> Fits(dst[x] + src[x])
    modifies dst
    ensures forall x :: 0 <= x < dst.Length ==> dst[x] == old(dst[x]) + src[x]
  {
    var n, at := dst.Length, 0;
    while n >= 8
      invariant n == dst.Length - at && 0 <= at <= dst.Length
      invariant forall x :: 0 <= x < dst.Length ==> dst[x] == if x < at then old(dst[x]) + src[x] else old(dst[x])
    {
      for k := 0 to 8
        invariant forall x :: 0 <= x < dst.Length ==>
                    dst[x] == if x < at + k then old(dst[x]) + src[x] else old(dst[x])
      {
        dst[at + k] := dst[at + k] + src[at + k];
      }
      at, n := at + 8, n - 8;
    }
    while n > 0
      invariant n == dst.Length - at && 0 <= at <= dst.Length
      invariant forall x :: 0 <= x < dst.Length ==> dst[x] == if x < at then old(dst[x]) + src[x] else old(dst[x])
    {
      dst[at] := dst[at] + src[at];
      at, n := at + 1, n - 1;
    }
  }

  /** Subtracts a row, eight cells at a time while there are eight. */
  method SubtractRow(dst: array<int>, src: array<int>)
    requires dst != src && dst.Length == src.Length
    requires forall x :: 0 <= x < dst.Length ==> Fits(dst[x] - src[x])
    modifies dst
    ensures forall x :: 0 <= x < dst.Length ==> dst[x] == old(dst[x]) - src[x]
  {
    var n, at := dst.Length, 0;
    while n >= 8
      invariant n == dst.Length - at && 0 <= at <= dst.Length
      invariant forall x :: 0 <= x < dst.Length ==> dst[x] == if x < at then old(dst[x]) - src[x] else old(dst[x])
    {
      for k := 0 to 8
        invariant forall x :: 0 <= x < dst.Length ==>
                    dst[x] == if x < at + k then old(dst[x]) - src[x] else old(dst[x])
      {
        dst[at + k] := dst[at + k] - src[at + k];
      }
      at, n := at + 8, n - 8;
    }
    while n > 0
      invariant n == dst.Length - at && 0 <= at <= dst.Length
      invariant forall x :: 0 <= x < dst.Length ==> dst[x] == if x < at then old(dst[x]) - src[x] else old(dst[x])
    {
      dst[at] := dst[at] - src[at];
      at, n := at + 1, n - 1;
    }
  }

  method ClearRow(dst: array<int>)
    modifies dst
    ensures forall x :: 0 <= x < dst.Length ==> dst[x] == 0
  {
    for x := 0 to dst.Length
      invariant forall j :: 0 <= j < x ==> dst[j] == 0
    {
      dst[x] := 0;
    }
  }

  method CopyRow(dst: array<int>, src: array<int>)
    requires dst != src && dst.Length == src.Length
    modifies dst
    ensures dst[..] == src[..]
  {
    for x := 0 to dst.Length
      invariant dst[..x] == src[..x]
    {
      dst[x] := src[x];
    }
  }

  /** Moves each pixel away from its blurred value. */
  method Extrapolate(pix: array<int>, acc: array<int>, div: int, ext: int)
    requires pix != acc && pix.Length == acc.Length && div > 0
    modifies pix
    ensures forall x :: 0 <= x < pix.Length ==> pix[x] == Sharpen(old(pix[x]), acc[x], div, ext)
  {
    hide Quotient, Clamp;
    for x := 0 to pix.Length
      invariant forall j :: 0 <= j < pix.Length ==>
                  pix[j] == if j < x then Sharpen(old(pix[j]), acc[j], div, ext) else old(pix[j])
    {
      var delta := pix[x] * div - acc[x];
      pix[x] := Clamp(pix[x] + Quotient(ext * delta, div * 256), 255);
    }
  }

  // ----- the stream -----

  ghost predicate IsBlurred(b: seq<int>, p: seq<int>) {
    |b| == |p| >= 3 && forall x :: 0 <= x < |p| ==> b[x] == Blur(p, x)
  }

  /** The running sum holds two blurred rows. */
  ghost predicate HoldsTwo(acc: seq<int>, p: seq<int>, q: seq<int>) {
    |acc| == |p| == |q| >= 3 && forall x :: 0 <= x < |acc| ==> acc[x] == Blur(p, x) + Blur(q, x)
  }

  ghost predicate HoldsThree(acc: seq<int>, p: seq<int>, q: seq<int>, r: seq<int>) {
    |acc| == |p| == |q| == |r| >= 3 &&
    forall x :: 0 <= x < |acc| ==> acc[x] == Blur(p, x) + Blur(q, x) + Blur(r, x)
  }

  class Filter {
    const image: seq<seq<int>>
    const xsize: nat
    const ext: int
    const acc: array<int>
    var y: nat
    var blur0: array<int>
    var blur1: array<int>
    var blur2: array<int>
    var past0: array<int>
    var past1: array<int>

    predicate Active() { xsize >= 3 && |image| >= 3 && ext != 0 }

    ghost predicate Shaped()
      reads this`blur0, this`blur1, this`blur2, this`past0, this`past1
    {
      IsImage(image, xsize) &&
      acc.Length == blur0.Length == blur1.Length == blur2.Length == past0.Length == past1.Length == xsize &&
      acc != blur0 && acc != blur1 && acc != blur2 && acc != past0 && acc != past1 &&
      blur0 != blur1 && blur0 != blur2 && blur0 != past0 && blur0 != past1 &&
      blur1 != blur2 && blur1 != past0 && blur1 != past1 &&
      blur2 != past0 && blur2 != past1 && past0 != past1
    }

    /** What the rows hold once row k has been delivered. */
    ghost predicate Ready(k: nat)
      reads this`blur0, this`blur1, this`blur2, this`past0, this`past1, acc, blur0, blur1, past1
    {
      Shaped() && k + 1 < |image| && xsize >= 3 &&
      HoldsTwo(acc[..], image[k], image[k + 1]) && IsBlurred(blur0[..], image[k]) &&
      IsBlurred(blur1[..], image[k + 1]) && past1[..] == image[k + 1]
    }

    constructor (pixels: seq<seq<int>>, width: nat, strength: int)
      requires IsImage(pixels, width)
      ensures Shaped() && image == pixels && xsize == width && ext == strength && y == 0
      ensures fresh(acc) && fresh(blur0) && fresh(blur1) && fresh(blur2) && fresh(past0) && fresh(past1)
    {
      image, xsize, ext, y := pixels, width, strength, 0;
      acc := new int[width];
      blur0 := new int[width];
      blur1 := new int[width];
      blur2 := new int[width];
      past0 := new int[width];
      past1 := new int[width];
    }

    /** The source of the image: fills a row. */
    method Fetch(dst: array<int>, k: nat)
      requires k < |image| && |image[k]| == dst.Length
      modifies dst
      ensures dst[..] == image[k]
    {
      for x := 0 to dst.Length
        invariant dst[..x] == image[k][..x]
      {
        dst[x] := image[k][x];
      }
    }

    /** Takes row k in: the newer past row becomes the older, and the row's blur joins the running sum. */
    method TakeRow(b: array<int>, k: nat)
      requires Shaped() && xsize >= 3 && k < |image| && b.Length == xsize && b != acc && b != past0 && b != past1
      requires forall x :: 0 <= x < xsize ==> Fits(acc[x] + Blur(image[k], x))
      modifies this`past0, this`past1, past0, b, acc
      ensures past0 == old(past1) && past1 == old(past0) && past1[..] == image[k]
      ensures IsBlurred(b[..], image[k])
      ensures forall x :: 0 <= x < xsize ==> acc[x] == old(acc[x]) + Blur(image[k], x)
    {
      hide Blur;
      past0, past1 := past1, past0;
      Fetch(past1, k);
      XBlur(b, past1);
      AddRow(acc, b);
    }

    ghost predicate Apart(buf: array<int>)
      reads this`blur0, this`blur1, this`blur2, this`past0, this`past1
    {
      buf.Length == xsize && buf != acc && buf != blur0 && buf != blur1 && buf != blur2 && buf != past0 && buf != past1
    }

    /** The top row: two rows are taken in. */
    method FirstRow(buf: array<int>)
      requires Shaped() && Active() && Apart(buf)
      modifies this`past0, this`past1, past0, past1, blur0, blur1, acc, buf
      ensures Ready(0) && Apart(buf)
      ensures {past0, past1} == old({past0, past1})
      ensures forall x :: 0 <= x < xsize ==> buf[x] == Filtered(image, xsize, ext, 0, x)
    {
      hide Blur, Sharpen;
      forall x | 0 <= x < xsize
        ensures 0 <= Blur(image[0], x) <= 765 && 0 <= Blur(image[1], x) <= 765
      {
        BlurRange(image[0], xsize, x);
        BlurRange(image[1], xsize, x);
      }
      ClearRow(acc);
      TakeRow(blur0, 0);
      TakeRow(blur1, 1);
      CopyRow(buf, past0);
      assert buf[..] == image[0];
      Extrapolate(buf, acc, 6, ext);
    }

    /** The bottom row: nothing more to take in. */
    method LastRow(buf: array<int>)
      requires Active() && Ready(|image| - 2) && Apart(buf)
      modifies buf
      ensures forall x :: 0 <= x < xsize ==> buf[x] == Filtered(image, xsize, ext, |image| - 1, x)
    {
      hide Blur, Sharpen;
      CopyRow(buf, past1);
      Extrapolate(buf, acc, 6, ext);
    }

    /** A row between: the next row joins the sum, the row is delivered, the row before leaves the sum. */
    method MiddleRow(buf: array<int>, k: nat)
      requires 1 <= k < |image| - 1 && Active() && Ready(k - 1) && Apart(buf)
      modifies this`past0, this`past1, this`blur0, this`blur1, this`blur2, past0, blur2, acc, buf
      ensures Ready(k) && Apart(buf)
      ensures {past0, past1} == old({past0, past1}) && {blur0, blur1, blur2} == old({blur0, blur1, blur2})
      ensures forall x :: 0 <= x < xsize ==> buf[x] == Filtered(image, xsize, ext, k, x)
    {
      hide Blur, Sharpen;
      forall x | 0 <= x < xsize
        ensures 0 <= Blur(image[k - 1], x) <= 765 && 0 <= Blur(image[k], x) <= 765 && 0 <= Blur(image[k + 1], x) <= 765
      {
        BlurRange(image[k - 1], xsize, x);
        BlurRange(image[k], xsize, x);
        BlurRange(image[k + 1], xsize, x);
      }
      TakeRow(blur2, k + 1);
      assert HoldsThree(acc[..], image[k - 1], image[k], image[k + 1]);
      CopyRow(buf, past0);
      assert buf[..] == image[k];
      Extrapolate(buf, acc, 9, ext);
      SubtractRow(acc, blur0);
      blur0, blur1, blur2 := blur1, blur2, blur0;
    }

    /** Between rows: the rows taken in match the row counter. */
    ghost predicate Valid()
      reads this`y, this`blur0, this`blur1, this`blur2, this`past0, this`past1, acc, blur0, blur1, past1
    {
      Shaped() && (Active() && 1 <= y < |image| ==> Ready(y - 1))
    }

    /** Delivers row k; ok is false, and nothing is done, when the rows are not asked for in order. */
    method GetRow(buf: array<int>, k: nat) returns (ok: bool)
      requires Valid() && Apart(buf) && k < |image|
      modifies this, past0, past1, blur0, blur1, blur2, acc, buf
      ensures ok == (k == 0 || k == old(y))
      ensures ok ==> Valid() && Apart(buf) && y == k + 1
      ensures ok ==> forall x :: 0 <= x < xsize ==> buf[x] == Filtered(image, xsize, ext, k, x)
      ensures {past0, past1} == old({past0, past1}) && {blur0, blur1, blur2} == old({blur0, blur1, blur2})
    {
      hide Filtered;
      if k == 0 {
        y := 0;
      }
      if y != k {
        return false;
      }
      if Active() {
        if k == 0 {
          FirstRow(buf);
        } else if k == |image| - 1 {
          LastRow(buf);
        } else {
          MiddleRow(buf, k);
        }
      } else {
        Fetch(buf, k);
        Untouched(image, xsize, ext, k, buf[..]);
      }
      y := y + 1;
      ok := true;
    }
  }

  lemma Untouched(image: seq<seq<int>>, xsize: nat, ext: int, k: nat, row: seq<int>)
    requires IsImage(image, xsize) && k < |image| && row == image[k]
    requires xsize < 3 || |image| < 3 || ext == 0
    ensures forall x :: 0 <= x < xsize ==> row[x] == Filtered(image, xsize, ext, k, x)
  {
  }

  ghost predicate IsFiltered(row: seq<int>, image: seq<seq<int>>, xsize: nat, ext: int, k: nat) {
    IsImage(image, xsize) && k < |image| && |row| == xsize &&
    forall x :: 0 <= x < xsize ==> row[x] == Filtered(image, xsize, ext, k, x)
  }

  /** The filter over a whole image, row by row, is the formula. */
  method FilterImage(image: seq<seq<int>>, xsize: nat, ext: int) returns (out: seq<seq<int>>)
    requires IsImage(image, xsize)
    ensures |out| == |image| && forall k :: 0 <= k < |image| ==> IsFiltered(out[k], image, xsize, ext, k)
  {
    out := [];
    var f := new Filter(image, xsize, ext);
    for k := 0 to |image|
      invariant f.Valid() && f.y == k && f.image == image && f.xsize == xsize && f.ext == ext
      invariant fresh(f) && fresh(f.acc) && fresh(f.blur0) && fresh(f.blur1) && fresh(f.blur2)
      invariant fresh(f.past0) && fresh(f.past1)
      invariant |out| == k && forall j :: 0 <= j < k ==> IsFiltered(out[j], image, xsize, ext, j)
    {
      hide Filtered, Filter.Ready;
      var buf := new int[xsize];
      var ok := f.GetRow(buf, k);
      assert IsFiltered(buf[..], image, xsize, ext, k);
      hide IsFiltered;
      out := out + [buf[..]];
    }
  }
}
