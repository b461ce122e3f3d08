/** Whole images: the encoder's pixel walk, the decoder's row reassembly, and their round trip. */
module GifImage {
  import opened BitStrings
  import opened Interlace
  import GifRoundTrip
  import opened Options

  /** A rectangular image of colour indices. */
  predicate IsImage(image: seq<seq<nat>>, w: nat, h: nat, colors: nat) {
    && |image| == h > 0 && w > 0
    && forall y :: 0 <= y < h ==> |image[y]| == w && forall x :: 0 <= x < w ==> image[y][x] < colors
  }

  /** The row visited `k`-th. */
  function Order(interlace: bool, k: nat, h: nat): nat {
    if interlace then RowAt(k, h) else k
  }

  /** The first `k` rows visited, end to end. */
  function Scan(image: seq<seq<nat>>, interlace: bool, k: nat): (s: seq<nat>)
    requires k <= |image|
  {
    if k == 0 then []
    else
      assert Order(interlace, k - 1, |image|) < |image| by { IrowBijective(0, k - 1, |image|); }
      Scan(image, interlace, k - 1) + image[Order(interlace, k - 1, |image|)]
  }

  /** Where the `k`-th stored row begins, in rows of `w` pixels. */
  function RowStart(k: nat, w: nat): nat {
    if k == 0 then 0 else RowStart(k - 1, w) + w
  }

  lemma {:induction false} RowStartIs(k: nat, w: nat)
    ensures RowStart(k, w) == w * k
  {
    if k > 0 {
      RowStartIs(k - 1, w);
    }
  }

  /** The images whose walk stays inside them (`WalkMatches`). */
  predicate Walkable(interlace: bool, h: nat) { interlace ==> h == 1 || h >= 5 }

  /** What a walk gives where it looks at a row the image does not have. */
  const OUTSIDE: int := -2

  class PixelSource {
    const image: seq<seq<nat>>
    const width: nat
    const height: nat
    const interlace: bool
    var curx: nat
    var cury: nat
    var pass: nat
    var countDown: nat

    /** `k` rows are done, and `curx` pixels of the next one.  A walk that is to leave the image does so after its first
        row. */
    ghost predicate At(k: nat)
      reads this
    {
      && (exists colors :: IsImage(image, width, height, colors))
      && (!Walkable(interlace, height) ==> k == 0 || (k == 1 && curx == 0))
      && k <= height && curx < width && (k == height ==> curx == 0)
      && countDown + curx == RowStart(height - k, width)
      && (k < height ==> if interlace then Cursor(pass, cury) == Visit(k, height) else cury == k)
    }

    /** The pixels returned so far. */
    ghost function Given(k: nat): seq<nat>
      requires At(k)
      reads this
    {
      IrowBijective(0, k, height);
      Scan(image, interlace, k) + if k == height then [] else image[Order(interlace, k, height)][..curx]
    }

    constructor (image: seq<seq<nat>>, w: nat, h: nat, interlace: bool, ghost colors: nat)
      requires IsImage(image, w, h, colors)
      ensures At(0) && Given(0) == [] && this.image == image && width == w && height == h && this.interlace == interlace
    {
      this.image := image;
      width := w;
      height := h;
      this.interlace := interlace;
      curx, cury, pass := 0, 0, 0;
      countDown := w * h;
      RowStartIs(h, w);
    }

    method BumpPixel()
      requires curx < width
      modifies this`curx, this`cury, this`pass
      ensures curx == (if old(curx) + 1 == width then 0 else old(curx) + 1)
      ensures old(curx) + 1 != width ==> cury == old(cury) && pass == old(pass)
      ensures old(curx) + 1 == width && !interlace ==> cury == old(cury) + 1
      ensures old(curx) + 1 == width && interlace ==> Cursor(pass, cury) == NextRow(old(Cursor(pass, cury)), height)
    {
      curx := curx + 1;
      if curx == width {
        curx := 0;
        if !interlace {
          cury := cury + 1;
        } else {
          match pass {
            case 0 =>
              cury := cury + 8;
              if cury >= height { pass := pass + 1; cury := 4; }
            case 1 =>
              cury := cury + 8;
              if cury >= height { pass := pass + 1; cury := 2; }
            case 2 =>
              cury := cury + 4;
              if cury >= height { pass := pass + 1; cury := 1; }
            case 3 => cury := cury + 2;
            case _ =>
          }
        }
      }
    }

    lemma CurrentRow(k: nat)
      requires At(k) && k < height
      ensures cury < height <==> Walkable(interlace, height) || k == 0
      ensures cury < height ==> cury == Order(interlace, k, height)
    {
      IrowBijective(0, k, height);
      if Walkable(interlace, height) {
        if interlace { VisitIs(k, height); }
      } else {
        assert k == 1 ==> Visit(1, height) == Cursor(1, 4);
      }
    }

    /** A pixel inside the image, and on to the next. */
    method TakePixel(ghost k: nat) returns (r: int, ghost k': nat)
      requires At(k) && k < height && cury < height && countDown > 0
      modifies this
      ensures r >= 0 && At(k') && Given(k') == old(Given(k)) + [r] && countDown == old(countDown) - 1
    {
      VisitNext(k, height);
      RowsLeft(height - k, width, countDown, curx);
      CurrentRow(k);
      GivenMore(image, width, height, interlace, k, curx);
      hide RowAt, Visit, NextRow, RowStart, Scan, IsImage, Walkable;
      ghost var given := Given(k);
      countDown := countDown - 1;
      r := image[cury][curx];
      BumpPixel();
      if curx == 0 {
        k' := k + 1;
        assert At(k');
        assert Given(k') == given + [r];
      } else {
        k' := k;
        assert At(k');
        assert Given(k') == given + [r];
      }
    }

    /** GIFNextPixel: the next pixel in walking order, or EOF when all have been given.  In an image that is not walkable
        the second row looked at lies outside it. */
    method NextPixel(ghost k: nat) returns (r: int, ghost k': nat)
      requires At(k)
      modifies this
      ensures old(countDown) == 0 <==> k == height
      ensures k == height ==> r == EOF && k' == k && At(k') && Given(k') == old(Given(k))
      ensures k < height && (Walkable(interlace, height) || k == 0) ==>
        r >= 0 && At(k') && Given(k') == old(Given(k)) + [r] && countDown == old(countDown) - 1
      ensures k < height && !Walkable(interlace, height) && k > 0 ==> r == OUTSIDE
    {
      RowsLeft(height - k, width, countDown, curx);
      if countDown == 0 {
        return EOF, k;
      }
      CurrentRow(k);
      if cury >= height {
        return OUTSIDE, k;
      }
      hide At, Given, Walkable;
      r, k' := TakePixel(k);
    }
  }

  lemma RowsLeft(rows: nat, width: nat, countDown: nat, curx: nat)
    requires countDown + curx == RowStart(rows, width) && curx < width && (rows == 0 ==> curx == 0)
    ensures countDown == 0 <==> rows == 0
    ensures rows > 0 ==> RowStart(rows, width) == RowStart(rows - 1, width) + width
  {
  }

  lemma VisitNext(k: nat, h: nat)
    ensures Visit(k + 1, h) == NextRow(Visit(k, h), h)
  {
  }

  /** One more pixel of the row visited `k`-th. */
  lemma GivenMore(image: seq<seq<nat>>, w: nat, h: nat, interlace: bool, k: nat, x: nat)
    requires (exists colors :: IsImage(image, w, h, colors)) && k < h && x < w
    ensures var y := Order(interlace, k, h);
            && |image| == h && y < h && |image[y]| == w
            && Scan(image, interlace, k) + image[y][..x] + [image[y][x]] ==
               if x + 1 < w then Scan(image, interlace, k) + image[y][..x + 1] else Scan(image, interlace, k + 1)
  {
    IrowBijective(0, k, h);
    var y := Order(interlace, k, h);
    hide RowAt;
    assert image[y][..x] + [image[y][x]] == image[y][..x + 1];
    assert image[y][..w] == image[y];
    assert Scan(image, interlace, k + 1) == Scan(image, interlace, k) + image[y];
    hide Scan;
    Joined(Scan(image, interlace, k), image[y][..x], [image[y][x]]);
  }

  lemma Joined(a: seq<nat>, b: seq<nat>, c: seq<nat>)
    ensures a + b + c == a + (b + c)
  {
  }

  /** All the pixels the compressor will ask for, if the walk stays inside the image. */
  method WalkImage(image: seq<seq<nat>>, w: nat, h: nat, interlace: bool, ghost colors: nat)
    returns (inside: bool, pixels: seq<nat>)
    requires IsImage(image, w, h, colors)
    ensures inside <==> Walkable(interlace, h)
    ensures inside ==> pixels == Scan(image, interlace, h)
  {
    var source := new PixelSource(image, w, h, interlace, colors);
    pixels := [];
    ghost var k := 0;
    while true
      invariant source.At(k) && pixels == source.Given(k)
      invariant source.image == image && source.height == h && source.interlace == interlace
      decreases source.countDown
    {
      var c;
      c, k := source.NextPixel(k);
      if c == EOF {
        return true, pixels;
      } else if c == OUTSIDE {
        return false, pixels;
      }
      pixels := pixels + [c];
    }
  }

  lemma {:induction false} ScanBounds(image: seq<seq<nat>>, interlace: bool, w: nat, colors: nat, n: nat)
    requires IsImage(image, w, |image|, colors) && n <= |image|
    ensures |Scan(image, interlace, n)| == RowStart(n, w)
    ensures forall i :: 0 <= i < RowStart(n, w) ==> Scan(image, interlace, n)[i] < colors
  {
    hide RowAt;
    if n > 0 {
      IrowBijective(0, n - 1, |image|);
      ScanBounds(image, interlace, w, colors, n - 1);
    }
  }

  lemma SliceOfSum(a: seq<nat>, b: seq<nat>, i: nat, j: nat)
    requires i <= j
    ensures j <= |a| ==> (a + b)[i..j] == a[i..j]
    ensures i == |a| && j == |a| + |b| ==> (a + b)[i..j] == b
  {
  }

  lemma {:induction false} ScanSlice(image: seq<seq<nat>>, interlace: bool, w: nat, colors: nat, n: nat, k: nat)
    requires IsImage(image, w, |image|, colors) && k < n <= |image|
    ensures RowStart(k, w) + w <= |Scan(image, interlace, n)| && Order(interlace, k, |image|) < |image|
    ensures Scan(image, interlace, n)[RowStart(k, w)..RowStart(k, w) + w] == image[Order(interlace, k, |image|)]
  {
    hide RowAt, Irow, RowStart;
    IrowBijective(0, n - 1, |image|);
    ScanBounds(image, interlace, w, colors, n - 1);
    var front, at := Scan(image, interlace, n - 1), RowStart(k, w);
    var row := image[Order(interlace, n - 1, |image|)];
    assert Scan(image, interlace, n) == front + row && |row| == w;
    if k < n - 1 {
      ScanSlice(image, interlace, w, colors, n - 1, k);
    }
    hide Scan, IsImage, Order;
    SliceOfSum(front, row, at, at + w);
  }

  function StoredAt(interlace: bool, r: nat, h: nat): nat {
    if interlace then Irow(r, h) else r
  }

  lemma RowStored(image: seq<seq<nat>>, interlace: bool, w: nat, colors: nat, r: nat)
    requires IsImage(image, w, |image|, colors) && r < |image|
    ensures var at := RowStart(StoredAt(interlace, r, |image|), w); var s := Scan(image, interlace, |image|);
            at + w <= |s| && s[at..at + w] == image[r]
  {
    IrowBijective(r, 0, |image|);
    hide Irow, RowAt, Scan, IsImage;
    ScanSlice(image, interlace, w, colors, |image|, StoredAt(interlace, r, |image|));
  }

  /** Reassembling the rows: stored position `irow` holds image row `r`. */
  method Reassemble(pixels: seq<nat>, w: nat, h: nat, interlace: bool, ghost image: seq<seq<nat>>, ghost colors: nat)
    returns (rows: seq<seq<nat>>)
    requires IsImage(image, w, h, colors) && pixels == Scan(image, interlace, h)
    ensures rows == image
  {
    rows := [];
    for r := 0 to h
      invariant rows == image[..r]
    {
      hide StoredAt, Scan, RowStart;
      var irow := StoredAt(interlace, r, h);
      RowStored(image, interlace, w, colors, r);
      var at := RowStart(irow, w);
      rows := rows + [pixels[at..at + w]];
      assert image[..r + 1] == image[..r] + [image[r]];
    }
  }

  /** An image of any size survives the GIF encoder and decoder unchanged, unless it is to be interlaced and has two to
      four rows: then the encoder looks outside it. */
  method ImageRoundTrip(cs: nat, image: seq<seq<nat>>, w: nat, h: nat, interlace: bool) returns (rows: Option<seq<seq<nat>>>)
    requires 2 <= cs <= 8 && IsImage(image, w, h, Pow2(cs))
    ensures rows == if interlace && 2 <= h <= 4 then None else Some(image)
  {
    var inside, pixels := WalkImage(image, w, h, interlace, Pow2(cs));
    if !inside {
      return None;
    }
    ScanBounds(image, interlace, w, Pow2(cs), h);
    var out := GifRoundTrip.CompressAndRead(cs, pixels);
    var back := Reassemble(out, w, h, interlace, image, Pow2(cs));
    rows := Some(back);
  }
}
