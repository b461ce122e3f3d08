/** Reading back what was written: from a code sequence packed into bits to the same pixels. */
module GifRoundTrip {
  import opened BitStrings
  import opened LzwSpec
  import opened LzwTextbook
  import opened SubBlocks
  import opened GifDecoder
  import opened Options
  import opened CodeSource
  import opened GifEncoder

  lemma {:induction false} FitsPrefix(cs: nat, codes: seq<nat>, i: nat)
    requires 2 <= cs < MAX_BITS && Fits(cs, codes) && i <= |codes|
    ensures Fits(cs, codes[..i])
    ensures FeedAll(cs, codes[..i]).1 <= FeedAll(cs, codes).1
    ensures Pack(cs, codes[..i]) <= Pack(cs, codes)
    decreases |codes|
  {
    hide Feed, Bits, CodeSize, Pow2;
    if i == |codes| {
      assert codes[..i] == codes;
    } else {
      var front := codes[..|codes| - 1];
      FitsPrefix(cs, front, i);
      assert front[..i] == codes[..i];
    }
  }

  /** Consuming the `i`-th code of a packed sequence. */
  lemma NextCode(cs: nat, codes: seq<nat>, bits: seq<bool>, i: nat)
    requires 2 <= cs < MAX_BITS && Fits(cs, codes) && Pack(cs, codes) <= bits && i < |codes|
    ensures Fits(cs, codes[..i]) && Fits(cs, codes[..i + 1])
    ensures var r := FeedAll(cs, codes[..i]).0;
            var w, at := CodeSize(cs, r.Size()), |Pack(cs, codes[..i])|;
            && codes[i] < Pow2(w)
            && at + w <= |bits| && |Pack(cs, codes[..i + 1])| == at + w
            && Value(bits[at..][..w]) == codes[i]
            && FeedAll(cs, codes[..i + 1]) == (Feed(cs, r, codes[i]).0, FeedAll(cs, codes[..i]).1 + Feed(cs, r, codes[i]).1)
  {
    hide *;
    FitsPrefix(cs, codes, i);
    FitsPrefix(cs, codes, i + 1);
    var front, code := codes[..i], codes[i];
    assert codes[..i + 1] == front + [code];
    LastFits(cs, front, code);
    FeedAllAppend(cs, front, code);
    var w, p := CodeSize(cs, FeedAll(cs, front).0.Size()), Pack(cs, front);
    assert p + Bits(code, w) <= bits;
    assert bits[|p|..][..w] == Bits(code, w);
    ValueOfBits(code, w);
  }

  lemma LastFits(cs: nat, front: seq<nat>, code: nat)
    requires 2 <= cs < MAX_BITS && Fits(cs, front) && Fits(cs, front + [code])
    ensures code < Pow2(CodeSize(cs, FeedAll(cs, front).0.Size()))
  {
    assert (front + [code])[..|front|] == front;
  }

  /** The state of a reader that has returned `n` pixels of the packed sequence, the last of them
      from its `i`-th code. */
  ghost predicate Reading(cs: nat, codes: seq<nat>, bits: seq<bool>, v: View, i: nat, n: nat)
    requires 2 <= cs < MAX_BITS && Fits(cs, codes)
  {
    && i <= |codes| && Fits(cs, codes[..i])
    && var (r, text) := FeedAll(cs, codes[..i]);
    && n <= |text| && |Pack(cs, codes[..i])| <= |bits|
    && v == View(i == 0, r, text[n..], bits[|Pack(cs, codes[..i])|..])
  }

  /** While pixels remain, a symbol can be read, skipping any Clear codes before it. */
  lemma {:induction false} ReadsOn(cs: nat, codes: seq<nat>, bits: seq<bool>, i: nat) returns (j: nat)
    requires 2 <= cs < MAX_BITS && Fits(cs, codes) && NoEnd(cs, codes) && Pack(cs, codes) <= bits
    requires i <= |codes| && Fits(cs, codes[..i])
    requires |Pack(cs, codes[..i])| <= |bits|
    requires |FeedAll(cs, codes[..i]).1| < |FeedAll(cs, codes).1|
    ensures var (r, text) := FeedAll(cs, codes[..i]);
            var res := ReadSymbol(cs, r, bits[|Pack(cs, codes[..i])|..]);
            && res.Some? && res.value.0 == FeedAll(cs, codes).1[|text|]
            && i < j && Reading(cs, codes, bits, res.value.1, j, |text| + 1)
    decreases |codes| - i
  {
    hide Feed, Bits, CodeSize, Pow2, Value, FeedAll, Pack, Fits;
    assert codes[..|codes|] == codes;
    NextCode(cs, codes, bits, i);
    var (r, text) := FeedAll(cs, codes[..i]);
    var w, at := CodeSize(cs, r.Size()), |Pack(cs, codes[..i])|;
    var (r', more) := Feed(cs, r, codes[i]);
    assert bits[at..][w..] == bits[at + w..];
    if more == [] {
      assert text + more == text;
      j := ReadsOn(cs, codes, bits, i + 1);
    } else {
      j := i + 1;
      FitsPrefix(cs, codes, j);
      assert (text + more)[|text|] == more[0];
      assert (text + more)[|text| + 1..] == more[1..];
    }
  }

  /** One more pixel. */
  lemma ReadsPixel(cs: nat, codes: seq<nat>, bits: seq<bool>, v: View, i: nat, n: nat) returns (j: nat)
    requires 2 <= cs < MAX_BITS && Fits(cs, codes) && NoEnd(cs, codes) && Pack(cs, codes) <= bits
    requires Reading(cs, codes, bits, v, i, n) && n < |FeedAll(cs, codes).1| && v.Ok(cs)
    ensures var res := NextPixel(cs, v);
            && res.Some? && res.value.0 == FeedAll(cs, codes).1[n]
            && Reading(cs, codes, bits, res.value.1, j, n + 1)
  {
    hide Feed, Bits, CodeSize, Pow2, Value, FeedAll, Pack, Fits, ReadSymbol;
    var (r, text) := FeedAll(cs, codes[..i]);
    FitsPrefix(cs, codes, i);
    if n < |text| {
      j := i;
      assert text[n..][1..] == text[n + 1..];
      EmptyFeedsNothing(cs, codes[..i]);
    } else {
      EmptyFeedsNothing(cs, codes[..i]);
      j := ReadsOn(cs, codes, bits, i);
    }
  }

  lemma EmptyFeedsNothing(cs: nat, codes: seq<nat>)
    requires 2 <= cs < MAX_BITS && Fits(cs, codes)
    ensures codes == [] ==> FeedAll(cs, codes) == (Fresh, []) && Pack(cs, codes) == []
  {
  }

  /** The next `n` pixels, if the input holds that many. */
  function Pixels(cs: nat, v: View, n: nat): (res: Option<(seq<nat>, View)>)
    requires v.Ok(cs)
    ensures res.Some? ==> |res.value.0| == n && res.value.1.Ok(cs)
  {
    if n == 0 then Some(([], v))
    else
      var front := Pixels(cs, v, n - 1);
      if front.None? then None
      else
        var next := NextPixel(cs, front.value.1);
        if next.None? then None else Some((front.value.0 + [next.value.0], next.value.1))
  }

  /** Reading a packed code sequence pixel by pixel gives exactly the pixels it stands for. */
  lemma {:induction false} UnpackPixels(cs: nat, codes: seq<nat>, bits: seq<bool>, n: nat) returns (i: nat)
    requires 2 <= cs < MAX_BITS && Fits(cs, codes) && NoEnd(cs, codes) && Pack(cs, codes) <= bits
    requires n <= |FeedAll(cs, codes).1|
    ensures var res := Pixels(cs, View(true, Fresh, [], bits), n);
            && res.Some? && res.value.0 == FeedAll(cs, codes).1[..n]
            && Reading(cs, codes, bits, res.value.1, i, n)
  {
    hide Feed, Bits, CodeSize, Pow2, Value, FeedAll, Pack, Fits, ReadSymbol, NextPixel;
    if n == 0 {
      i := 0;
      FitsPrefix(cs, codes, 0);
      EmptyFeedsNothing(cs, codes[..0]);
    } else {
      i := UnpackPixels(cs, codes, bits, n - 1);
      var v := Pixels(cs, View(true, Fresh, [], bits), n - 1).value.1;
      i := ReadsPixel(cs, codes, bits, v, i, n - 1);
    }
  }

  lemma StreamReads(stream: seq<byte>, blocks: seq<seq<byte>>)
    requires BlocksOk(blocks) && stream == Write(blocks) + [0]
    ensures Chain(stream, 0) && Payload(stream, 0) == Flatten(blocks)
  {
    assert At(stream, 0, Write(blocks));
    assert Chain(stream, |Write(blocks)|) && Payload(stream, |Write(blocks)|) == [];
    ReadWritten(stream, 0, blocks);
  }

  lemma {:induction false} NoMorePixels(cs: nat, v: View, i: nat, n: nat)
    requires v.Ok(cs) && i <= n && Pixels(cs, v, i).None?
    ensures Pixels(cs, v, n).None?
    decreases n
  {
    hide NextPixel;
    if i < n {
      NoMorePixels(cs, v, i, n - 1);
    }
  }

  function Zeros(n: nat): (z: seq<nat>)
    ensures |z| == n
  {
    seq(n, _ => 0)
  }

  /** All that is read from a terminated series of blocks.  Once the bits run out, zeros follow for ever.  An End gives
      one zero, and reading goes on with what its block still holds. */
  function Stream(cs: nat, v: View, src: seq<byte>, first: nat, over: bool, n: nat): (out: seq<nat>)
    requires v.Ok(cs)
    ensures |out| == n
    decreases n
  {
    if n == 0 then []
    else
      var next := NextPixel(cs, v);
      if next.Some? then [next.value.0] + Stream(cs, next.value.1, src, first, over, n - 1)
      else if AtEnd(cs, v) then [0] + Stream(cs, Past(cs, v, src, first, over), src, first, true, n - 1)
      else Zeros(n)
  }

  lemma DryStream(cs: nat, v: View, src: seq<byte>, first: nat, over: bool, n: nat)
    requires v.Ok(cs) && Dry(cs, v)
    ensures NextPixel(cs, v).None? && Stream(cs, v, src, first, over, n) == Zeros(n)
  {
    RunningRead(cs, v.reader, v.bits);
    hide ReadSymbol, CodeSize;
  }

  lemma Joined(a: seq<nat>, b: seq<nat>, c: seq<nat>)
    ensures a + b + c == a + (b + c)
  {
  }

  /** What is read begins with the pixels the data stands for. */
  lemma {:induction false} StreamPixels(cs: nat, v: View, src: seq<byte>, first: nat, over: bool, k: nat, n: nat)
    requires v.Ok(cs) && k <= n && Pixels(cs, v, k).Some?
    ensures var (front, v') := Pixels(cs, v, k).value;
            Stream(cs, v, src, first, over, n) == front + Stream(cs, v', src, first, over, n - k)
    decreases k
  {
    hide NextPixel, AtEnd, Past;
    if k == 0 {
      assert [] + Stream(cs, v, src, first, over, n) == Stream(cs, v, src, first, over, n);
    } else {
      StreamPixels(cs, v, src, first, over, k - 1, n);
      var (front, v') := Pixels(cs, v, k - 1).value;
      var (p, v'') := NextPixel(cs, v').value;
      hide Pixels;
      Joined(front, [p], Stream(cs, v'', src, first, over, n - k));
    }
  }

  /** Where the bits run out, zeros follow the pixels. */
  lemma ThenZeros(cs: nat, v: View, src: seq<byte>, first: nat, over: bool, k: nat, n: nat)
    requires v.Ok(cs) && k <= n && Pixels(cs, v, k).Some?
    requires var v' := Pixels(cs, v, k).value.1; NextPixel(cs, v').None? && !AtEnd(cs, v')
    ensures Stream(cs, v, src, first, over, n) == Pixels(cs, v, k).value.0 + Zeros(n - k)
  {
    hide NextPixel, AtEnd, Pixels;
    StreamPixels(cs, v, src, first, over, k, n);
  }

  /** After an End one zero follows, and then what is read from the rest of its block. */
  lemma ThenEnd(cs: nat, v: View, src: seq<byte>, first: nat, over: bool, k: nat, n: nat)
    requires v.Ok(cs) && k < n && Pixels(cs, v, k).Some? && AtEnd(cs, Pixels(cs, v, k).value.1)
    ensures var (front, v') := Pixels(cs, v, k).value;
            Stream(cs, v, src, first, over, n) ==
              front + ([0] + Stream(cs, Past(cs, v', src, first, over), src, first, true, n - k - 1))
  {
    var v' := Pixels(cs, v, k).value.1;
    RunningRead(cs, v'.reader, v'.bits);
    assert NextPixel(cs, v').None?;
    hide NextPixel, Pixels, Past;
    StreamPixels(cs, v, src, first, over, k, n);
  }

  lemma ZerosMore(n: nat)
    requires n > 0
    ensures Zeros(n) == [0] + Zeros(n - 1)
  {
  }

  /** One reading gives the head of the stream, and leaves its tail. */
  lemma StreamStep(cs: nat, v: View, src: seq<byte>, first: nat, over: bool, p: nat, v': View, over': bool, n: nat)
    requires v.Ok(cs) && v'.Ok(cs) && n > 0
    requires NextPixel(cs, v).Some? ==> NextPixel(cs, v).value == (p, v') && over' == over
    requires NextPixel(cs, v).None? && AtEnd(cs, v) ==> p == 0 && v' == Past(cs, v, src, first, over) && over'
    requires NextPixel(cs, v).None? && !AtEnd(cs, v) ==> p == 0 && Dry(cs, v')
    ensures Stream(cs, v, src, first, over, n) == [p] + Stream(cs, v', src, first, over', n - 1)
  {
    hide NextPixel, AtEnd, Past, Dry;
    if NextPixel(cs, v).None? && !AtEnd(cs, v) {
      DryStream(cs, v', src, first, over', n - 1);
      ZerosMore(n);
    }
  }

  /** One call of LZWReadByte, with n pixels still to be read. */
  method ReadOne(d: Decoder, ghost n: nat) returns (p: nat)
    requires d.Valid() && n > 0
    modifies d, d.symbolHead, d.symbolTail, d.symbolStack, d.source, d.source.codeBuf
    ensures d.source.status.Fine? ==> d.Valid() && p < Pow2(d.cs) && d.source.Fate() == old(d.source.Fate())
    ensures var want := NextPixel(d.cs, old(d.V()));
            && (want.Some? ==> d.source.status.Fine? && want.value == (p, d.V()))
            && (want.None? && d.source.status.Fine? ==> old(d.source.Fate()) == Terminated)
            && (!d.source.status.Fine? ==> d.source.status == Ending(old(d.source.Fate())))
            && (old(d.source.Fate()) == Terminated ==> d.source.status.Fine?)
    ensures d.source.status.Fine? && d.source.Fate() == Terminated ==>
      Stream(d.cs, old(d.V()), d.source.src, d.source.first, old(d.source.outOfBlocks), n) ==
      [p] + Stream(d.cs, d.V(), d.source.src, d.source.first, d.source.outOfBlocks, n - 1)
  {
    hide NextPixel, AtEnd, Past, Pow2, Decoder.V, Decoder.TableOk, FateOf, Stream, Dry;
    ghost var v, over := d.V(), d.source.outOfBlocks;
    p := d.LZWReadByte();
    d.ExhaustedDry();
    if d.source.status.Fine? && d.source.Fate() == Terminated {
      StreamStep(d.cs, v, d.source.src, d.source.first, over, p, d.V(), d.source.outOfBlocks, n);
    }
  }

  lemma PixelsMore(cs: nat, v: View, n: nat)
    requires v.Ok(cs)
    ensures var front := Pixels(cs, v, n);
            Pixels(cs, v, n + 1) ==
            if front.None? || NextPixel(cs, front.value.1).None? then None
            else
              var next := NextPixel(cs, front.value.1).value;
              Some((front.value.0 + [next.0], next.1))
  {
    hide NextPixel;
  }

  /** `n` calls of LZWReadByte, on any data: the pixels it stands for.  Where it holds fewer, the rest is as `Stream`
      says if the series of blocks is terminated; otherwise the reader comes to what the end of the series leads to. */
  method ReadPixels(d: Decoder, n: nat) returns (out: seq<nat>)
    requires d.Valid()
    modifies d, d.symbolHead, d.symbolTail, d.symbolStack, d.source, d.source.codeBuf
    ensures var want := Pixels(d.cs, old(d.V()), n);
            && (want.Some? ==> d.source.status.Fine? && out == want.value.0)
            && (want.None? ==> d.source.status == Ending(old(d.source.Fate())))
    ensures d.source.status.Fine? ==> d.Valid() && |out| == n && forall i :: 0 <= i < n ==> out[i] < Pow2(d.cs)
    ensures old(d.source.Fate()) == Terminated ==>
      out == Stream(d.cs, old(d.V()), d.source.src, d.source.first, old(d.source.outOfBlocks), n)
  {
    hide NextPixel, Pow2, Decoder.V, Decoder.TableOk, FateOf, Stream, Pixels;
    ghost var src, first := d.source.src, d.source.first;
    ghost var whole := Stream(d.cs, d.V(), src, first, d.source.outOfBlocks, n);
    out := [];
    assert whole == [] + whole;
    NoPixels(d.cs, d.V());
    for i := 0 to n
      invariant d.Valid() && |out| == i && d.source.Fate() == old(d.source.Fate())
      invariant forall k :: 0 <= k < i ==> out[k] < Pow2(d.cs)
      invariant var want := Pixels(d.cs, old(d.V()), i);
                && (want.Some? ==> want.value == (out, d.V()))
                && (want.None? ==> old(d.source.Fate()) == Terminated)
      invariant d.source.Fate() == Terminated ==>
        whole == out + Stream(d.cs, d.V(), src, first, d.source.outOfBlocks, n - i)
    {
      PixelsMore(d.cs, old(d.V()), i);
      var p := ReadOne(d, n - i);
      if !d.source.status.Fine? {
        NoMorePixels(d.cs, old(d.V()), i + 1, n);
        return;
      }
      Joined(out, [p], Stream(d.cs, d.V(), src, first, d.source.outOfBlocks, n - i - 1));
      out := out + [p];
    }
    EmptyStream(d.cs, d.V(), src, first, d.source.outOfBlocks);
    assert out + [] == out;
  }

  lemma NoPixels(cs: nat, v: View)
    requires v.Ok(cs)
    ensures Pixels(cs, v, 0) == Some(([], v))
  {
  }

  lemma EmptyStream(cs: nat, v: View, src: seq<byte>, first: nat, over: bool)
    requires v.Ok(cs)
    ensures Stream(cs, v, src, first, over, 0) == []
  {
  }

  /** `stream` holds, in sub-blocks from `start`, codes that stand for `pixels`. */
  ghost predicate Holds(cs: nat, stream: seq<byte>, start: nat, data: seq<nat>, pixels: seq<nat>)
  {
    && 2 <= cs < MAX_BITS
    && Fits(cs, data) && NoEnd(cs, data) && FeedAll(cs, data).1 == pixels
    && Chain(stream, start) && Pack(cs, data) <= ByteBits(Payload(stream, start))
  }

  /** The stream holds codes that spell the pixels as the textbook does. */
  ghost predicate Encodes(cs: nat, stream: seq<byte>, pixels: seq<nat>) {
    exists data :: Holds(cs, stream, 0, data, pixels) && TurnAll(Pow2(cs), data).0 && TurnAll(Pow2(cs), data).2 == pixels
  }

  /** The image data of a GIF file, without the code size byte before it: packets, then a terminator. */
  method Encode(cs: nat, pixels: seq<nat>) returns (stream: seq<byte>, ghost data: seq<nat>)
    requires 2 <= cs <= 8
    requires pixels != [] && forall i :: 0 <= i < |pixels| ==> pixels[i] < Pow2(cs)
    ensures Holds(cs, stream, 0, data, pixels)
    ensures Encodes(cs, stream, pixels)
  {
    hide Fits, FeedAll, Pack, ByteBits, Chain, FateOf, Payload, NoEnd, Pow2, CodeWriter.Valid, TurnAll, SameBook;
    var c := new Compressor(cs);
    data := c.Compress(pixels);
    TextbookReads(cs, data);
    stream := c.w.packets.stream + [0];
    StreamReads(stream, c.w.packets.blocks);
    assert c.w.packets.Bytes() == Flatten(c.w.packets.blocks);
  }

  /** Reading image data wherever it starts and however it is divided into sub-blocks. */
  method Decode(cs: nat, stream: seq<byte>, start: nat, n: nat, ghost data: seq<nat>, ghost pixels: seq<nat>)
    returns (out: seq<nat>)
    requires Holds(cs, stream, start, data, pixels) && n <= |pixels|
    ensures out == pixels[..n]
  {
    hide Fits, FeedAll, Pack, ByteBits, Chain, FateOf, Payload, NoEnd, Pow2, Pixels, Decoder.Valid, Decoder.V;
    var d := new Decoder(cs, stream, start);
    ghost var i := UnpackPixels(cs, data, ByteBits(Payload(stream, start)), n);
    out := ReadPixels(d, n);
  }

  /** The LZW round trip: every nonempty pixel sequence, compressed into packets and read back one
      pixel at a time, is returned unchanged. */
  method CompressAndRead(cs: nat, pixels: seq<nat>) returns (out: seq<nat>)
    requires 2 <= cs <= 8
    requires pixels != [] && forall i :: 0 <= i < |pixels| ==> pixels[i] < Pow2(cs)
    ensures out == pixels
  {
    hide *;
    var stream, data := Encode(cs, pixels);
    out := Decode(cs, stream, 0, |pixels|, data, pixels);
    assert pixels[..|pixels|] == pixels;
  }
}
