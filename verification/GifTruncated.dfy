/** What the GIF reader does on data whose series of sub-blocks is not terminated. */
module GifTruncated {
  import opened BitStrings
  import opened LzwSpec
  import opened SubBlocks
  import opened CodeSource
  import opened GifDecoder
  import opened GifRoundTrip
  import opened Options

  lemma {:induction false} SymbolShrinks(cs: nat, r: Reader, bits: seq<bool>)
    requires r.Ok(cs) && 2 <= cs < MAX_BITS
    ensures var res := ReadSymbol(cs, r, bits); res.Some? ==> |res.value.1.bits| < |bits|
    decreases |bits|
  {
    hide Pow2, Value, Expand;
    var w := CodeSize(cs, r.Size());
    if |bits| >= w {
      ValueFits(bits[..w]);
      var (r', text) := Feed(cs, r, Value(bits[..w]));
      if text == [] {
        SymbolShrinks(cs, r', bits[w..]);
      }
    }
  }

  /** How many pixels there can be at most. */
  function Capacity(v: View): nat { (TABLE_SIZE + 1) * |v.bits| + |v.stack| }

  lemma PixelShrinks(cs: nat, v: View)
    requires v.Ok(cs)
    ensures var res := NextPixel(cs, v); res.Some? ==> Capacity(res.value.1) < Capacity(v)
  {
    hide ReadSymbol, Pow2;
    SymbolShrinks(cs, if v.first then Fresh else v.reader, v.bits);
  }

  lemma {:induction false} PixelsLeft(cs: nat, v: View, n: nat)
    requires v.Ok(cs)
    ensures var res := Pixels(cs, v, n); res.Some? ==> Capacity(res.value.1) + n <= Capacity(v)
  {
    hide NextPixel, Capacity;
    if n > 0 {
      PixelsLeft(cs, v, n - 1);
      var front := Pixels(cs, v, n - 1);
      if front.Some? {
        PixelShrinks(cs, front.value.1);
      }
    }
  }

  /** Where reading `n` pixels leads. */
  function StatusAfter(cs: nat, data: seq<byte>, start: nat, n: nat): Status
    requires 2 <= cs < MAX_BITS
  {
    if Pixels(cs, View(true, Fresh, [], ByteBits(Payload(data, start))), n).Some? then Fine
    else Ending(FateOf(data, start))
  }

  /** Reading `n` pixels of any data. */
  method ReadAny(cs: nat, data: seq<byte>, start: nat, n: nat) returns (status: Status)
    requires 2 <= cs < MAX_BITS
    ensures status == StatusAfter(cs, data, start, n)
  {
    hide Pixels, ByteBits, Payload, FateOf;
    var d := new Decoder(cs, data, start);
    assert d.V() == View(true, Fresh, [], ByteBits(Payload(data, start)));
    hide Decoder.V, Decoder.Valid;
    var out := ReadPixels(d, n);
    status := d.source.status;
  }

  /** However many pixels are read, none is looked for outside the data, exactly when the chain of counts comes to a
      terminator or to a count too long for the data. */
  lemma StaysInside(cs: nat, data: seq<byte>, start: nat)
    requires 2 <= cs < MAX_BITS
    ensures (forall n: nat :: !StatusAfter(cs, data, start, n).Outside?) <==> FateOf(data, start) != PastEnd
  {
    hide Pixels, ByteBits, Payload, FateOf;
    var v := View(true, Fresh, [], ByteBits(Payload(data, start)));
    PixelsLeft(cs, v, Capacity(v) + 1);
    assert StatusAfter(cs, data, start, Capacity(v) + 1) == Ending(FateOf(data, start));
  }

  lemma OneByte()
    ensures FateOf([1, 0x44], 0) == PastEnd && Payload([1, 0x44], 0) == [0x44]
  {
    var src: seq<byte> := [1, 0x44];
    assert FateOf(src, 2) == PastEnd && Payload(src, 2) == [];
    assert src[1..2] == [0x44];
  }

  lemma LowThree()
    ensures Mask(0x44, 3) == 4 && Mask(8, 3) == 0
  {
    assert Mask(0x11, 1) == 1 && Mask(2, 1) == 0;
    assert Mask(0x22, 2) == 2 && Mask(4, 2) == 0;
  }

  /** The two codes of that byte: Clear, and the raw pixel 0; two bits are left over. */
  lemma OneByteCodes(bits: seq<bool>)
    requires bits == ByteBits([0x44])
    ensures |bits| == 8 && Value(bits[..3]) == 4 && Value(bits[3..][..3]) == 0
  {
    ValueByte(0x44, []);
    assert [0x44] + [] == [0x44];
    assert Value(bits) == 0x44;
    hide ByteBits, Value;
    ValueSlice(bits, 0, 3);
    ValueSlice(bits, 3, 3);
    assert bits[0..3] == bits[..3] && bits[3..6] == bits[3..][..3];
    assert Shr(0x44, 0) == 0x44;
    assert Shr(0x44, 3) == Shr(0x22, 2) == Shr(0x11, 1) == 8;
    LowThree();
    hide Shr, Mask;
  }

  /** A single block of one byte and no terminator: the second pixel is looked for outside the data. */
  lemma LooksOutside()
    ensures StatusAfter(2, [1, 0x44], 0, 2).Outside?
  {
    OneByte();
    var bits := ByteBits([0x44]);
    OneByteCodes(bits);
    assert Pow2(2) == 4;
    hide Value, ByteBits, Pow2, ReadSymbol, FateOf, Payload;
    FreshRead(2, bits);
    FreshRead(2, bits[3..]);
    var v := View(true, Fresh, [], bits);
    var w := View(false, Running([], 0, 0), [], bits[3..][3..]);
    assert NextPixel(2, v) == Some((0, w));
    assert Pixels(2, v, 1) == Some(([0], w)) by {
      assert Pixels(2, v, 0) == Some(([], v));
      assert [] + [0] == [0];
    }
    RunningRead(2, Running([], 0, 0), w.bits);
    assert NextPixel(2, w).None?;
    assert Pixels(2, v, 2).None?;
  }
}
