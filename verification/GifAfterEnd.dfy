/** An End code in the middle of a block: the reader goes on behind it. */
module GifAfterEnd {
  import opened BitStrings
  import opened LzwSpec
  import opened SubBlocks
  import opened CodeSource
  import opened GifDecoder
  import opened GifRoundTrip
  import opened Options

  /** One block of two bytes: the codes Clear, 1, End, 3, 0, and one bit more. */
  const TWO_BYTES: seq<byte> := [2, 0x4C, 0x07, 0]

  lemma TwoBytes()
    ensures FateOf(TWO_BYTES, 0) == Terminated && Payload(TWO_BYTES, 0) == [0x4C, 0x07]
    ensures Held(TWO_BYTES, 0, 9) == 7
  {
    assert FateOf(TWO_BYTES, 3) == Terminated && Payload(TWO_BYTES, 3) == [];
    assert TWO_BYTES[1..3] == [0x4C, 0x07];
  }

  lemma TwoBytesValue()
    ensures Value(ByteBits([0x4C, 0x07])) == 1868
  {
    ValueByte(0x07, []);
    ValueByte(0x4C, [0x07]);
    assert [0x07] + [] == [0x07] && [0x4C] + [0x07] == [0x4C, 0x07];
    assert Value(ByteBits([])) == 0;
    hide ByteBits, Value;
  }

  lemma Low3(v: nat)
    ensures Mask(v, 3) == v % 8
  {
    assert Mask(v / 4, 1) == v / 4 % 2;
    assert Mask(v / 2, 2) == v / 2 % 2 + 2 * (v / 4 % 2);
  }

  lemma Shr3(v: nat)
    ensures Shr(v, 3) == v / 8
  {
    assert Shr(v / 4, 1) == v / 8;
    assert Shr(v / 2, 2) == v / 8;
  }

  lemma {:induction false} ShrTwice(v: nat, a: nat, b: nat)
    ensures Shr(v, a + b) == Shr(Shr(v, a), b)
  {
    if a > 0 {
      ShrTwice(v / 2, a - 1, b);
    }
  }

  /** The five codes of the two bytes. */
  lemma FiveCodes(bits: seq<bool>)
    requires |bits| == 16 && Value(bits) == 1868
    ensures Value(bits[..3]) == 4 && Value(bits[3..6]) == 1 && Value(bits[6..9]) == 5
    ensures Value(bits[9..12]) == 3 && Value(bits[12..15]) == 0
  {
    hide Value, Mask, Shr;
    assert bits[0..3] == bits[..3];
    ValueSlice(bits, 0, 3);
    ValueSlice(bits, 3, 3);
    ValueSlice(bits, 6, 3);
    ValueSlice(bits, 9, 3);
    ValueSlice(bits, 12, 3);
    ShrZero(1868);
    ShrTwice(1868, 3, 3);
    ShrTwice(1868, 6, 3);
    ShrTwice(1868, 9, 3);
    Shr3(1868);
    Shr3(233);
    Shr3(29);
    Shr3(3);
    Low3(1868);
    Low3(233);
    Low3(29);
    Low3(3);
    Low3(0);
  }

  lemma ShrZero(v: nat)
    ensures Shr(v, 0) == v
  {
  }

  const ONE: Reader := Running([], 1, 1)
  const THREE: Reader := Running([Entry(1, 3)], 3, 3)

  lemma Readers()
    ensures Pow2(2) == 4 && CodeSize(2, 0) == 3 && CodeSize(2, 1) == 3
    ensures ONE.Ok(2) && THREE.Ok(2)
  {
    assert Pow2(2) == 4 && Pow2(3) == 8;
    assert EntryOk(4, Entry(1, 3), 0);
  }

  lemma FirstPixel(bits: seq<bool>)
    requires |bits| == 16 && Value(bits[..3]) == 4 && Value(bits[3..6]) == 1
    ensures View(true, Fresh, [], bits).Ok(2)
    ensures NextPixel(2, View(true, Fresh, [], bits)) == Some((1, View(false, ONE, [], bits[6..])))
  {
    Readers();
    hide Value, ReadSymbol, Pow2, CodeSize;
    FreshRead(2, bits);
    FreshRead(2, bits[3..]);
    assert bits[3..][..3] == bits[3..6] && bits[3..][3..] == bits[6..];
  }

  /** The End: with bit 9 of the 16 read, all the bits behind it are still in the buffer. */
  lemma EndCode(bits: seq<bool>)
    requires |bits| == 16 && Value(bits[6..9]) == 5
    ensures var v := View(false, ONE, [], bits[6..]);
            v.Ok(2) && AtEnd(2, v) && NextPixel(2, v).None? &&
            Past(2, v, TWO_BYTES, 0, false) == View(false, ONE, [], bits[9..])
  {
    Readers();
    TwoBytes();
    var rest := bits[6..];
    assert rest[..3] == bits[6..9] && rest[3..] == bits[9..];
    assert rest[3..][..7] == bits[9..];
    hide Value, ReadSymbol, Pow2, CodeSize, Payload, Held, FateOf;
    RunningRead(2, ONE, rest);
  }

  lemma RawFeeds(dict: seq<Entry>, prev: nat, code: nat)
    requires Running(dict, prev, prev).Ok(2) && code < 4 && |dict| < 2
    ensures Feed(2, Running(dict, prev, prev), code) == (Running(dict + [Entry(prev, code)], code, code), [code])
  {
    assert Pow2(2) == 4 && Pow2(3) == 8;
    FeedData(2, dict, prev, prev, code);
    RawExpands(4, dict, code);
    assert [code] + [] == [code];
    hide Feed, Expand;
  }

  lemma ThirdPixel(bits: seq<bool>)
    requires |bits| == 16 && Value(bits[9..12]) == 3
    ensures var v := View(false, ONE, [], bits[9..]);
            v.Ok(2) && NextPixel(2, v) == Some((3, View(false, THREE, [], bits[12..])))
  {
    Readers();
    RawFeeds([], 1, 3);
    var rest := bits[9..];
    assert rest[..3] == bits[9..12] && rest[3..] == bits[12..];
    assert [] + [Entry(1, 3)] == [Entry(1, 3)];
    hide Value, ReadSymbol, Pow2, CodeSize, Feed;
    RunningRead(2, ONE, rest);
  }

  lemma FourthPixel(bits: seq<bool>)
    requires |bits| == 16 && Value(bits[12..15]) == 0
    ensures var v := View(false, THREE, [], bits[12..]);
            v.Ok(2) && NextPixel(2, v).Some? && NextPixel(2, v).value.0 == 0
  {
    Readers();
    RawFeeds([Entry(1, 3)], 3, 0);
    var rest := bits[12..];
    assert rest[..3] == bits[12..15];
    hide Value, ReadSymbol, Pow2, CodeSize, Feed;
    RunningRead(2, THREE, rest);
  }

  /** The four pixels: one, the zero of the End, and two of the codes behind it. */
  lemma GoesOn(bits: seq<bool>)
    requires |bits| == 16 && Value(bits) == 1868
    ensures View(true, Fresh, [], bits).Ok(2)
    ensures Stream(2, View(true, Fresh, [], bits), TWO_BYTES, 0, false, 4) == [1, 0, 3, 0]
  {
    hide Value, NextPixel, AtEnd, Past, Dry, View.Ok;
    FiveCodes(bits);
    FirstPixel(bits);
    EndCode(bits);
    ThirdPixel(bits);
    FourthPixel(bits);
    var v0, v1 := View(true, Fresh, [], bits), View(false, ONE, [], bits[6..]);
    var v2, v3 := View(false, ONE, [], bits[9..]), View(false, THREE, [], bits[12..]);
    var v4 := NextPixel(2, v3).value.1;
    hide Stream;
    StreamStep(2, v0, TWO_BYTES, 0, false, 1, v1, false, 4);
    StreamStep(2, v1, TWO_BYTES, 0, false, 0, v2, true, 3);
    StreamStep(2, v2, TWO_BYTES, 0, true, 3, v3, true, 2);
    StreamStep(2, v3, TWO_BYTES, 0, true, 0, v4, true, 1);
    EmptyStream(2, v4, TWO_BYTES, 0, true);
  }

  /** The reader on these bytes: its second pixel is the zero of the End, and its third is not a zero. */
  method ReadsOn() returns (out: seq<nat>)
    ensures out == [1, 0, 3, 0]
  {
    hide ByteBits, Value, Payload, FateOf, Stream, Pixels, Held;
    TwoBytes();
    TwoBytesValue();
    GoesOn(ByteBits([0x4C, 0x07]));
    var d := new Decoder(2, TWO_BYTES, 0);
    out := ReadPixels(d, 4);
  }
}
