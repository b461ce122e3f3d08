/** Little-endian bit strings: the common currency of the GIF code writer and reader. */
module BitStrings {

  type byte = b: nat | b < 256

  function Pow2(n: nat): (r: nat)
    ensures r > 0
  {
    if n == 0 then 1 else 2 * Pow2(n - 1)
  }

  /** `v << k` */
  function Shl(v: nat, k: nat): nat {
    if k == 0 then v else 2 * Shl(v, k - 1)
  }

  /** `v >> k` */
  function Shr(v: nat, k: nat): nat {
    if k == 0 then v else Shr(v / 2, k - 1)
  }

  /** `v & ((1 << w) - 1)` */
  function Mask(v: nat, w: nat): nat {
    if w == 0 then 0 else v % 2 + 2 * Mask(v / 2, w - 1)
  }

  /** The low `w` bits of `v`, least significant first. */
  function Bits(v: nat, w: nat): (b: seq<bool>)
    ensures |b| == w
  {
    if w == 0 then [] else [v % 2 == 1] + Bits(v / 2, w - 1)
  }

  function Value(b: seq<bool>): (v: nat) {
    if b == [] then 0 else (if b[0] then 1 else 0) + 2 * Value(b[1..])
  }

  function ByteBits(s: seq<byte>): (b: seq<bool>)
    ensures |b| == 8 * |s|
  {
    if s == [] then [] else Bits(s[0], 8) + ByteBits(s[1..])
  }

  lemma {:induction false} Pow2Monotone(m: nat, n: nat)
    requires m <= n
    ensures Pow2(m) <= Pow2(n)
  {
    if m < n { Pow2Monotone(m, n - 1); }
  }

  lemma Pow2Values()
    ensures Pow2(2) == 4 && Pow2(8) == 256 && Pow2(11) == 2048 && Pow2(12) == 4096
  {
    assert Pow2(4) == 16;
    assert Pow2(6) == 64;
    assert Pow2(8) == 256;
    assert Pow2(10) == 1024;
  }

  /** A value that fits is unchanged by the mask. */
  lemma {:induction false} MaskFits(v: nat, k: nat)
    requires v < Pow2(k)
    ensures Mask(v, k) == v
  {
    if k > 0 { MaskFits(v / 2, k - 1); }
  }

  lemma {:induction false} ValueOfBits(v: nat, w: nat)
    requires v < Pow2(w)
    ensures Value(Bits(v, w)) == v
  {
    if w > 0 { ValueOfBits(v / 2, w - 1); }
  }

  lemma {:induction false} ValueFits(b: seq<bool>)
    ensures Value(b) < Pow2(|b|)
  {
    if b != [] { ValueFits(b[1..]); }
  }

  /** ORing `hi`, shifted, above `k` bits of `lo` concatenates the two bit strings. */
  lemma {:induction false} BitsConcat(lo: nat, hi: nat, k: nat, w: nat)
    requires lo < Pow2(k)
    ensures Bits(lo + Shl(hi, k), k + w) == Bits(lo, k) + Bits(hi, w)
  {
    if k > 0 {
      assert (lo + Shl(hi, k)) / 2 == lo / 2 + Shl(hi, k - 1);
      BitsConcat(lo / 2, hi, k - 1, w);
    }
  }

  lemma {:induction false} ConcatFits(lo: nat, hi: nat, k: nat, w: nat)
    requires lo < Pow2(k) && hi < Pow2(w)
    ensures lo + Shl(hi, k) < Pow2(k + w)
  {
    if k > 0 { ConcatFits(lo / 2, hi, k - 1, w); }
  }

  lemma {:induction false} ShrFits(v: nat, k: nat, n: nat)
    requires k <= n && v < Pow2(n)
    ensures Shr(v, k) < Pow2(n - k)
  {
    if k > 0 { ShrFits(v / 2, k - 1, n - 1); }
  }

  lemma ValueHalf(b: seq<bool>)
    requires b != []
    ensures Value(b) / 2 == Value(b[1..]) && Value(b) % 2 == if b[0] then 1 else 0
  {
  }

  lemma {:induction false} ValueShr(b: seq<bool>, k: nat)
    requires k <= |b|
    ensures Shr(Value(b), k) == Value(b[k..])
    decreases k
  {
    if k == 0 {
      assert b[0..] == b;
    } else {
      ValueHalf(b);
      ValueShr(b[1..], k - 1);
      hide Value;
      assert b[1..][k - 1..] == b[k..];
    }
  }

  lemma {:induction false} ValueMask(b: seq<bool>, w: nat)
    requires w <= |b|
    ensures Mask(Value(b), w) == Value(b[..w])
    decreases w
  {
    if w > 0 {
      ValueHalf(b);
      ValueMask(b[1..], w - 1);
      ValueHalf(b[..w]);
      hide Value;
      assert b[..w][1..] == b[1..][..w - 1];
    }
  }

  /** Shifting right by `k` and masking to `w` bits is a slice of the bit string. */
  lemma ValueSlice(b: seq<bool>, k: nat, w: nat)
    requires k + w <= |b|
    ensures Mask(Shr(Value(b), k), w) == Value(b[k..k + w])
  {
    hide Value, Mask, Shr;
    ValueShr(b, k);
    ValueMask(b[k..], w);
    assert b[k..][..w] == b[k..k + w];
  }

  lemma {:induction false} ByteBitsConcat(s: seq<byte>, t: seq<byte>)
    ensures ByteBits(s + t) == ByteBits(s) + ByteBits(t)
  {
    if s == [] {
      assert s + t == t;
    } else {
      assert (s + t)[1..] == s[1..] + t;
      ByteBitsConcat(s[1..], t);
    }
  }

  lemma ByteBitsAppend(s: seq<byte>, c: byte)
    ensures ByteBits(s + [c]) == ByteBits(s) + Bits(c, 8)
  {
    ByteBitsConcat(s, [c]);
    assert [c][1..] == [];
  }

  lemma ByteBitsSlice(s: seq<byte>, i: nat, j: nat)
    requires i <= j <= |s|
    ensures ByteBits(s[i..j]) == ByteBits(s)[8 * i..8 * j]
  {
    hide ByteBits;
    assert s == s[..i] + s[i..j] + s[j..];
    ByteBitsConcat(s[..i] + s[i..j], s[j..]);
    ByteBitsConcat(s[..i], s[i..j]);
    MiddlePart(ByteBits(s[..i]), ByteBits(s[i..j]), ByteBits(s[j..]));
  }

  lemma BitsAssociate(a: seq<bool>, b: seq<bool>, c: seq<bool>)
    ensures a + b + c == a + (b + c)
  {
  }

  lemma MiddlePart(a: seq<bool>, b: seq<bool>, c: seq<bool>)
    ensures (a + b + c)[|a|..|a| + |b|] == b
  {
  }

  lemma Shl8(v: nat)
    ensures Shl(v, 8) == 256 * v
  {
    assert Shl(v, 1) == 2 * v;
    assert Shl(v, 3) == 8 * v;
    assert Shl(v, 5) == 32 * v;
    assert Shl(v, 7) == 128 * v;
  }

  lemma Shr8(v: nat)
    ensures Shr(v, 8) == v / 256
  {
    assert forall u: nat :: Shr(u, 1) == u / 2;
    assert forall u: nat :: Shr(u, 2) == Shr(u / 2, 1) == u / 4;
    assert forall u: nat :: Shr(u, 3) == Shr(u / 2, 2) == u / 8;
    assert forall u: nat :: Shr(u, 4) == Shr(u / 2, 3) == u / 16;
    assert forall u: nat :: Shr(u, 5) == Shr(u / 2, 4) == u / 32;
    assert forall u: nat :: Shr(u, 6) == Shr(u / 2, 5) == u / 64;
    assert forall u: nat :: Shr(u, 7) == Shr(u / 2, 6) == u / 128;
  }

  lemma {:induction false} ValueConcat(v: nat, k: nat, rest: seq<bool>)
    requires v < Pow2(k)
    ensures Value(Bits(v, k) + rest) == v + Shl(Value(rest), k)
  {
    if k == 0 {
      assert rest == Bits(v, 0) + rest;
    } else {
      ValueConcat(v / 2, k - 1, rest);
      var b := Bits(v, k) + rest;
      assert b[1..] == Bits(v / 2, k - 1) + rest && b[0] == (v % 2 == 1);
      ValueHalf(b);
      hide Value, Bits;
    }
  }

  lemma ValueByte(b: byte, rest: seq<byte>)
    ensures Value(ByteBits([b] + rest)) == b + 256 * Value(ByteBits(rest))
  {
    assert ([b] + rest)[1..] == rest;
    Pow2Values();
    ValueConcat(b, 8, ByteBits(rest));
    Shl8(Value(ByteBits(rest)));
  }

  /** Three bytes assembled low byte first: `(b2 << 16) | (b1 << 8) | b0`. */
  function Assemble(b0: nat, b1: nat, b2: nat): nat {
    b0 + 256 * b1 + 65536 * b2
  }

  lemma ValueThreeBytes(b0: byte, b1: byte, b2: byte)
    ensures Value(ByteBits([b0, b1, b2])) == Assemble(b0, b1, b2)
  {
    ValueByte(b2, []);
    ValueByte(b1, [b2]);
    ValueByte(b0, [b1, b2]);
    assert [b2] + [] == [b2] && [b1] + [b2] == [b1, b2] && [b0] + [b1, b2] == [b0, b1, b2];
  }
}
