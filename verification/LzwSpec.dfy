/** Code-level meaning of GIF LZW (Appendix F of the GIF89a specification): what a reader
    makes of each code, and at which width it expects the next one.  Both the encoder and
    the decoder are proved against this module. */
module LzwSpec {
  import opened BitStrings

  const MAX_BITS: nat := 12
  const TABLE_SIZE: nat := 4096

  /** An LZW symbol: a prefix symbol followed by one byte. */
  datatype Entry = Entry(head: nat, tail: nat)

  /** `dict[k]` is the symbol with code `clear + 2 + k`; codes below `clear` are raw bytes. */
  predicate IsCode(clear: nat, dict: seq<Entry>, code: nat) {
    code < clear || clear + 2 <= code < clear + 2 + |dict|
  }

  predicate EntryOk(clear: nat, e: Entry, k: nat) {
    && e.tail < clear
    && e.tail < 256
    && (e.head < clear || clear + 2 <= e.head < clear + 2 + k)
  }

  /** Every symbol's prefix is an older symbol, and never Clear or End. */
  predicate DictOk(clear: nat, dict: seq<Entry>) {
    forall k :: 0 <= k < |dict| ==> EntryOk(clear, dict[k], k)
  }

  /** The pixel string a code stands for. */
  function Expand(clear: nat, dict: seq<Entry>, code: nat): (text: seq<nat>)
    requires DictOk(clear, dict) && IsCode(clear, dict, code)
    ensures 0 < |text|
    ensures code < clear ==> |text| == 1
    ensures code >= clear ==> |text| <= code - clear
    ensures forall i :: 0 <= i < |text| ==> text[i] < clear
    decreases code
  {
    if code < clear then [code]
    else
      var e := dict[code - clear - 2];
      assert EntryOk(clear, e, code - clear - 2);
      Expand(clear, dict, e.head) + [e.tail]
  }

  /** Width of the next code once the reader's table holds `n` symbols. */
  function CodeSize(cs: nat, n: nat): (w: nat)
    ensures n == 0 ==> w == cs + 1
    ensures cs < w
    ensures cs < MAX_BITS ==> w <= MAX_BITS
  {
    if n == 0 then cs + 1
    else
      var w := CodeSize(cs, n - 1);
      if Pow2(cs) + 2 + n >= Pow2(w) && w < MAX_BITS then w + 1 else w
  }

  /** A reader is either waiting for the raw code that follows Clear, or running with a table,
      the previous code and the first byte of the previous expansion. */
  datatype Reader = Fresh | Running(dict: seq<Entry>, prev: nat, first: nat) {
    function Size(): nat {
      if Fresh? then 0 else |dict|
    }

    predicate Ok(cs: nat) {
      Running? ==>
        && DictOk(Pow2(cs), dict)
        && Pow2(cs) + 2 + |dict| <= TABLE_SIZE
        && IsCode(Pow2(cs), dict, prev)
        && first < Pow2(cs)
    }
  }

  lemma DictAppend(clear: nat, dict: seq<Entry>, e: Entry)
    requires DictOk(clear, dict) && EntryOk(clear, e, |dict|)
    ensures DictOk(clear, dict + [e])
  {
    forall k | 0 <= k < |dict + [e]|
      ensures EntryOk(clear, (dict + [e])[k], k)
    {
      if k < |dict| { assert EntryOk(clear, dict[k], k); }
    }
  }

  /** A data code met by a running reader: it may name a known symbol, the one symbol about to be
      defined, or (in corrupt data) neither. */
  function FeedSymbol(clear: nat, dict: seq<Entry>, prev: nat, first: nat, code: nat): (res: (Reader, seq<nat>))
    requires DictOk(clear, dict) && IsCode(clear, dict, prev) && first < clear
    requires clear + 2 + |dict| <= TABLE_SIZE
    requires code != clear && code != clear + 1
    requires clear + 2 + |dict| == TABLE_SIZE ==> code < TABLE_SIZE
    ensures res.0.Running? && DictOk(clear, res.0.dict) && IsCode(clear, res.0.dict, res.0.prev)
    ensures clear + 2 + |res.0.dict| <= TABLE_SIZE && res.0.first < clear
    ensures 0 < |res.1| <= TABLE_SIZE
    ensures forall i :: 0 <= i < |res.1| ==> res.1[i] < clear
  {
    var max := clear + 2 + |dict|;
    var body := Expand(clear, dict, if code < max then code else prev);
    var next := Entry(prev, body[0] % 256);
    assert EntryOk(clear, next, |dict|);
    DictAppend(clear, dict, next);
    var dict' := if max < TABLE_SIZE then dict + [next] else dict;
    (Running(dict', if code > max then 0 else code, body[0]),
     if code < max then body else body + [first % 256])
  }

  /** One code: the reader's next state and the pixels it yields.  End yields a zero pixel, as
      does a code other than a raw byte right after Clear. */
  function Feed(cs: nat, r: Reader, code: nat): (res: (Reader, seq<nat>))
    requires r.Ok(cs) && 2 <= cs < MAX_BITS
    requires code < Pow2(CodeSize(cs, r.Size()))
    ensures res.0.Ok(cs)
    ensures forall i :: 0 <= i < |res.1| ==> res.1[i] < Pow2(cs)
    ensures |res.1| <= TABLE_SIZE
    ensures code != Pow2(cs) ==> 0 < |res.1| && res.0.Running?
  {
    var clear := Pow2(cs);
    CodeFits(cs, r.Size());
    if code == clear then (Fresh, [])
    else if r.Fresh? then
      assert clear + 2 <= TABLE_SIZE by { Pow2Values(); Pow2Monotone(cs, 11); }
      var raw := if code > clear then 0 else code;
      (Running([], raw, raw), [raw])
    else if code == clear + 1 then (r, [0])
    else FeedSymbol(clear, r.dict, r.prev, r.first, code)
  }

  /** Every code fits in the width the reader expects it at. */
  predicate Fits(cs: nat, codes: seq<nat>)
    requires 2 <= cs < MAX_BITS
    decreases |codes|, 0
  {
    codes == [] ||
    (var front := codes[..|codes| - 1];
     Fits(cs, front) && codes[|front|] < Pow2(CodeSize(cs, FeedAll(cs, front).0.Size())))
  }

  /** A new reader's state after a code sequence, and all pixels it has yielded. */
  function FeedAll(cs: nat, codes: seq<nat>): (res: (Reader, seq<nat>))
    requires 2 <= cs < MAX_BITS && Fits(cs, codes)
    ensures res.0.Ok(cs)
    decreases |codes|, 1
  {
    if codes == [] then (Fresh, [])
    else
      var (r, text) := FeedAll(cs, codes[..|codes| - 1]);
      var (r', more) := Feed(cs, r, codes[|codes| - 1]);
      (r', text + more)
  }

  lemma NothingFed(cs: nat)
    requires 2 <= cs < MAX_BITS
    ensures Fits(cs, []) && FeedAll(cs, []) == (Fresh, [])
  {
  }

  predicate NoEnd(cs: nat, codes: seq<nat>) {
    forall i :: 0 <= i < |codes| ==> codes[i] != Pow2(cs) + 1
  }

  lemma NoEndAppend(cs: nat, codes: seq<nat>, code: nat)
    requires NoEnd(cs, codes) && code != Pow2(cs) + 1
    ensures NoEnd(cs, codes + [code])
  {
  }

  /** The code sequence as bits, each code at the width the reader expects it at. */
  function Pack(cs: nat, codes: seq<nat>): (b: seq<bool>)
    requires 2 <= cs < MAX_BITS && Fits(cs, codes)
    decreases |codes|
  {
    if codes == [] then []
    else
      var front := codes[..|codes| - 1];
      Pack(cs, front) + Bits(codes[|front|], CodeSize(cs, FeedAll(cs, front).0.Size()))
  }

  /** A width below the maximum always leaves room for the reader's next symbol. */
  lemma {:induction false} CodeFits(cs: nat, n: nat)
    requires 2 <= cs < MAX_BITS
    ensures CodeSize(cs, n) == MAX_BITS || Pow2(cs) + 2 + n < Pow2(CodeSize(cs, n))
    ensures CodeSize(cs, n) <= MAX_BITS && Pow2(CodeSize(cs, n)) <= TABLE_SIZE
  {
    Pow2Values();
    Pow2Monotone(CodeSize(cs, n), MAX_BITS);
    if n == 0 {
      Pow2Monotone(2, cs);
    } else {
      CodeFits(cs, n - 1);
    }
  }

  lemma {:induction false} ExpandPrefix(clear: nat, dict: seq<Entry>, more: seq<Entry>, code: nat)
    requires DictOk(clear, dict) && DictOk(clear, dict + more) && IsCode(clear, dict, code)
    ensures Expand(clear, dict + more, code) == Expand(clear, dict, code)
    decreases code
  {
    if code >= clear {
      var k := code - clear - 2;
      assert (dict + more)[k] == dict[k];
      assert EntryOk(clear, dict[k], k);
      ExpandPrefix(clear, dict, more, dict[k].head);
    }
  }

  /** Extending a code sequence by one code. */
  lemma FeedAllAppend(cs: nat, codes: seq<nat>, code: nat)
    requires 2 <= cs < MAX_BITS && Fits(cs, codes)
    requires code < Pow2(CodeSize(cs, FeedAll(cs, codes).0.Size()))
    ensures Fits(cs, codes + [code])
    ensures var (r, text) := FeedAll(cs, codes); var (r', more) := Feed(cs, r, code);
            && FeedAll(cs, codes + [code]) == (r', text + more)
            && Pack(cs, codes + [code]) == Pack(cs, codes) + Bits(code, CodeSize(cs, r.Size()))
  {
    assert (codes + [code])[..|codes|] == codes;
  }
}
