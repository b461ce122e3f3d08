/** LZW as Appendix F of the GIF89a specification tells it, with a table of strings: the reader's table of prefixes
    and tails, its widths and its bit order are that. */
module LzwTextbook {
  import opened BitStrings
  import opened LzwSpec

  // ----- the table of strings -----

  /** Waiting for the first code after a Clear, or with the strings defined so far and the string of the last code. */
  datatype Book = Blank | Open(strings: seq<seq<nat>>, last: seq<nat>)

  predicate BookOk(b: Book) {
    b.Open? ==> b.last != [] && forall k :: 0 <= k < |b.strings| ==> b.strings[k] != []
  }

  /** A raw code is its own pixel; the codes behind Clear and End number the strings. */
  function Spelled(clear: nat, strings: seq<seq<nat>>, code: nat): seq<nat>
    requires code < clear || clear + 2 <= code < clear + 2 + |strings|
  {
    if code < clear then [code] else strings[code - clear - 2]
  }

  /** The codes a book has a meaning for, End apart. */
  predicate Known(clear: nat, b: Book, code: nat) {
    code == clear ||
    (b.Blank? && code < clear) ||
    (b.Open? && code != clear + 1 && code <= clear + 2 + |b.strings| && code < 4096)
  }

  /** A code gives its string; one not yet defined gives the last string and its first pixel again. The last string
      and the first pixel of this one become a string of the table, while there is room. */
  function Turn(clear: nat, b: Book, code: nat): (r: (Book, seq<nat>))
    requires BookOk(b) && Known(clear, b, code)
    ensures BookOk(r.0)
  {
    if code == clear then (Blank, [])
    else if b.Blank? then (Open([], [code]), [code])
    else
      var text := if code < clear + 2 + |b.strings| then Spelled(clear, b.strings, code) else b.last + [b.last[0]];
      (Open(if clear + 2 + |b.strings| < 4096 then b.strings + [b.last + [text[0]]] else b.strings, text), text)
  }

  /** A whole code sequence; None where a code has no meaning. */
  function TurnAll(clear: nat, codes: seq<nat>): (r: (bool, Book, seq<nat>))
    ensures BookOk(r.1)
  {
    if codes == [] then (true, Blank, [])
    else
      var (ok, b, text) := TurnAll(clear, codes[..|codes| - 1]);
      var code := codes[|codes| - 1];
      if !ok || !Known(clear, b, code) then (false, b, text)
      else
        var (b', more) := Turn(clear, b, code);
        (true, b', text + more)
  }

  /** A reader whose table spells the strings of the book. */
  ghost predicate SameBook(cs: nat, r: Reader, b: Book)
    requires r.Ok(cs)
  {
    var clear := Pow2(cs);
    if r.Fresh? then b.Blank?
    else
      b.Open? && |b.strings| == |r.dict| && b.last == Expand(clear, r.dict, r.prev) && r.first == b.last[0] &&
      forall k :: 0 <= k < |r.dict| ==> b.strings[k] == Expand(clear, r.dict, clear + 2 + k)
  }

  lemma SpelledSame(clear: nat, dict: seq<Entry>, strings: seq<seq<nat>>, code: nat)
    requires DictOk(clear, dict) && IsCode(clear, dict, code) && |strings| == |dict|
    requires forall k :: 0 <= k < |dict| ==> strings[k] == Expand(clear, dict, clear + 2 + k)
    ensures Spelled(clear, strings, code) == Expand(clear, dict, code)
  {
    if code >= clear {
      assert code == clear + 2 + (code - clear - 2);
    }
  }

  /** What defining a symbol does to the strings. */
  lemma StringsMore(clear: nat, dict: seq<Entry>, strings: seq<seq<nat>>, prev: nat, c: nat)
    requires DictOk(clear, dict) && IsCode(clear, dict, prev) && c < clear && c < 256 && |strings| == |dict|
    requires forall k :: 0 <= k < |dict| ==> strings[k] == Expand(clear, dict, clear + 2 + k)
    ensures var dict', strings' := dict + [Entry(prev, c)], strings + [Expand(clear, dict, prev) + [c]];
            DictOk(clear, dict') &&
            forall k :: 0 <= k < |dict'| ==> strings'[k] == Expand(clear, dict', clear + 2 + k)
  {
    var e := Entry(prev, c);
    DictAppend(clear, dict, e);
    var dict' := dict + [e];
    forall k | 0 <= k < |dict'|
      ensures (strings + [Expand(clear, dict, prev) + [c]])[k] == Expand(clear, dict', clear + 2 + k)
    {
      if k < |dict| {
        ExpandPrefix(clear, dict, [e], clear + 2 + k);
      } else {
        ExpandPrefix(clear, dict, [e], prev);
      }
    }
  }

  /** A data code: the reader gives the book's pixels and ends with the book's strings. */
  lemma SymbolTurns(clear: nat, dict: seq<Entry>, prev: nat, first: nat, strings: seq<seq<nat>>, code: nat)
    requires clear <= 256 && DictOk(clear, dict) && IsCode(clear, dict, prev) && clear + 2 + |dict| <= TABLE_SIZE
    requires first == Expand(clear, dict, prev)[0] && |strings| == |dict|
    requires forall k :: 0 <= k < |dict| ==> strings[k] == Expand(clear, dict, clear + 2 + k)
    requires code != clear && code != clear + 1 && code <= clear + 2 + |dict| && code < TABLE_SIZE
    ensures var (r, text) := FeedSymbol(clear, dict, prev, first, code);
            var last := Expand(clear, dict, prev);
            text == (if code < clear + 2 + |dict| then Spelled(clear, strings, code) else last + [last[0]]) &&
            Expand(clear, r.dict, r.prev) == text && r.first == text[0] &&
            var strings' := if clear + 2 + |dict| < 4096 then strings + [last + [text[0]]] else strings;
            |r.dict| == |strings'| &&
            forall k :: 0 <= k < |r.dict| ==> strings'[k] == Expand(clear, r.dict, clear + 2 + k)
  {
    var max, last := clear + 2 + |dict|, Expand(clear, dict, prev);
    if code < max {
      SpelledSame(clear, dict, strings, code);
    }
    var body := Expand(clear, dict, if code < max then code else prev);
    assert body[0] % 256 == body[0] && first % 256 == first;
    if max < TABLE_SIZE {
      StringsMore(clear, dict, strings, prev, body[0]);
      var e := Entry(prev, body[0]);
      if code < max {
        ExpandPrefix(clear, dict, [e], code);
      } else {
        ExpandPrefix(clear, dict, [e], prev);
      }
    }
  }

  lemma FeedTurns(cs: nat, r: Reader, b: Book, code: nat)
    requires 2 <= cs <= 8 && r.Ok(cs) && BookOk(b) && SameBook(cs, r, b) && Known(Pow2(cs), b, code)
    ensures code < Pow2(CodeSize(cs, r.Size()))
    ensures Feed(cs, r, code).1 == Turn(Pow2(cs), b, code).1
    ensures SameBook(cs, Feed(cs, r, code).0, Turn(Pow2(cs), b, code).0)
  {
    KnownFits(cs, r, b, code);
    if r.Running? && code != Pow2(cs) {
      RunningTurns(cs, r, b, code);
    } else if code != Pow2(cs) {
      hide CodeSize, Pow2, FeedSymbol, Expand;
      RawText(Pow2(cs), code);
    }
  }

  lemma RunningTurns(cs: nat, r: Reader, b: Book, code: nat)
    requires 2 <= cs <= 8 && r.Ok(cs) && BookOk(b) && SameBook(cs, r, b) && Known(Pow2(cs), b, code)
    requires r.Running? && code != Pow2(cs) && code < Pow2(CodeSize(cs, r.Size()))
    ensures Feed(cs, r, code).1 == Turn(Pow2(cs), b, code).1
    ensures SameBook(cs, Feed(cs, r, code).0, Turn(Pow2(cs), b, code).0)
  {
    hide CodeSize, Pow2, FeedSymbol, Expand, DictOk, IsCode, Spelled;
    ClearBounds(cs);
    SymbolTurns(Pow2(cs), r.dict, r.prev, r.first, b.strings, code);
    assert Feed(cs, r, code) == FeedSymbol(Pow2(cs), r.dict, r.prev, r.first, code);
    hide Feed;
  }

  lemma RawText(clear: nat, code: nat)
    requires code < clear
    ensures Expand(clear, [], code) == [code]
  {
  }

  lemma ClearBounds(cs: nat)
    requires 2 <= cs <= 8
    ensures 4 <= Pow2(cs) <= 256
  {
    Pow2Values();
    Pow2Monotone(2, cs);
    Pow2Monotone(cs, 8);
  }

  lemma KnownFits(cs: nat, r: Reader, b: Book, code: nat)
    requires 2 <= cs <= 8 && r.Ok(cs) && SameBook(cs, r, b) && Known(Pow2(cs), b, code)
    ensures code < Pow2(CodeSize(cs, r.Size()))
  {
    CodeFits(cs, r.Size());
    Pow2Values();
    ClearBounds(cs);
    hide CodeSize, Expand, Pow2;
  }

  /** Every code sequence that has a meaning fits the widths of the reader, which gives exactly its pixels. */
  lemma {:induction false} TextbookReads(cs: nat, codes: seq<nat>)
    requires 2 <= cs <= 8 && TurnAll(Pow2(cs), codes).0
    ensures Fits(cs, codes) && FeedAll(cs, codes).1 == TurnAll(Pow2(cs), codes).2
    ensures SameBook(cs, FeedAll(cs, codes).0, TurnAll(Pow2(cs), codes).1)
  {
    if codes != [] {
      var front := codes[..|codes| - 1];
      TextbookReads(cs, front);
      hide CodeSize, Pow2, Feed, Turn, Known, SameBook;
      FeedTurns(cs, FeedAll(cs, front).0, TurnAll(Pow2(cs), front).1, codes[|codes| - 1]);
    }
  }

  // ----- what a writer writes -----

  /** Every code of the sequence has a meaning; so none is End. */
  predicate Meant(cs: nat, codes: seq<nat>) { TurnAll(Pow2(cs), codes).0 }

  lemma NothingMeant(cs: nat)
    ensures Meant(cs, [])
  {
  }

  lemma MeantMore(cs: nat, codes: seq<nat>, code: nat)
    requires 2 <= cs <= 8 && Meant(cs, codes) && Fits(cs, codes)
    requires var r := FeedAll(cs, codes).0;
             code == Pow2(cs) || (r.Fresh? && code < Pow2(cs)) ||
             (r.Running? && code != Pow2(cs) + 1 && code <= Pow2(cs) + 2 + |r.dict| && code < TABLE_SIZE)
    ensures Meant(cs, codes + [code])
  {
    TextbookReads(cs, codes);
    assert (codes + [code])[..|codes|] == codes;
    hide Pow2, FeedAll, Turn;
  }

  lemma {:induction false} NoEndMeant(cs: nat, codes: seq<nat>)
    requires Meant(cs, codes)
    ensures NoEnd(cs, codes)
  {
    if codes != [] {
      var front, code := codes[..|codes| - 1], codes[|codes| - 1];
      NoEndMeant(cs, front);
      NoEndAppend(cs, front, code);
      assert codes == front + [code];
    }
  }

  // ----- widths -----

  /** The width of the next code is the least, above the minimum code size, in which the number of the next string
      fits; at most twelve. */
  lemma {:induction false} WidthIsLeast(cs: nat, n: nat)
    requires 2 <= cs < MAX_BITS
    ensures var w := CodeSize(cs, n);
            cs < w <= 12 && (w < 12 ==> Pow2(cs) + 2 + n < Pow2(w)) && (w > cs + 1 ==> Pow2(w - 1) <= Pow2(cs) + 2 + n)
  {
    hide Pow2;
    CodeFits(cs, n);
    if n > 0 {
      WidthIsLeast(cs, n - 1);
    }
  }

  // ----- bit order -----

  /** Bit i of a code is its i-th bit in the stream: the low-order bit comes first. */
  lemma {:induction false} BitAt(v: nat, w: nat, i: nat)
    requires i < w
    ensures Bits(v, w)[i] == (v / Pow2(i) % 2 == 1)
  {
    if i > 0 {
      BitAt(v / 2, w - 1, i - 1);
      HalfOf(v, Pow2(i - 1));
    }
  }

  lemma HalfOf(v: nat, p: nat)
    requires p > 0
    ensures v / 2 / p == v / (2 * p)
  {
    var q := v / (2 * p);
    var rest := v % (2 * p);
    assert v == 2 * p * q + rest;
    assert v / 2 == p * q + rest / 2;
    assert rest / 2 < p;
    DividesOnce(p, q, rest / 2, v / 2);
  }

  lemma DividesOnce(p: nat, q: nat, r: nat, v: nat)
    requires r < p && v == p * q + r
    ensures v / p == q
  {
    var d := v / p;
    assert v == p * d + v % p;
    assert p * (q - d) == p * q - p * d;
    Multiple(p, q - d);
  }

  lemma Multiple(p: int, k: int)
    requires p > 0
    ensures k >= 1 ==> p * k >= p
    ensures k <= -1 ==> p * k <= -p
  {
    if k >= 1 {
      assert p * k == p + p * (k - 1);
    } else if k <= -1 {
      assert p * k == -p + p * (k + 1);
    }
  }

  /** And each byte of the data is filled from its low-order bit on. */
  lemma {:induction false} ByteBitAt(s: seq<byte>, i: nat)
    requires i < 8 * |s|
    ensures ByteBits(s)[i] == ((s[i / 8] as nat) / Pow2(i % 8) % 2 == 1)
  {
    if i < 8 {
      BitAt(s[0], 8, i);
    } else {
      ByteBitAt(s[1..], i - 8);
      assert (i - 8) / 8 == i / 8 - 1 && (i - 8) % 8 == i % 8;
    }
  }
}
