/** Writing a page out as HTML text, in all the ways the tokenizer allows for, and tokenizing it again. */
module HtmlPrint {
  import opened BitStrings
  import opened Options
  import opened HtmlRepair
  import opened HtmlTokens

  // ----- what is written -----

  /** A character of text: itself, a numeric reference with leading zeros, a named reference, or markup that is none. A
      reference may be closed by a semicolon or a space. */
  datatype Glyph =
    | Raw(b: byte)
    | ByNumber(value: nat, zeros: nat, close: seq<byte>)
    | ByName(name: seq<byte>, close: seq<byte>)
    | Odd(bytes: seq<byte>)

  /** An attribute: what stands before it, its name, and its value if it has one, with what stands around the equals
      sign. */
  datatype Attr = Attr(before: seq<byte>, name: seq<byte>, gap: seq<byte>, lead: seq<byte>, value: seq<byte>)

  /** One comment of a comment declaration, and what stands behind it. */
  datatype Remark = Remark(text: seq<byte>, after: seq<byte>)

  datatype Piece =
    | PText(text: seq<Glyph>)
    | PStart(name: seq<byte>, attributes: seq<Attr>, end: seq<byte>)
    | PEnd(name: seq<byte>, end: seq<byte>)
    | PComment(remarks: seq<Remark>)
    | PNothing

  // ----- text -----

  function DecimalDigit(d: nat): byte
    requires d < 10
  {
    48 + d
  }

  function DecimalOf(n: nat): (s: seq<byte>)
    ensures s != []
  {
    if n < 10 then [DecimalDigit(n)] else DecimalOf(n / 10) + [DecimalDigit(n % 10)]
  }

  function Zeros(n: nat): (s: seq<byte>)
    ensures |s| == n
  {
    seq(n, _ => 48)
  }

  /** The names of the characters that have one. */
  const ENTITIES: map<string, byte> :=
    map["copy" := 169, "reg" := 174, "amp" := 38, "gt" := 62, "lt" := 60, "quot" := 34, "nbsp" := 160]

  const UNKNOWN: byte := 63

  function Meaning(g: Glyph): (s: seq<byte>) {
    match g
    case Raw(b) => [b]
    case ByNumber(value, _, _) => [if value < 256 then value else UNKNOWN]
    case ByName(name, _) => [if Str(name) in ENTITIES then ENTITIES[Str(name)] else UNKNOWN]
    case Odd(bytes) => bytes
  }

  function WriteGlyph(g: Glyph): seq<byte> {
    match g
    case Raw(b) => [b]
    case ByNumber(value, zeros, close) => [AMP, HASH] + (Zeros(zeros) + DecimalOf(value) + close)
    case ByName(name, close) => [AMP] + (name + close)
    case Odd(bytes) => bytes
  }

  predicate IsName(name: seq<byte>) {
    name != [] && IsLetter(name[0]) && forall b <- name :: IsNameByte(b)
  }

  predicate Closes(b: byte) { b == SEMICOLON || IsSpace(b) }

  /** Either closed, or followed by a byte that is not part of it and would not close it. */
  predicate CloseOk(close: seq<byte>, part: byte -> bool, q: seq<byte>) {
    if close == [] then q == [] || (!part(q[0]) && !Closes(q[0])) else |close| == 1 && Closes(close[0]) && !part(close[0])
  }

  /** The beginnings of markup that turn out to be text. */
  predicate IsOdd(s: seq<byte>) {
    || (|s| == 2 && s[0] == AMP && s[1] != HASH && !IsLetter(s[1]))
    || (|s| == 3 && s[0] == AMP && s[1] == HASH && !IsDigit(s[2]))
    || (|s| == 2 && s[0] == LESS && s[1] != BANG && s[1] != SLASH && !IsLetter(s[1]))
    || (|s| == 3 && s[0] == LESS && s[1] == SLASH && !IsLetter(s[2]))
    || (|s| == 3 && s[0] == LESS && s[1] == BANG && s[2] != GREATER && s[2] != DASH)
    || (|s| == 4 && s[0] == LESS && s[1] == BANG && s[2] == DASH && s[3] != DASH)
  }

  /** A proper character, with these bytes behind it. */
  predicate GlyphOk(g: Glyph, q: seq<byte>) {
    match g
    case Raw(b) => IsPlain(b)
    case ByNumber(value, _, close) => value <= LARGEST && CloseOk(close, IsDigit, q)
    case ByName(name, close) => IsName(name) && CloseOk(close, IsNameByte, q)
    case Odd(bytes) => IsOdd(bytes)
  }

  function WriteText(gs: seq<Glyph>): seq<byte> {
    if gs == [] then [] else WriteGlyph(gs[0]) + WriteText(gs[1..])
  }

  function TextOf(gs: seq<Glyph>): seq<byte> {
    if gs == [] then [] else Meaning(gs[0]) + TextOf(gs[1..])
  }

  predicate TextOk(gs: seq<Glyph>) {
    gs == [] || (GlyphOk(gs[0], WriteText(gs[1..])) && TextOk(gs[1..]))
  }

  // ----- tags -----

  predicate IsWord(v: seq<byte>) { v != [] && forall b <- v :: IsNameByte(b) }

  predicate IsLiteral(v: seq<byte>) {
    |v| >= 2 && IsQuote(v[0]) && v[|v| - 1] == v[0] && forall b <- v[1..|v| - 1] :: NotDelimiter(v[0])(b)
  }

  /** What may stand between attributes: anything but letters and the closing bracket, as long as it neither continues
      a name nor gives a value. */
  predicate IsGap(g: seq<byte>) {
    && g != [] && !IsNameByte(g[0]) && (forall b <- g :: IsNoAttribute(b))
    && (Skip(g, IsSpace) == [] || Skip(g, IsSpace)[0] != EQUALS)
  }

  /** A name with nothing, a word, or a literal in quotes it does not contain. Spaces may stand before the equals sign,
      and anything that starts no value behind it. */
  predicate IsAttr(a: Attr) {
    && IsGap(a.before) && IsName(a.name) && (a.value == [] || IsWord(a.value) || IsLiteral(a.value))
    && (forall b <- a.gap :: IsSpace(b)) && (forall b <- a.lead :: IsNoValue(b))
  }

  predicate IsAttrs(s: seq<Attr>) { forall i :: 0 <= i < |s| ==> IsAttr(s[i]) }

  function WriteValue(a: Attr): seq<byte> {
    if a.value == [] then [] else a.gap + ([EQUALS] + (a.lead + a.value))
  }

  function WriteAttrs(s: seq<Attr>, end: seq<byte>): seq<byte> {
    if s == [] then end + [GREATER] else s[0].before + (s[0].name + (WriteValue(s[0]) + WriteAttrs(s[1..], end)))
  }

  function Names(s: seq<Attr>): seq<seq<byte>> { if s == [] then [] else [s[0].name] + Names(s[1..]) }

  function Values(s: seq<Attr>): (v: seq<seq<byte>>)
    ensures |v| == |Names(s)|
  {
    if s == [] then [] else [s[0].value] + Values(s[1..])
  }

  // ----- comments -----

  /** No two dashes together, and none at the end. */
  predicate IsRemark(c: seq<byte>) {
    (forall i :: 0 <= i < |c| - 1 ==> !(c[i] == DASH && c[i + 1] == DASH)) && (c == [] || c[|c| - 1] != DASH)
  }

  predicate IsFiller(s: seq<byte>) { forall b <- s :: b != DASH && b != GREATER }

  predicate AreRemarks(s: seq<Remark>) { forall i :: 0 <= i < |s| ==> IsRemark(s[i].text) && IsFiller(s[i].after) }

  function WriteRemarks(s: seq<Remark>): seq<byte> {
    if s == [] then [GREATER] else [DASH, DASH] + (s[0].text + ([DASH, DASH] + (s[0].after + WriteRemarks(s[1..]))))
  }

  // ----- pages -----

  predicate IsPiece(p: Piece) {
    match p
    case PText(text) => text != [] && TextOk(text)
    case PStart(name, attributes, end) => IsName(name) && IsAttrs(attributes) && (end == [] || IsGap(end))
    case PEnd(name, end) => IsName(name) && (end == [] || !IsNameByte(end[0])) && forall b <- end :: b != GREATER
    case PComment(remarks) => remarks != [] && AreRemarks(remarks)
    case PNothing => true
  }

  /** Proper pieces, no two texts in a row. */
  predicate Neat(ps: seq<Piece>) {
    (forall i :: 0 <= i < |ps| ==> IsPiece(ps[i])) && forall i :: 0 <= i < |ps| - 1 ==> !(ps[i].PText? && ps[i + 1].PText?)
  }

  function Write(p: Piece): seq<byte> {
    match p
    case PText(text) => WriteText(text)
    case PStart(name, attributes, end) => [LESS] + (name + WriteAttrs(attributes, end))
    case PEnd(name, end) => [LESS, SLASH] + (name + (end + [GREATER]))
    case PComment(remarks) => [LESS, BANG] + WriteRemarks(remarks)
    case PNothing => [LESS, BANG, GREATER]
  }

  function WriteAll(ps: seq<Piece>): seq<byte> {
    if ps == [] then [] else Write(ps[0]) + WriteAll(ps[1..])
  }

  /** What a piece means: text, a tag, or nothing. */
  function TokensOf(p: Piece): seq<Token> {
    match p
    case PText(text) => [Words(TextOf(text))]
    case PStart(name, attributes, _) => [Open(Str(name), Zip(Tag(Names(attributes), Values(attributes))))]
    case PEnd(name, _) => [Close(Str(name))]
    case PComment(_) => []
    case PNothing => []
  }

  function PageTokensOf(ps: seq<Piece>): seq<Token> {
    if ps == [] then [] else TokensOf(ps[0]) + PageTokensOf(ps[1..])
  }

  lemma Associate(a: seq<byte>, b: seq<byte>, c: seq<byte>)
    ensures a + (b + c) == a + b + c
  {
  }

  // ----- names, words, literals -----

  lemma ReadsRun(v: seq<byte>, rest: seq<byte>)
    requires v != [] && (forall b <- v :: IsNameByte(b)) && rest != [] && !IsNameByte(rest[0])
    ensures ReadName(v[0], v[1..] + rest) == Some((v, rest))
  {
    assert forall b <- v[1..] :: b in v;
    SpanOf(v[1..], rest, IsNameByte);
    var t := v[1..] + rest;
    assert t[..|v| - 1] == v[1..] && t[|v| - 1..] == rest;
    assert [v[0]] + v[1..] == v;
  }

  lemma ReadsLiteral(v: seq<byte>, rest: seq<byte>)
    requires IsLiteral(v)
    ensures ReadLiteral(v[0], v[1..] + rest) == Some((v, rest))
  {
    var q, body := v[0], v[1..|v| - 1];
    var t := v[1..] + rest;
    assert t == body + ([q] + rest);
    SpanOf(body, [q] + rest, NotDelimiter(q));
    assert t[..|body|] == body && t[|body| + 1..] == rest;
    assert [q] + body + [q] == v;
  }

  lemma Classes(b: byte)
    ensures IsNameByte(b) ==> !IsQuote(b) && !IsSpace(b) && b != GREATER && b != EQUALS && b != SEMICOLON
    ensures IsQuote(b) ==> !IsSpace(b) && b != GREATER
    ensures IsLetter(b) ==> IsNameByte(b) && b != SLASH && b != BANG && b != HASH && !IsNoAttribute(b)
    ensures IsSpace(b) ==> !IsNameByte(b) && b != EQUALS && b != GREATER
    ensures IsDigit(b) ==> IsNameByte(b)
  {
  }

  lemma SkipsRun(a: seq<byte>, r: seq<byte>, p: byte -> bool)
    requires (forall b <- a :: p(b)) && (r == [] || !p(r[0]))
    ensures Skip(a + r, p) == r
  {
    SpanOf(a, r, p);
  }

  // ----- values -----

  lemma ValueStep(r: seq<byte>)
    requires r != [] && (IsQuote(r[0]) || IsNameByte(r[0]))
    ensures ReadValue(r) == if IsQuote(r[0]) then ReadLiteral(r[0], r[1..]) else ReadName(r[0], r[1..])
  {
    Classes(r[0]);
    assert [] + r == r;
    SkipsRun([], r, IsSpace);
    hide Skip, ReadName, ReadLiteral;
  }

  lemma ReadsValue(v: seq<byte>, rest: seq<byte>)
    requires (IsWord(v) || IsLiteral(v)) && rest != [] && !IsNameByte(rest[0])
    ensures ReadValue(v + rest) == Some((v, rest))
  {
    hide ReadValue, ReadName, ReadLiteral, IsNameByte, IsQuote;
    var r := v + rest;
    assert r[0] == v[0] && r[1..] == v[1..] + rest;
    Classes(v[0]);
    if IsWord(v) {
      assert v[0] in v;
      ValueStep(r);
      ReadsRun(v, rest);
    } else {
      ValueStep(r);
      ReadsLiteral(v, rest);
    }
  }

  lemma {:induction false} SpanBoth(a: seq<byte>, r: seq<byte>, p: byte -> bool)
    requires r == [] || !p(r[0])
    ensures Span(a + r, p) == Span(a, p)
  {
    if a == [] {
      assert a + r == r;
    } else {
      assert (a + r)[1..] == a[1..] + r;
      if p(a[0]) { SpanBoth(a[1..], r, p); }
    }
  }

  lemma SkipInside(a: seq<byte>, r: seq<byte>, p: byte -> bool)
    requires r == [] || !p(r[0])
    ensures Skip(a + r, p) == Skip(a, p) + r
    ensures Skip(a, p) != [] ==> !p(Skip(a, p)[0]) && forall b <- Skip(a, p) :: b in a
  {
    SpanBoth(a, r, p);
  }

  lemma SpacesThenValue(r: seq<byte>, q: seq<byte>)
    requires Skip(r, IsSpace) == q && Skip(q, IsSpace) == q
    ensures ReadValue(r) == ReadValue(q)
  {
    hide Skip, ReadName, ReadLiteral, IsNameByte, IsQuote;
  }

  lemma JunkThenValue(r: seq<byte>, r1: seq<byte>, q: seq<byte>)
    requires Skip(r, IsSpace) == r1 && r1 != [] && !IsQuote(r1[0]) && !IsNameByte(r1[0])
    requires Skip(r1[1..], IsNoValue) == q && q != []
    ensures ReadValue(r) == ReadValue(q)
  {
    hide Skip, ReadName, ReadLiteral, IsNameByte, IsQuote;
  }

  lemma ValueFirst(q: seq<byte>)
    requires q != [] && !IsNoValue(q[0])
    ensures !IsSpace(q[0]) && Skip(q, IsSpace) == q
  {
    Classes(q[0]);
    assert [] + q == q;
    SkipsRun([], q, IsSpace);
  }

  /** Whatever starts no value is passed over. */
  lemma LeadSkipped(lead: seq<byte>, q: seq<byte>)
    requires (forall b <- lead :: IsNoValue(b)) && q != [] && !IsNoValue(q[0])
    ensures ReadValue(lead + q) == ReadValue(q)
  {
    hide Skip, ReadValue, IsSpace, IsNoValue;
    var s := Skip(lead, IsSpace);
    ValueFirst(q);
    SkipInside(lead, q, IsSpace);
    if s == [] {
      assert s + q == q;
      SpacesThenValue(lead + q, q);
    } else {
      var r1 := s + q;
      assert r1[0] == s[0] && r1[1..] == s[1..] + q;
      NoValueMeans(s[0]);
      TailNoValue(lead, s);
      SkipsRun(s[1..], q, IsNoValue);
      JunkThenValue(lead + q, r1, q);
    }
  }

  lemma NoValueMeans(b: byte)
    requires IsNoValue(b)
    ensures !IsQuote(b) && !IsNameByte(b)
  {
  }

  lemma TailNoValue(lead: seq<byte>, s: seq<byte>)
    requires (forall b <- lead :: IsNoValue(b)) && s != [] && forall b <- s :: b in lead
    ensures IsNoValue(s[0]) && forall b <- s[1..] :: IsNoValue(b)
  {
    assert forall b <- s[1..] :: b in s;
  }

  // ----- attributes -----

  lemma JunkThenAttribute(c: byte, r: seq<byte>, q: seq<byte>, tag: Tag)
    requires IsNoAttribute(c) && Skip(r, IsNoAttribute) == q && q != [] && (IsLetter(q[0]) || q[0] == GREATER)
    ensures ReadAttributes(c, r, tag) == ReadAttributes(q[0], q[1..], tag)
  {
    Classes(q[0]);
    hide Skip, IsLetter, ReadAttribute;
  }

  lemma TailNoAttribute(g: seq<byte>, t: seq<byte>)
    requires (forall b <- g :: IsNoAttribute(b)) && t != [] && forall b <- t :: b in g
    ensures IsNoAttribute(t[0]) && forall b <- t[1..] :: IsNoAttribute(b)
  {
    assert forall b <- t[1..] :: b in t;
  }

  lemma AttributeFirst(q: seq<byte>)
    requires q != [] && (IsLetter(q[0]) || q[0] == GREATER)
    ensures !IsSpace(q[0]) && !IsNoAttribute(q[0])
  {
    Classes(q[0]);
  }

  /** Whatever starts no attribute is passed over. */
  lemma GapSkipped(g: seq<byte>, q: seq<byte>, tag: Tag)
    requires (forall b <- g :: IsNoAttribute(b)) && q != [] && (IsLetter(q[0]) || q[0] == GREATER)
    ensures var s := Skip(g + q, IsSpace);
            s != [] && ReadAttributes(s[0], s[1..], tag) == ReadAttributes(q[0], q[1..], tag)
  {
    hide Skip, IsSpace, IsLetter, IsNoAttribute, ReadAttributes;
    AttributeFirst(q);
    var t := Skip(g, IsSpace);
    SkipInside(g, q, IsSpace);
    if t == [] {
      assert t + q == q;
    } else {
      var s := t + q;
      assert s[0] == t[0] && s[1..] == t[1..] + q;
      TailNoAttribute(g, t);
      SkipsRun(t[1..], q, IsNoAttribute);
      JunkThenAttribute(s[0], s[1..], q, tag);
    }
  }

  lemma WriteStarts(s: seq<Attr>, end: seq<byte>, rest: seq<byte>)
    requires IsAttrs(s) && (end == [] || IsGap(end))
    ensures var p := WriteAttrs(s, end) + rest;
            p != [] && !IsNameByte(p[0]) && Skip(p, IsSpace) != [] && Skip(p, IsSpace)[0] != EQUALS
  {
    var p := WriteAttrs(s, end) + rest;
    if s == [] {
      assert p == end + ([GREATER] + rest);
      SkipInside(end, [GREATER] + rest, IsSpace);
    } else {
      var a := s[0];
      var q := a.name + (WriteValue(a) + WriteAttrs(s[1..], end)) + rest;
      assert p == a.before + q by {
        Associate(a.before, a.name + (WriteValue(a) + WriteAttrs(s[1..], end)), rest);
      }
      assert q[0] == a.name[0];
      Classes(a.name[0]);
      SkipInside(a.before, q, IsSpace);
      hide Skip, IsNameByte, IsSpace;
    }
  }

  lemma BareStep(c: byte, r: seq<byte>, name: seq<byte>, r0: seq<byte>, r1: seq<byte>, tag: Tag)
    requires IsLetter(c) && ReadName(c, r) == Some((name, r0)) && Skip(r0, IsSpace) == r1
    requires r1 != [] && r1[0] != EQUALS && |r1| <= |r|
    ensures ReadAttributes(c, r, tag) == ReadAttributes(r1[0], r1[1..], With(tag, name, []))
  {
    Classes(c);
    hide ReadName, Skip, IsLetter, IsNameByte;
  }

  lemma ValuedStep(c: byte, r: seq<byte>, name: seq<byte>, r0: seq<byte>, r1: seq<byte>, value: seq<byte>,
                   r2: seq<byte>, r3: seq<byte>, tag: Tag)
    requires IsLetter(c) && ReadName(c, r) == Some((name, r0)) && Skip(r0, IsSpace) == [EQUALS] + r1
    requires ReadValue(r1) == Some((value, r2)) && Skip(r2, IsSpace) == r3 && r3 != []
    ensures ReadAttributes(c, r, tag) == ReadAttributes(r3[0], r3[1..], With(tag, name, value))
  {
    Classes(c);
    assert ([EQUALS] + r1)[1..] == r1;
    hide ReadName, ReadValue, Skip, IsLetter, IsNameByte;
  }

  lemma ValueBehind(a: Attr, more: seq<byte>)
    requires IsAttr(a) && a.value != [] && more != [] && !IsNameByte(more[0])
    ensures var r0 := WriteValue(a) + more;
            && r0 != [] && !IsNameByte(r0[0])
            && Skip(r0, IsSpace) == [EQUALS] + (a.lead + (a.value + more))
            && ReadValue(a.lead + (a.value + more)) == Some((a.value, more))
  {
    hide Skip, ReadValue, IsNameByte, IsSpace, IsNoValue, IsQuote;
    var q := a.value + more;
    var r1 := a.lead + q;
    Regroup(a.gap, [EQUALS], a.lead, a.value, more);
    GapFirst(a.gap, r1);
    SkipsRun(a.gap, [EQUALS] + r1, IsSpace);
    ValueBegins(a.value, more);
    ReadsValue(a.value, more);
    LeadSkipped(a.lead, q);
  }

  lemma GapFirst(gap: seq<byte>, r1: seq<byte>)
    requires forall b <- gap :: IsSpace(b)
    ensures var r := gap + ([EQUALS] + r1); r != [] && !IsNameByte(r[0]) && !IsSpace(EQUALS)
  {
    if gap != [] {
      Classes(gap[0]);
      assert gap[0] in gap;
    }
  }

  lemma ValueBegins(v: seq<byte>, more: seq<byte>)
    requires IsWord(v) || IsLiteral(v)
    ensures v + more != [] && !IsNoValue((v + more)[0])
  {
    assert (v + more)[0] == v[0] && v[0] in v;
  }

  lemma ReadsName(a: Attr, r0: seq<byte>)
    requires IsAttr(a) && r0 != [] && !IsNameByte(r0[0])
    ensures var q := a.name + r0;
            q != [] && IsLetter(q[0]) && ReadName(q[0], q[1..]) == Some((a.name, r0))
  {
    var q := a.name + r0;
    assert q[0] == a.name[0] && q[1..] == a.name[1..] + r0;
    ReadsRun(a.name, r0);
  }

  /** One attribute is read and the reader stands before the next. */
  lemma OneAttribute(a: Attr, more: seq<byte>, tag: Tag)
    requires IsAttr(a) && more != [] && !IsNameByte(more[0])
    requires Skip(more, IsSpace) != [] && Skip(more, IsSpace)[0] != EQUALS
    ensures var q, s := a.name + (WriteValue(a) + more), Skip(more, IsSpace);
            q != [] && IsLetter(q[0]) &&
            ReadAttributes(q[0], q[1..], tag) == ReadAttributes(s[0], s[1..], With(tag, a.name, a.value))
  {
    var r0, s := WriteValue(a) + more, Skip(more, IsSpace);
    var q := a.name + r0;
    if a.value == [] {
      assert r0 == more;
      ReadsName(a, r0);
      hide Skip, ReadName, ReadAttributes;
      BareStep(q[0], q[1..], a.name, r0, s, tag);
    } else {
      ValueBehind(a, more);
      ReadsName(a, r0);
      hide Skip, ReadName, ReadAttributes, ReadValue, WriteValue;
      ValuedStep(q[0], q[1..], a.name, r0, a.lead + (a.value + more), a.value, more, s, tag);
    }
  }

  function Added(tag: Tag, s: seq<Attr>): Tag { Tag(tag.names + Names(s), tag.values + Values(s)) }

  lemma AddedOne(tag: Tag, s: seq<Attr>)
    requires s != []
    ensures Added(With(tag, s[0].name, s[0].value), s[1..]) == Added(tag, s)
  {
    assert tag.names + [s[0].name] + Names(s[1..]) == tag.names + ([s[0].name] + Names(s[1..]));
    assert tag.values + [s[0].value] + Values(s[1..]) == tag.values + ([s[0].value] + Values(s[1..]));
  }

  /** Attributes are read back as they were written, whatever stands between them. */
  lemma {:induction false} ReadsAttributes(s: seq<Attr>, end: seq<byte>, rest: seq<byte>, tag: Tag)
    requires IsAttrs(s) && (end == [] || IsGap(end))
    ensures var p := Skip(WriteAttrs(s, end) + rest, IsSpace);
            p != [] && ReadAttributes(p[0], p[1..], tag) == Some((Added(tag, s), rest))
    decreases |s|
  {
    if s == [] {
      assert WriteAttrs(s, end) + rest == end + ([GREATER] + rest);
      GapSkipped(end, [GREATER] + rest, tag);
      assert ([GREATER] + rest)[1..] == rest;
      assert Added(tag, s) == tag;
      hide Skip;
    } else {
      var a, more := s[0], WriteAttrs(s[1..], end) + rest;
      var tag' := With(tag, a.name, a.value);
      WriteStarts(s[1..], end, rest);
      ReadsAttributes(s[1..], end, rest, tag');
      AddedOne(tag, s);
      assert WriteAttrs(s, end) + rest == a.before + (a.name + (WriteValue(a) + more)) by {
        Regroup(a.before, a.name, WriteValue(a), WriteAttrs(s[1..], end), rest);
      }
      hide Skip, ReadAttributes, WriteAttrs, WriteValue, IsNameByte;
      OneAttribute(a, more, tag);
      GapSkipped(a.before, a.name + (WriteValue(a) + more), tag);
    }
  }

  lemma Regroup(a: seq<byte>, b: seq<byte>, c: seq<byte>, d: seq<byte>, e: seq<byte>)
    ensures a + (b + (c + d)) + e == a + (b + (c + (d + e)))
  {
  }

  // ----- whole tags -----

  lemma ScansLetter(r: seq<byte>)
    requires r != [] && IsLetter(r[0])
    ensures ScanToken([LESS] + r) ==
            var t := ReadStartTag(r[0], r[1..]);
            if t.None? then Over else Next(Open(Str(t.value.0), Zip(t.value.1)), t.value.2)
  {
    var all := [LESS] + r;
    assert all[1..] == r && all[1] == r[0];
    hide ReadStartTag, Str, Zip;
  }

  lemma ScansSlash(r: seq<byte>)
    requires r != [] && IsLetter(r[0])
    ensures ScanToken([LESS, SLASH] + r) ==
            var t := ReadEndTag(r[0], r[1..]);
            if t.None? then Over else Next(Close(Str(t.value.0)), t.value.1)
  {
    var all := [LESS, SLASH] + r;
    assert all[1..] == [SLASH] + r && all[1..][1] == r[0] && all[1..][2..] == r[1..];
    hide ReadEndTag, Str;
  }

  lemma ReadsStartTag(name: seq<byte>, s: seq<Attr>, end: seq<byte>, rest: seq<byte>)
    requires IsName(name) && IsAttrs(s) && (end == [] || IsGap(end))
    ensures ReadStartTag(name[0], name[1..] + (WriteAttrs(s, end) + rest)) == Some((name, Tag(Names(s), Values(s)), rest))
  {
    hide WriteAttrs, ReadName, Skip, ReadAttributes, IsNameByte;
    var after := WriteAttrs(s, end) + rest;
    WriteStarts(s, end, rest);
    ReadsRun(name, after);
    ReadsAttributes(s, end, rest, Tag([], []));
    assert Added(Tag([], []), s) == Tag(Names(s), Values(s));
  }

  lemma ReadsStart(name: seq<byte>, s: seq<Attr>, end: seq<byte>, rest: seq<byte>)
    requires IsName(name) && IsAttrs(s) && (end == [] || IsGap(end))
    ensures ScanToken([LESS] + (name + WriteAttrs(s, end)) + rest) ==
            Next(Open(Str(name), Zip(Tag(Names(s), Values(s)))), rest)
  {
    hide ScanToken, ReadStartTag, WriteAttrs, Str, Zip;
    var r := name + (WriteAttrs(s, end) + rest);
    Associate([LESS], name + WriteAttrs(s, end), rest);
    Associate(name, WriteAttrs(s, end), rest);
    assert r[0] == name[0] && r[1..] == name[1..] + (WriteAttrs(s, end) + rest);
    ReadsStartTag(name, s, end, rest);
    ScansLetter(r);
  }

  lemma ReadsEndTag(name: seq<byte>, end: seq<byte>, rest: seq<byte>)
    requires IsName(name) && (end == [] || !IsNameByte(end[0])) && forall b <- end :: b != GREATER
    ensures ReadEndTag(name[0], name[1..] + (end + ([GREATER] + rest))) == Some((name, rest))
  {
    var after := [GREATER] + rest;
    assert (end + after)[0] == if end == [] then GREATER else end[0];
    ReadsRun(name, end + after);
    SkipsRun(end, after, IsNotClose);
    assert after[1..] == rest;
    hide ReadName, Skip;
  }

  lemma ReadsEnd(name: seq<byte>, end: seq<byte>, rest: seq<byte>)
    requires IsName(name) && (end == [] || !IsNameByte(end[0])) && forall b <- end :: b != GREATER
    ensures ScanToken([LESS, SLASH] + (name + (end + [GREATER])) + rest) == Next(Close(Str(name)), rest)
  {
    hide ScanToken, Str;
    var after := end + ([GREATER] + rest);
    var r := name + after;
    assert [LESS, SLASH] + (name + (end + [GREATER])) + rest == [LESS, SLASH] + r by {
      Regroup([LESS, SLASH], name, end, [GREATER], rest);
    }
    assert r[0] == name[0] && r[1..] == name[1..] + after;
    hide ReadEndTag;
    ReadsEndTag(name, end, rest);
    ScansSlash(r);
  }

  // ----- comments -----

  lemma {:induction false} RemarkRead(c: seq<byte>, q: seq<byte>)
    requires IsRemark(c)
    ensures ReadComment(c + ([DASH, DASH] + q)) == q
    decreases |c|
  {
    var r := c + ([DASH, DASH] + q);
    if c == [] {
      assert r[2..] == q;
    } else if c[0] != DASH {
      assert r[1..] == c[1..] + ([DASH, DASH] + q);
      RemarkRead(c[1..], q);
    } else {
      assert r[1] == c[1] && r[2..] == c[2..] + ([DASH, DASH] + q);
      RemarkRead(c[2..], q);
    }
  }

  lemma {:induction false} FillerSkipped(s: seq<byte>, q: seq<byte>)
    requires IsFiller(s)
    ensures ReadDeclaration(s + q) == ReadDeclaration(q)
  {
    if s == [] {
      assert s + q == q;
    } else {
      assert s[0] in s && (s + q)[1..] == s[1..] + q;
      assert forall b <- s[1..] :: b in s;
      FillerSkipped(s[1..], q);
      hide ReadComment;
    }
  }

  /** The first remark, and what stands behind it. */
  lemma FirstRemark(s: seq<Remark>, rest: seq<byte>)
    requires AreRemarks(s) && s != []
    ensures var r := WriteRemarks(s) + rest;
            |r| >= 2 && r[0] == DASH && r[1] == DASH &&
            ReadDeclaration(ReadComment(r[2..])) == ReadDeclaration(WriteRemarks(s[1..]) + rest)
  {
    var c, after, more := s[0].text, s[0].after, WriteRemarks(s[1..]);
    var r := WriteRemarks(s) + rest;
    var q := after + (more + rest);
    assert r == [DASH, DASH] + (c + ([DASH, DASH] + q)) by {
      SixParts([DASH, DASH], c, [DASH, DASH], after, more, rest);
    }
    hide WriteRemarks, ReadComment, ReadDeclaration;
    assert r[2..] == c + ([DASH, DASH] + q);
    RemarkRead(c, q);
    FillerSkipped(after, more + rest);
  }

  lemma SixParts(a: seq<byte>, b: seq<byte>, c: seq<byte>, d: seq<byte>, e: seq<byte>, f: seq<byte>)
    ensures a + (b + (c + (d + e))) + f == a + (b + (c + (d + (e + f))))
  {
  }

  lemma {:induction false} RemarksRead(s: seq<Remark>, rest: seq<byte>)
    requires AreRemarks(s)
    ensures ReadDeclaration(WriteRemarks(s) + rest) == rest
    decreases |s|
  {
    if s == [] {
      assert ([GREATER] + rest)[1..] == rest;
    } else {
      FirstRemark(s, rest);
      RemarksRead(s[1..], rest);
      hide ReadComment, WriteRemarks;
    }
  }

  /** A comment declaration is passed over, whatever its comments hold. */
  lemma CommentPassed(s: seq<Remark>, rest: seq<byte>)
    requires AreRemarks(s) && s != []
    ensures ScanToken([LESS, BANG] + WriteRemarks(s) + rest) == ScanToken(rest)
  {
    var w := WriteRemarks(s) + rest;
    var r := [LESS, BANG] + w;
    Associate([LESS, BANG], WriteRemarks(s), rest);
    FirstRemark(s, rest);
    RemarksRead(s[1..], rest);
    assert r[2] == w[0] && r[3] == w[1] && r[4..] == w[2..];
    hide ReadComment, ReadDeclaration, WriteRemarks, ScanReference, ScanMarkup, TextAfter;
    OpensComment(r);
  }

  lemma OpensComment(r: seq<byte>)
    requires |r| >= 4 && r[0] == LESS && r[1] == BANG && r[2] == DASH && r[3] == DASH
    ensures ScanToken(r) == ScanToken(ReadDeclaration(ReadComment(r[4..])))
  {
    hide ReadComment, ReadDeclaration, ScanReference, ScanMarkup, TextAfter;
  }

  lemma NothingPassed(rest: seq<byte>)
    ensures ScanToken([LESS, BANG, GREATER] + rest) == ScanToken(rest)
  {
    assert ([LESS, BANG, GREATER] + rest)[3..] == rest;
  }

  // ----- references -----

  lemma {:induction false} NumberOf(z: seq<byte>, v: nat)
    requires Number(z) == 0
    ensures Number(z + DecimalOf(v)) == v
    decreases v
  {
    var d := z + DecimalOf(v);
    if v < 10 {
      assert d[..|d| - 1] == z && d[|d| - 1] == DecimalDigit(v);
    } else {
      NumberOf(z, v / 10);
      assert d[..|d| - 1] == z + DecimalOf(v / 10) && d[|d| - 1] == DecimalDigit(v % 10);
    }
  }

  lemma {:induction false} NumberOfZeros(n: nat)
    ensures Number(Zeros(n)) == 0
  {
    if n > 0 {
      NumberOfZeros(n - 1);
      assert Zeros(n)[..n - 1] == Zeros(n - 1);
    }
  }

  lemma {:induction false} DecimalDigits(n: nat)
    ensures forall b <- DecimalOf(n) :: IsDigit(b)
  {
    if n >= 10 {
      DecimalDigits(n / 10);
    }
  }

  lemma CloseStops(close: seq<byte>, part: byte -> bool, q: seq<byte>)
    requires CloseOk(close, part, q)
    ensures var r := close + q; (r == [] || !part(r[0])) && Closed(r) == q
  {
    if close == [] {
      assert close + q == q;
    } else {
      assert (close + q)[1..] == q;
    }
  }

  lemma ScansDigits(digits: seq<byte>, close: seq<byte>, q: seq<byte>)
    requires digits != [] && (forall b <- digits :: IsDigit(b)) && CloseOk(close, IsDigit, q)
    ensures ScanToken([AMP, HASH] + (digits + close) + q) ==
            if Number(digits) > LARGEST then Failed else TextAfter([NumericByte(Number(digits))], q)
  {
    var all := [AMP, HASH] + (digits + close) + q;
    var tail := digits[1..] + (close + q);
    var r := all[1..];
    assert r[0] == HASH && r[1] == digits[0] && digits[0] in digits && r[2..] == tail;
    CloseStops(close, IsDigit, q);
    assert forall b <- digits[1..] :: b in digits;
    SpanOf(digits[1..], close + q, IsDigit);
    assert tail[..|digits| - 1] == digits[1..] && tail[|digits| - 1..] == close + q;
    assert [digits[0]] + digits[1..] == digits;
    hide Span, Number, TextAfter, Closed, CloseOk;
  }

  lemma ScansNumber(value: nat, zeros: nat, close: seq<byte>, q: seq<byte>)
    requires CloseOk(close, IsDigit, q)
    ensures ScanToken([AMP, HASH] + (Zeros(zeros) + DecimalOf(value) + close) + q) ==
            if value > LARGEST then Failed else TextAfter([if value < 256 then value else UNKNOWN], q)
  {
    NumberOfZeros(zeros);
    NumberOf(Zeros(zeros), value);
    DecimalDigits(value);
    hide CloseOk, DecimalOf, ScanToken, TextAfter, Number;
    var digits := Zeros(zeros) + DecimalOf(value);
    ScansDigits(digits, close, q);
  }

  lemma ScansName(name: seq<byte>, close: seq<byte>, q: seq<byte>)
    requires IsName(name) && CloseOk(close, IsNameByte, q)
    ensures ScanToken([AMP] + (name + close) + q) == TextAfter([NamedByte(name)], q)
  {
    var all := [AMP] + (name + close) + q;
    var tail := name[1..] + (close + q);
    var r := all[1..];
    assert r[0] == name[0] && r[1..] == tail;
    CloseStops(close, IsNameByte, q);
    assert forall b <- name[1..] :: b in name;
    SpanOf(name[1..], close + q, IsNameByte);
    Classes(name[0]);
    assert tail[..|name| - 1] == name[1..] && tail[|name| - 1..] == close + q;
    assert [name[0]] + name[1..] == name;
    hide Span, NamedByte, TextAfter, Closed, IsLetter, IsNameByte, CloseOk;
  }

  lemma Spells(name: seq<byte>, word: string, bytes: seq<byte>)
    requires |word| == |bytes| && forall i :: 0 <= i < |word| ==> bytes[i] as char == word[i]
    ensures Str(name) == word <==> name == bytes
  {
    if Str(name) == word {
      assert forall i :: 0 <= i < |name| ==> Str(name)[i] == word[i];
      assert forall i :: 0 <= i < |name| ==> name[i] as char == bytes[i] as char;
      assert forall i :: 0 <= i < |name| ==> name[i] == bytes[i];
    }
  }

  /** The names the tokenizer knows are the entities, and no others. */
  lemma EntityNames(name: seq<byte>)
    ensures NamedByte(name) == if Str(name) in ENTITIES then ENTITIES[Str(name)] else UNKNOWN
  {
    hide Str;
    Spells(name, "copy", COPY);
    Spells(name, "reg", REG);
    Spells(name, "amp", AMP_NAME);
    Spells(name, "gt", GT);
    Spells(name, "lt", LT);
    Spells(name, "quot", QUOT);
    Spells(name, "nbsp", NBSP);
  }

  lemma ScansOdd(s: seq<byte>, q: seq<byte>)
    requires IsOdd(s)
    ensures ScanToken(s + q) == TextAfter(s, q)
  {
    var r := s + q;
    assert r[0] == s[0] && r[1] == s[1] && r[1..] == s[1..] + q;
    assert |s| >= 3 ==> r[2] == s[2];
    assert |s| == 4 ==> r[3] == s[3];
    assert r[|s|..] == q;
    hide TextAfter, IsLetter, IsDigit;
    if |s| == 2 {
      assert s == [s[0], s[1]] && r[1..][1..] == q;
    } else if |s| == 3 {
      assert s == [s[0], s[1], s[2]] && r[1..][2..] == q;
    } else {
      assert s == [s[0], s[1], s[2], s[3]];
    }
  }

  lemma ScansGlyph(g: Glyph, q: seq<byte>)
    requires GlyphOk(g, q)
    ensures ScanToken(WriteGlyph(g) + q) == TextAfter(Meaning(g), q)
  {
    match g
    case Raw(b) =>
      assert ([b] + q)[1..] == q;
    case ByNumber(value, zeros, close) =>
      ScansNumber(value, zeros, close, q);
    case ByName(name, close) =>
      hide ScanToken, TextAfter, CloseOk, NamedByte, IsName, Str;
      EntityNames(name);
      ScansName(name, close, q);
    case Odd(bytes) =>
      ScansOdd(bytes, q);
  }

  // ----- text -----

  function RunOf(gs: seq<Glyph>): seq<byte> {
    if gs == [] || !gs[0].Raw? then [] else [gs[0].b] + RunOf(gs[1..])
  }

  function AfterRun(gs: seq<Glyph>): (r: seq<Glyph>)
    ensures |r| <= |gs| && (r == [] || !r[0].Raw?)
  {
    if gs == [] || !gs[0].Raw? then gs else AfterRun(gs[1..])
  }

  lemma {:induction false} RunSplit(gs: seq<Glyph>)
    requires TextOk(gs)
    ensures WriteText(gs) == RunOf(gs) + WriteText(AfterRun(gs)) && TextOf(gs) == RunOf(gs) + TextOf(AfterRun(gs))
    ensures TextOk(AfterRun(gs)) && forall b <- RunOf(gs) :: IsPlain(b)
  {
    if gs == [] || !gs[0].Raw? {
      assert [] + WriteText(gs) == WriteText(gs) && [] + TextOf(gs) == TextOf(gs);
    } else {
      RunSplit(gs[1..]);
      hide IsPlain, GlyphOk;
      Associate([gs[0].b], RunOf(gs[1..]), WriteText(AfterRun(gs)));
      Associate([gs[0].b], RunOf(gs[1..]), TextOf(AfterRun(gs)));
      assert IsPlain(gs[0].b) by {
        assert GlyphOk(gs[0], WriteText(gs[1..]));
        RawPlain(gs[0], WriteText(gs[1..]));
      }
    }
  }

  lemma RawPlain(g: Glyph, q: seq<byte>)
    requires g.Raw? && GlyphOk(g, q)
    ensures IsPlain(g.b)
  {
  }

  lemma TextAfterRun(start: seq<byte>, run: seq<byte>, more: seq<byte>)
    requires (forall x <- run :: IsPlain(x)) && (more == [] || !IsPlain(more[0]))
    ensures TextAfter(start, run + more) == Next(Words(start + run), more)
  {
    SpanOf(run, more, IsPlain);
    assert (run + more)[..|run|] == run && (run + more)[|run|..] == more;
  }

  lemma TextStops(gs: seq<Glyph>, rest: seq<byte>)
    requires TextOk(gs) && (gs == [] || !gs[0].Raw?) && (rest == [] || rest[0] == LESS)
    ensures var r := WriteText(gs) + rest; r == [] || !IsPlain(r[0])
  {
    if gs != [] {
      assert WriteGlyph(gs[0]) != [] && !IsPlain(WriteGlyph(gs[0])[0]);
      assert (WriteText(gs) + rest)[0] == WriteGlyph(gs[0])[0];
    } else {
      assert WriteText(gs) + rest == rest;
    }
  }

  lemma GlyphStill(g: Glyph, q: seq<byte>, rest: seq<byte>)
    requires GlyphOk(g, q) && (rest == [] || rest[0] == LESS)
    ensures GlyphOk(g, q + rest)
  {
  }

  /** The first token of a text: one character, and those after it that stand for themselves. */
  lemma ScansChunk(gs: seq<Glyph>, rest: seq<byte>)
    requires gs != [] && TextOk(gs) && (rest == [] || rest[0] == LESS)
    ensures ScanToken(WriteText(gs) + rest) ==
            Next(Words(Meaning(gs[0]) + RunOf(gs[1..])), WriteText(AfterRun(gs[1..])) + rest)
  {
    var tail, run, af := gs[1..], RunOf(gs[1..]), AfterRun(gs[1..]);
    RunSplit(tail);
    TextStops(af, rest);
    GlyphStill(gs[0], WriteText(tail), rest);
    Associate(WriteGlyph(gs[0]), WriteText(tail), rest);
    Associate(run, WriteText(af), rest);
    hide ScanToken, WriteGlyph, Meaning, GlyphOk, TextAfter, RunOf, AfterRun, IsPlain;
    ScansGlyph(gs[0], WriteText(tail) + rest);
    TextAfterRun(Meaning(gs[0]), run, WriteText(af) + rest);
  }

  // ----- the whole page -----

  /** Neighbouring texts joined. */
  function Joined(ts: seq<Token>): seq<Token> {
    if ts == [] then [] else JoinOne(ts[0], Joined(ts[1..]))
  }

  function JoinOne(t: Token, ts: seq<Token>): seq<Token> {
    if t.Words? && ts != [] && ts[0].Words? then [Words(t.text + ts[0].text)] + ts[1..] else [t] + ts
  }

  lemma JoinTwo(a: seq<byte>, b: seq<byte>, ts: seq<Token>)
    ensures JoinOne(Words(a), JoinOne(Words(b), ts)) == JoinOne(Words(a + b), ts)
  {
    if ts != [] && ts[0].Words? {
      assert a + (b + ts[0].text) == a + b + ts[0].text;
    }
  }

  lemma TokensNext(r: seq<byte>, t: Token, rest: seq<byte>, us: seq<Token>)
    requires ScanToken(r) == Next(t, rest) && Tokens(rest) == Some(us)
    ensures Tokens(r) == Some([t] + us) && Joined([t] + us) == JoinOne(t, Joined(us))
  {
    assert ([t] + us)[1..] == us;
    hide ScanToken;
  }

  lemma {:induction false} TextReads(gs: seq<Glyph>, rest: seq<byte>, us: seq<Token>) returns (ws: seq<Token>)
    requires gs != [] && TextOk(gs) && (rest == [] || rest[0] == LESS) && Tokens(rest) == Some(us)
    ensures Tokens(WriteText(gs) + rest) == Some(ws) && Joined(ws) == JoinOne(Words(TextOf(gs)), Joined(us))
    decreases |gs|
  {
    var run, af := RunOf(gs[1..]), AfterRun(gs[1..]);
    var first := Meaning(gs[0]) + run;
    RunSplit(gs[1..]);
    ScansChunk(gs, rest);
    assert TextOf(gs) == first + TextOf(af) by {
      Associate(Meaning(gs[0]), run, TextOf(af));
    }
    if af == [] {
      assert WriteText(af) + rest == rest && first + TextOf(af) == first;
      hide ScanToken, Tokens, WriteText, Joined, TextOf;
      TokensNext(WriteText(gs) + rest, Words(first), rest, us);
      ws := [Words(first)] + us;
    } else {
      hide ScanToken, Tokens, WriteText, Joined, TextOf, JoinOne, RunOf;
      var vs := TextReads(af, rest, us);
      TokensNext(WriteText(gs) + rest, Words(first), WriteText(af) + rest, vs);
      ws := [Words(first)] + vs;
      JoinTwo(first, TextOf(af), Joined(us));
    }
  }

  lemma WriteStartsLess(ps: seq<Piece>)
    requires Neat(ps) && (ps == [] || !ps[0].PText?)
    ensures WriteAll(ps) == [] || WriteAll(ps)[0] == LESS
  {
  }

  lemma TagReads(p: Piece, rest: seq<byte>)
    requires IsPiece(p) && (p.PStart? || p.PEnd?)
    ensures |TokensOf(p)| == 1 && ScanToken(Write(p) + rest) == Next(TokensOf(p)[0], rest)
  {
    hide ScanToken, WriteAttrs;
    match p
    case PStart(name, attributes, end) => ReadsStart(name, attributes, end, rest);
    case PEnd(name, end) => ReadsEnd(name, end, rest);
  }

  lemma PassedOver(p: Piece, rest: seq<byte>)
    requires IsPiece(p) && (p.PComment? || p.PNothing?)
    ensures Tokens(Write(p) + rest) == Tokens(rest)
  {
    hide ScanToken, WriteRemarks;
    if p.PComment? {
      CommentPassed(p.remarks, rest);
    } else {
      NothingPassed(rest);
    }
  }

  lemma NeatTail(ps: seq<Piece>)
    requires Neat(ps) && ps != []
    ensures Neat(ps[1..]) && IsPiece(ps[0]) && (ps[0].PText? ==> ps[1..] == [] || !ps[1..][0].PText?)
    ensures WriteAll(ps) == Write(ps[0]) + WriteAll(ps[1..])
    ensures PageTokensOf(ps) == TokensOf(ps[0]) + PageTokensOf(ps[1..])
  {
    assert |ps| > 1 ==> !(ps[0].PText? && ps[1].PText?);
    hide Write, IsPiece, TokensOf;
  }

  lemma JoinFirst(t: Token, ts: seq<Token>)
    ensures Joined([t] + ts) == JoinOne(t, Joined(ts))
  {
    assert ([t] + ts)[1..] == ts;
  }

  /** However a page is written, tokenizing it gives its tags and its text, up to texts that reach the parser in several
      pieces: comments are passed over, references give their characters, and junk inside tags is ignored. */
  lemma {:induction false} PrintReads(ps: seq<Piece>) returns (ts: seq<Token>)
    requires Neat(ps)
    ensures Tokens(WriteAll(ps)) == Some(ts) && Joined(ts) == Joined(PageTokensOf(ps))
    decreases |ps|
  {
    if ps == [] {
      ts := [];
    } else {
      NeatTail(ps);
      hide Tokens, Joined, ScanToken, WriteAll, PageTokensOf, JoinOne, WriteAttrs, WriteText, WriteRemarks, Neat, TextOk;
      var us := PrintReads(ps[1..]);
      var rest, p := WriteAll(ps[1..]), ps[0];
      if p.PText? {
        WriteStartsLess(ps[1..]);
        ts := TextReads(p.text, rest, us);
        JoinFirst(Words(TextOf(p.text)), PageTokensOf(ps[1..]));
      } else if p.PStart? || p.PEnd? {
        TagReads(p, rest);
        var t := TokensOf(p)[0];
        TokensNext(Write(p) + rest, t, rest, us);
        ts := [t] + us;
        JoinFirst(t, PageTokensOf(ps[1..]));
        assert TokensOf(p) == [t];
      } else {
        PassedOver(p, rest);
        ts := us;
        assert [] + PageTokensOf(ps[1..]) == PageTokensOf(ps[1..]);
      }
    }
  }

  /** A numeric reference too large to be a number makes the tokenizer fail. */
  lemma NumberTooLarge(value: nat, zeros: nat, close: seq<byte>, q: seq<byte>)
    requires value > LARGEST && CloseOk(close, IsDigit, q)
    ensures Tokens(WriteGlyph(ByNumber(value, zeros, close)) + q) == None
  {
    ScansNumber(value, zeros, close, q);
    hide ScanToken;
  }

  /** Markup cut off by the end of the page is text. */
  lemma CutOff(s: seq<byte>)
    requires s == [AMP] || s == [AMP, HASH] || s == [LESS] || s == [LESS, SLASH] || s == [LESS, BANG] || s == [LESS, BANG, DASH]
    ensures Tokens(s) == Some([Words(s)])
  {
    assert ScanToken(s) == Next(Words(s), []);
    assert Tokens([]) == Some([]);
    hide ScanToken, Tokens;
    TokensNext(s, Words(s), [], []);
    assert [Words(s)] + [] == [Words(s)];
  }

  // ----- a tag cut off by the end of the page -----

  lemma {:induction false} ValueWithin(r: seq<byte>)
    ensures var v := ReadValue(r); v.Some? && GREATER in v.value.1 ==> GREATER in r
    decreases |r|
  {
    var r1 := Skip(r, IsSpace);
    assert GREATER in r1 ==> GREATER in r;
    if r1 != [] {
      if !IsQuote(r1[0]) && !IsNameByte(r1[0]) {
        var r2 := Skip(r1[1..], IsNoValue);
        assert GREATER in r2 ==> GREATER in r1[1..];
        assert GREATER in r1[1..] ==> GREATER in r1;
        ValueWithin(r2);
      } else {
        hide IsQuote, IsNameByte, IsSpace, Span;
      }
    }
  }

  lemma {:induction false} AttributesNeedBracket(c: byte, r: seq<byte>, tag: Tag)
    ensures ReadAttributes(c, r, tag).Some? ==> c == GREATER || GREATER in r
    decreases |r|, 1
  {
    var r1 := Skip(r, IsNoAttribute);
    assert GREATER in r1 ==> GREATER in r;
    if c != GREATER {
      if IsLetter(c) {
        AttributeNeedsBracket(c, r, tag);
      } else if r1 != [] && r1[0] != GREATER {
        AttributeNeedsBracket(r1[0], r1[1..], tag);
      }
    }
    hide Skip, IsLetter, ReadAttribute;
  }

  lemma {:induction false} AttributeNeedsBracket(c: byte, r: seq<byte>, tag: Tag)
    ensures ReadAttribute(c, r, tag).Some? ==> GREATER in r
    decreases |r|, 0
  {
    var name := ReadName(c, r);
    if name.Some? {
      var r1 := Skip(name.value.1, IsSpace);
      assert GREATER in r1 ==> GREATER in name.value.1;
      assert GREATER in name.value.1 ==> GREATER in r;
      if r1 != [] && r1[0] == EQUALS {
        var v := ReadValue(r1[1..]);
        ValueWithin(r1[1..]);
        if v.Some? {
          var r2 := Skip(v.value.1, IsSpace);
          assert GREATER in r2 ==> GREATER in v.value.1;
          if r2 != [] { AttributesNeedBracket(r2[0], r2[1..], With(tag, name.value.0, v.value.0)); }
        }
      } else if r1 != [] && r1[0] != GREATER {
        AttributesNeedBracket(r1[0], r1[1..], With(tag, name.value.0, []));
      }
    }
    hide Skip, ReadName, ReadValue;
  }

  /** A tag that is never closed ends the page. */
  lemma UnclosedTag(slash: bool, name: seq<byte>, r: seq<byte>)
    requires IsName(name) && GREATER !in r
    ensures Tokens((if slash then [LESS, SLASH] else [LESS]) + (name + r)) == Some([])
  {
    var q := name + r;
    assert q[0] == name[0];
    assert GREATER !in q by {
      assert forall b <- name :: IsNameByte(b) && b != GREATER;
    }
    assert forall b <- q[1..] :: b in q;
    if slash {
      EndNeedsBracket(q[0], q[1..]);
      ScansSlash(q);
    } else {
      StartNeedsBracket(q[0], q[1..]);
      ScansLetter(q);
    }
    hide ScanToken, ReadStartTag, ReadEndTag;
  }

  lemma SkipWithin(r: seq<byte>, p: byte -> bool)
    ensures GREATER in Skip(r, p) ==> GREATER in r
  {
  }

  lemma NameWithin(c: byte, r: seq<byte>)
    ensures ReadName(c, r).Some? && GREATER in ReadName(c, r).value.1 ==> GREATER in r
  {
  }

  lemma StartNeedsBracket(c: byte, r: seq<byte>)
    ensures ReadStartTag(c, r).Some? ==> GREATER in r
  {
    var name := ReadName(c, r);
    NameWithin(c, r);
    if name.Some? {
      var r1 := Skip(name.value.1, IsSpace);
      SkipWithin(name.value.1, IsSpace);
      if r1 != [] { AttributesNeedBracket(r1[0], r1[1..], Tag([], [])); }
    }
    hide Skip, ReadName, ReadAttributes;
  }

  lemma EndNeedsBracket(c: byte, r: seq<byte>)
    ensures ReadEndTag(c, r).Some? ==> GREATER in r
  {
    NameWithin(c, r);
    hide ReadName;
  }
}
