/** What the page tokenizer makes of a stream of bytes. */
module HtmlTokens {
  import opened BitStrings
  import opened Options
  import opened HtmlRepair

  // ----- characters -----

  const AMP: byte := 38
  const HASH: byte := 35
  const SEMICOLON: byte := 59
  const LESS: byte := 60
  const GREATER: byte := 62
  const SLASH: byte := 47
  const BANG: byte := 33
  const DASH: byte := 45
  const DOT: byte := 46
  const EQUALS: byte := 61
  const QUOTE: byte := 34
  const APOSTROPHE: byte := 39
  const QUESTION: byte := 63

  predicate IsDigit(b: byte) { 48 <= b <= 57 }

  /** The letters among the first 256 characters. */
  predicate IsLetter(b: byte) {
    65 <= b <= 90 || 97 <= b <= 122 || b == 170 || b == 181 || b == 186 || (192 <= b <= 255 && b != 215 && b != 247)
  }

  predicate IsNameByte(b: byte) { IsLetter(b) || IsDigit(b) || b == DASH || b == DOT }

  predicate IsQuote(b: byte) { b == QUOTE || b == APOSTROPHE }

  predicate IsPlain(b: byte) { b != AMP && b != LESS }

  predicate IsNoAttribute(b: byte) { !IsLetter(b) && b != GREATER }

  predicate IsNoValue(b: byte) { !IsQuote(b) && !IsNameByte(b) }

  predicate IsNotClose(b: byte) { b != GREATER }

  predicate IsNotQuote(b: byte) { b != QUOTE }

  predicate IsNotApostrophe(b: byte) { b != APOSTROPHE }

  function NotDelimiter(q: byte): byte -> bool { if q == QUOTE then IsNotQuote else IsNotApostrophe }

  /** How many bytes come before the first that does not fit. */
  function Span(r: seq<byte>, p: byte -> bool): (n: nat)
    ensures n <= |r| && (n < |r| ==> !p(r[n])) && forall k :: 0 <= k < n ==> p(r[k])
  {
    if r == [] || !p(r[0]) then 0 else 1 + Span(r[1..], p)
  }

  lemma {:induction false} SpanOf(a: seq<byte>, r: seq<byte>, p: byte -> bool)
    requires (forall b <- a :: p(b)) && (r == [] || !p(r[0]))
    ensures Span(a + r, p) == |a|
  {
    if a == [] {
      assert a + r == r;
    } else {
      assert (a + r)[1..] == a[1..] + r;
      SpanOf(a[1..], r, p);
    }
  }

  function Skip(r: seq<byte>, p: byte -> bool): (s: seq<byte>)
    ensures |s| <= |r|
  {
    r[Span(r, p)..]
  }

  // ----- entities -----

  function Digit(b: byte): nat { if IsDigit(b) then b as int - 48 else 0 }

  function Number(digits: seq<byte>): nat {
    if digits == [] then 0 else 10 * Number(digits[..|digits| - 1]) + Digit(digits[|digits| - 1])
  }

  const LARGEST: int := 2147483647

  /** The semicolon or space that closes a reference is part of it. */
  function Closed(r: seq<byte>): (s: seq<byte>)
    ensures |s| <= |r|
  {
    if r != [] && (r[0] == SEMICOLON || IsSpace(r[0])) then r[1..] else r
  }

  function NumericByte(value: nat): byte { if value > 255 then QUESTION else value as byte }

  const COPY: seq<byte> := [99, 111, 112, 121]
  const REG: seq<byte> := [114, 101, 103]
  const AMP_NAME: seq<byte> := [97, 109, 112]
  const GT: seq<byte> := [103, 116]
  const LT: seq<byte> := [108, 116]
  const QUOT: seq<byte> := [113, 117, 111, 116]
  const NBSP: seq<byte> := [110, 98, 115, 112]

  function NamedByte(name: seq<byte>): byte {
    if name == COPY then 169
    else if name == REG then 174
    else if name == AMP_NAME then AMP
    else if name == GT then GREATER
    else if name == LT then LESS
    else if name == QUOT then QUOTE
    else if name == NBSP then 160
    else QUESTION
  }

  // ----- tags -----

  /** Attribute names and their values, kept apart as they are read. */
  datatype Tag = Tag(names: seq<seq<byte>>, values: seq<seq<byte>>)

  /** Every attribute has its value. */
  predicate Parallel(tag: Tag) { |tag.names| == |tag.values| }

  /** A name; it must not run up to the end of the page. */
  function ReadName(first: byte, r: seq<byte>): (s: Option<(seq<byte>, seq<byte>)>)
    ensures s.Some? ==> |s.value.1| <= |r| && s.value.1 != []
  {
    var n := Span(r, IsNameByte);
    if n == |r| then None else Some(([first] + r[..n], r[n..]))
  }

  function ReadLiteral(q: byte, r: seq<byte>): (s: Option<(seq<byte>, seq<byte>)>)
    ensures s.Some? ==> |s.value.1| < |r|
  {
    var n := Span(r, NotDelimiter(q));
    if n == |r| then None else Some(([q] + r[..n] + [q], r[n + 1..]))
  }

  /** A value: a literal with its quotes, or a name; anything before it is passed over. */
  function ReadValue(r: seq<byte>): (s: Option<(seq<byte>, seq<byte>)>)
    ensures s.Some? ==> |s.value.1| < |r|
    decreases |r|
  {
    var r1 := Skip(r, IsSpace);
    if r1 == [] then None
    else if IsQuote(r1[0]) then ReadLiteral(r1[0], r1[1..])
    else if IsNameByte(r1[0]) then ReadName(r1[0], r1[1..])
    else
      var r2 := Skip(r1[1..], IsNoValue);
      if r2 == [] then None else ReadValue(r2)
  }

  /** The attributes of a start tag whose next byte is c, and what follows its closing bracket. */
  function ReadAttributes(c: byte, r: seq<byte>, tag: Tag): (s: Option<(Tag, seq<byte>)>)
    ensures s.Some? ==> |s.value.1| <= |r|
    ensures s.Some? && Parallel(tag) ==> Parallel(s.value.0)
    decreases |r|
  {
    if c == GREATER then Some((tag, r))
    else if IsLetter(c) then ReadAttribute(c, r, tag)
    else
      var r1 := Skip(r, IsNoAttribute);
      if r1 == [] then None
      else if r1[0] == GREATER then Some((tag, r1[1..]))
      else ReadAttribute(r1[0], r1[1..], tag)
  }

  function ReadAttribute(c: byte, r: seq<byte>, tag: Tag): (s: Option<(Tag, seq<byte>)>)
    ensures s.Some? ==> |s.value.1| <= |r|
    ensures s.Some? && Parallel(tag) ==> Parallel(s.value.0)
    decreases |r|, 0
  {
    var name := ReadName(c, r);
    if name.None? then None
    else
      var r1 := Skip(name.value.1, IsSpace);
      if r1 == [] then None
      else if r1[0] == GREATER then Some((With(tag, name.value.0, []), r1[1..]))
      else if r1[0] == EQUALS then
        var v := ReadValue(r1[1..]);
        if v.None? then None
        else
          var r2 := Skip(v.value.1, IsSpace);
          if r2 == [] then None else ReadAttributes(r2[0], r2[1..], With(tag, name.value.0, v.value.0))
      else ReadAttributes(r1[0], r1[1..], With(tag, name.value.0, []))
  }

  function With(tag: Tag, name: seq<byte>, value: seq<byte>): Tag {
    Tag(tag.names + [name], tag.values + [value])
  }

  function ReadStartTag(first: byte, r: seq<byte>): (s: Option<(seq<byte>, Tag, seq<byte>)>)
    ensures s.Some? ==> |s.value.2| < |r| && Parallel(s.value.1)
  {
    var name := ReadName(first, r);
    if name.None? then None
    else
      var r1 := Skip(name.value.1, IsSpace);
      if r1 == [] then None
      else
        var a := ReadAttributes(r1[0], r1[1..], Tag([], []));
        if a.None? then None else Some((name.value.0, a.value.0, a.value.1))
  }

  function ReadEndTag(first: byte, r: seq<byte>): (s: Option<(seq<byte>, seq<byte>)>)
    ensures s.Some? ==> |s.value.1| < |r|
  {
    var name := ReadName(first, r);
    if name.None? then None
    else
      var r1 := Skip(name.value.1, IsNotClose);
      if r1 == [] then None else Some((name.value.0, r1[1..]))
  }

  // ----- comments -----

  /** What follows the two dashes that end a comment. */
  function ReadComment(r: seq<byte>): (s: seq<byte>)
    ensures |s| <= |r|
  {
    if r == [] then []
    else if r[0] != DASH then ReadComment(r[1..])
    else if |r| == 1 then []
    else if r[1] == DASH then r[2..]
    else ReadComment(r[2..])
  }

  /** What follows the bracket that ends a comment declaration. */
  function ReadDeclaration(r: seq<byte>): (s: seq<byte>)
    ensures |s| <= |r|
    decreases |r|
  {
    if r == [] then []
    else if r[0] == GREATER then r[1..]
    else if r[0] != DASH then ReadDeclaration(r[1..])
    else if |r| == 1 then []
    else if r[1] == DASH then ReadDeclaration(ReadComment(r[2..]))
    else ReadDeclaration(r[2..])
  }

  // ----- tokens -----

  /** The next token and the bytes after it; the end of the page, also in the middle of a tag; or a numeric reference
      too large to be a number, which ends the parse with an error. */
  datatype Scan = Next(token: Token, rest: seq<byte>) | Over | Failed

  function Str(bs: seq<byte>): string { seq(|bs|, i requires 0 <= i < |bs| => bs[i] as char) }

  function TextAfter(start: seq<byte>, r: seq<byte>): Scan {
    Next(Words(start + r[..Span(r, IsPlain)]), Skip(r, IsPlain))
  }

  function Zip(tag: Tag): seq<RawAttribute>
    requires Parallel(tag)
  {
    seq(|tag.names|, i requires 0 <= i < |tag.names| => RawAttribute(Str(tag.names[i]), tag.values[i]))
  }

  function ScanReference(r: seq<byte>): Scan {
    if r == [] then Next(Words([AMP]), [])
    else if r[0] == HASH then
      if |r| == 1 then Next(Words([AMP, HASH]), [])
      else if IsDigit(r[1]) then
        var n := Span(r[2..], IsDigit);
        var value := Number([r[1]] + r[2..][..n]);
        if value > LARGEST then Failed else TextAfter([NumericByte(value)], Closed(r[2..][n..]))
      else TextAfter([AMP, HASH, r[1]], r[2..])
    else if IsLetter(r[0]) then
      var n := Span(r[1..], IsNameByte);
      TextAfter([NamedByte([r[0]] + r[1..][..n])], Closed(r[1..][n..]))
    else TextAfter([AMP, r[0]], r[1..])
  }

  function ScanMarkup(r: seq<byte>): Scan
    requires r == [] || r[0] != BANG
  {
    if r == [] then Next(Words([LESS]), [])
    else if r[0] == SLASH then
      if |r| == 1 then Next(Words([LESS, SLASH]), [])
      else if IsLetter(r[1]) then
        var t := ReadEndTag(r[1], r[2..]);
        if t.None? then Over else Next(Close(Str(t.value.0)), t.value.1)
      else TextAfter([LESS, SLASH, r[1]], r[2..])
    else if IsLetter(r[0]) then
      var t := ReadStartTag(r[0], r[1..]);
      if t.None? then Over else Next(Open(Str(t.value.0), Zip(t.value.1)), t.value.2)
    else TextAfter([LESS, r[0]], r[1..])
  }

  /** The next token. */
  function ScanToken(r: seq<byte>): (s: Scan)
    ensures s.Next? ==> |s.rest| < |r|
    decreases |r|
  {
    if r == [] then Over
    else if r[0] == AMP then ScanReference(r[1..])
    else if r[0] != LESS then TextAfter([r[0]], r[1..])
    else if |r| == 1 || r[1] != BANG then ScanMarkup(r[1..])
    else if |r| == 2 then Next(Words([LESS, BANG]), [])
    else if r[2] == GREATER then ScanToken(r[3..])
    else if r[2] != DASH then TextAfter([LESS, BANG, r[2]], r[3..])
    else if |r| == 3 then Next(Words([LESS, BANG, DASH]), [])
    else if r[3] == DASH then ScanToken(ReadDeclaration(ReadComment(r[4..])))
    else TextAfter([LESS, BANG, DASH, r[3]], r[4..])
  }

  /** All the tokens of a page. */
  function Tokens(r: seq<byte>): Option<seq<Token>>
    decreases |r|
  {
    match ScanToken(r)
    case Over => Some([])
    case Failed => None
    case Next(token, rest) =>
      var more := Tokens(rest);
      if more.None? then None else Some([token] + more.value)
  }

  /** The tokens of a page up to its end, or up to where the tokenizer fails, and which of the two it was. */
  function TokensUntil(r: seq<byte>): (res: (seq<Token>, bool))
    ensures Tokens(r) == if res.1 then Some(res.0) else None
    decreases |r|
  {
    match ScanToken(r)
    case Over => ([], true)
    case Failed => ([], false)
    case Next(token, rest) =>
      var more := TokensUntil(rest);
      ([token] + more.0, more.1)
  }
}
