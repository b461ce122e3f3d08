/** The page tokenizer: a stream of bytes, one of which can be put back, read token by token. */
module HtmlTokenizer {
  import opened BitStrings
  import opened Options
  import opened HtmlRepair
  import opened HtmlTokens

  lemma {:induction false} SpanMore(r: seq<byte>, n: nat, p: byte -> bool)
    requires n < |r| && (forall k :: 0 <= k < n ==> p(r[k])) && !p(r[n])
    ensures Span(r, p) == n
  {
    if n > 0 {
      SpanMore(r[1..], n - 1, p);
    }
  }

  lemma {:induction false} SpanAll(r: seq<byte>, p: byte -> bool)
    requires forall k :: 0 <= k < |r| ==> p(r[k])
    ensures Span(r, p) == |r|
  {
    if r != [] {
      SpanAll(r[1..], p);
    }
  }

  class Tokenizer {
    var input: seq<byte>

    /** The names and values of the tag being read. */
    var names: seq<seq<byte>>
    var values: seq<seq<byte>>

    constructor (bytes: seq<byte>)
      ensures input == bytes
    {
      input, names, values := bytes, [], [];
    }

    /** The next byte, or -1 at the end. */
    method Read() returns (c: int)
      modifies this`input
      ensures old(input) == [] ==> c == -1 && input == []
      ensures old(input) != [] ==> c == old(input)[0] as int && input == old(input)[1..]
    {
      if input == [] {
        c := -1;
      } else {
        c := input[0] as int;
        input := input[1..];
      }
    }

    method Unread(c: byte)
      modifies this`input
      ensures input == [c] + old(input)
    {
      input := [c] + input;
    }

    /** Reads as long as the bytes fit, and puts the first that does not back. */
    method TakeWhile(p: byte -> bool) returns (run: seq<byte>)
      modifies this`input
      ensures run == old(input)[..Span(old(input), p)] && input == Skip(old(input), p)
    {
      ghost var all := input;
      run := [];
      var c := Read();
      while c != -1 && p(c as byte)
        invariant -1 <= c < 256 && (forall k :: 0 <= k < |run| ==> p(run[k]))
        invariant if c == -1 then input == [] && all == run else all == run + [c as byte] + input
        decreases |all| - |run|
      {
        run := run + [c as byte];
        c := Read();
      }
      if c != -1 {
        SpanMore(all, |run|, p);
        Unread(c as byte);
        assert all[..|run|] == run && all[|run|..] == input;
      } else {
        SpanAll(all, p);
        assert all[..|run|] == run && all[|run|..] == [];
      }
    }

    method ReadNameAfter(first: byte) returns (r: Option<seq<byte>>)
      modifies this`input
      ensures r.Some? == ReadName(first, old(input)).Some?
      ensures r.Some? ==> ReadName(first, old(input)).value == (r.value, input)
      ensures r.None? ==> input == []
    {
      hide Span;
      var run := TakeWhile(IsNameByte);
      if input == [] {
        return None;
      }
      r := Some([first] + run);
    }

    method ReadLiteralAfter(q: byte) returns (r: Option<seq<byte>>)
      modifies this`input
      ensures r.Some? == ReadLiteral(q, old(input)).Some?
      ensures r.Some? ==> ReadLiteral(q, old(input)).value == (r.value, input)
      ensures r.None? ==> input == []
    {
      hide Span;
      ghost var all := input;
      var run := TakeWhile(NotDelimiter(q));
      var c := Read();
      if c == -1 {
        return None;
      }
      assert all[|run|..][1..] == all[|run| + 1..];
      r := Some([q] + run + [q]);
    }

    method ReadValueNext() returns (r: Option<seq<byte>>)
      modifies this`input
      ensures r.Some? == ReadValue(old(input)).Some?
      ensures r.Some? ==> ReadValue(old(input)).value == (r.value, input)
      ensures r.None? ==> input == []
      decreases |input|
    {
      hide Span, ReadName, ReadLiteral;
      var spaces := TakeWhile(IsSpace);
      var c := Read();
      if c == -1 {
        return None;
      }
      if IsQuote(c as byte) {
        r := ReadLiteralAfter(c as byte);
      } else if IsNameByte(c as byte) {
        r := ReadNameAfter(c as byte);
      } else {
        var junk := TakeWhile(IsNoValue);
        if input == [] {
          return None;
        }
        r := ReadValueNext();
      }
    }

    /** One attribute, which always gets a value, and the byte after it: -1 when the page ended, GREATER when the tag
        did. */
    method ReadOneAttribute(first: byte) returns (c: int)
      modifies this
      ensures -1 <= c < 256
      ensures var r := ReadAttribute(first, old(input), Tag(old(names), old(values)));
              if c == -1 then r == None && input == []
              else r == ReadAttributes(c as byte, input, Tag(names, values)) && |input| < |old(input)|
    {
      hide Span, ReadName, ReadValue, Skip;
      var name := ReadNameAfter(first);
      if name.None? {
        return -1;
      }
      names := names + [name.value];
      var spaces := TakeWhile(IsSpace);
      c := Read();
      if c == -1 {
        return;
      }
      if c as byte == EQUALS {
        var value := ReadValueNext();
        if value.None? {
          return -1;
        }
        values := values + [value.value];
        spaces := TakeWhile(IsSpace);
        c := Read();
      } else {
        values := values + [[]];
      }
    }

    /** The attributes of a start tag, from the byte already read: every attribute gets a value. */
    method ReadAttributesValues(first: byte) returns (ok: bool)
      modifies this
      ensures ok == ReadAttributes(first, old(input), Tag(old(names), old(values))).Some?
      ensures ok ==> ReadAttributes(first, old(input), Tag(old(names), old(values))).value == (Tag(names, values), input)
      ensures !ok ==> input == []
    {
      hide Span, ReadAttribute, Skip;
      var c: int := first as int;
      ghost var whole := ReadAttributes(first, input, Tag(names, values));
      while c != -1
        invariant -1 <= c < 256 && (c == -1 ==> input == [])
        invariant c == -1 ==> whole == None
        invariant c != -1 ==> whole == ReadAttributes(c as byte, input, Tag(names, values))
        decreases if c == -1 then 0 else 1 + |input|
      {
        if c as byte == GREATER {
          return true;
        }
        if !IsLetter(c as byte) {
          var junk := TakeWhile(IsNoAttribute);
          c := Read();
          if c == -1 {
            return false;
          } else if c as byte == GREATER {
            return true;
          }
        }
        c := ReadOneAttribute(c as byte);
      }
      return false;
    }

    method ReadStartTagNext(first: byte) returns (r: Option<seq<byte>>)
      modifies this
      ensures r.Some? == ReadStartTag(first, old(input)).Some?
      ensures r.Some? ==> ReadStartTag(first, old(input)).value == (r.value, Tag(names, values), input)
      ensures r.None? ==> input == []
    {
      hide Span, Skip, ReadName, ReadAttributes;
      names, values := [], [];
      var name := ReadNameAfter(first);
      if name.None? {
        return None;
      }
      var spaces := TakeWhile(IsSpace);
      var c := Read();
      if c == -1 {
        return None;
      }
      var ok := ReadAttributesValues(c as byte);
      if !ok {
        return None;
      }
      r := name;
    }

    method ReadEndTagNext(first: byte) returns (r: Option<seq<byte>>)
      modifies this`input
      ensures r.Some? == ReadEndTag(first, old(input)).Some?
      ensures r.Some? ==> ReadEndTag(first, old(input)).value == (r.value, input)
      ensures r.None? ==> input == []
    {
      hide Span, ReadName;
      r := ReadNameAfter(first);
      if r.None? {
        return;
      }
      var junk := TakeWhile(IsNotClose);
      var c := Read();
      if c == -1 {
        return None;
      }
    }

    /** Passes over a comment. */
    method SkipComment()
      modifies this`input
      ensures input == ReadComment(old(input))
    {
      var c := Read();
      assert old(input) != [] ==> old(input) == [c as byte] + input;
      while c != -1
        invariant -1 <= c < 256 && (c == -1 ==> input == [])
        invariant ReadComment(old(input)) == if c == -1 then [] else ReadComment([c as byte] + input)
        decreases if c == -1 then 0 else 1 + |input|
      {
        ghost var r := [c as byte] + input;
        assert r[1..] == input;
        if c as byte == DASH {
          c := Read();
          if c == -1 {
            return;
          } else if c as byte == DASH {
            assert r[2..] == input;
            return;
          }
          assert r[2..] == input;
        }
        ghost var rest := input;
        c := Read();
        assert rest != [] ==> rest == [c as byte] + input;
      }
    }

    /** Passes over a comment declaration. */
    method SkipDeclaration()
      modifies this`input
      ensures input == ReadDeclaration(ReadComment(old(input)))
    {
      hide ReadComment;
      SkipComment();
      ghost var all := input;
      var c := Read();
      assert all != [] ==> all == [c as byte] + input;
      while c != -1
        invariant -1 <= c < 256 && (c == -1 ==> input == [])
        invariant ReadDeclaration(all) == if c == -1 then [] else ReadDeclaration([c as byte] + input)
        decreases if c == -1 then 0 else 1 + |input|
      {
        ghost var r := [c as byte] + input;
        assert r[1..] == input;
        if c as byte == GREATER {
          return;
        } else if c as byte == DASH {
          c := Read();
          if c == -1 {
            return;
          }
          assert r[2..] == input;
          if c as byte == DASH {
            SkipComment();
          }
        }
        ghost var rest := input;
        c := Read();
        assert rest != [] ==> rest == [c as byte] + input;
      }
    }

    /** The text that starts with some bytes already read. */
    method ReadText(start: seq<byte>) returns (t: Token)
      modifies this`input
      ensures Next(t, input) == TextAfter(start, old(input))
    {
      hide Span;
      var run := TakeWhile(IsPlain);
      t := Words(start + run);
    }

    /** The closing semicolon or space of a reference. */
    method CloseReference()
      modifies this`input
      ensures input == Closed(old(input))
    {
      var c := Read();
      if c != -1 && c as byte != SEMICOLON && !IsSpace(c as byte) {
        Unread(c as byte);
      }
    }

    /** After an ampersand; None when a numeric reference is too large to be a number. */
    method ReadReference() returns (r: Option<Token>)
      modifies this`input
      ensures var s := ScanReference(old(input));
              if s.Failed? then r.None? else r.Some? && s == Next(r.value, input)
    {
      hide Span, Number, NamedByte, TextAfter;
      ghost var all := input;
      var c := Read();
      if c == -1 {
        return Some(Words([AMP]));
      }
      var t;
      if c as byte == HASH {
        c := Read();
        if c == -1 {
          return Some(Words([AMP, HASH]));
        }
        assert all[1..][1..] == all[2..];
        if IsDigit(c as byte) {
          var digits := TakeWhile(IsDigit);
          CloseReference();
          var value := Number([c as byte] + digits);
          if value > LARGEST {
            return None;
          }
          t := ReadText([NumericByte(value)]);
        } else {
          t := ReadText([AMP, HASH, c as byte]);
        }
      } else if IsLetter(c as byte) {
        var name := TakeWhile(IsNameByte);
        CloseReference();
        t := ReadText([NamedByte([c as byte] + name)]);
      } else {
        t := ReadText([AMP, c as byte]);
      }
      r := Some(t);
    }

    /** What the specification says of a token just read. */
    ghost predicate Delivers(s: Scan, r: Option<Signal>)
      reads this`input
    {
      match s
      case Failed => r.None?
      case Over => r == Some(Finish) && input == []
      case Next(t, rest) => r == Some(Got(t)) && input == rest
    }

    /** After a less-than sign that opens no comment. */
    method ReadMarkup() returns (r: Option<Signal>)
      requires input == [] || input[0] != BANG
      modifies this
      ensures Delivers(ScanMarkup(old(input)), r)
    {
      hide Span, ReadStartTag, ReadEndTag, TextAfter, Str, Zip;
      ghost var all := input;
      var c := Read();
      if c == -1 {
        return Some(Got(Words([LESS])));
      }
      var t;
      if c as byte == SLASH {
        c := Read();
        if c == -1 {
          return Some(Got(Words([LESS, SLASH])));
        }
        assert all[1..][1..] == all[2..];
        if IsLetter(c as byte) {
          var name := ReadEndTagNext(c as byte);
          return if name.None? then Some(Finish) else Some(Got(Close(Str(name.value))));
        }
        t := ReadText([LESS, SLASH, c as byte]);
      } else if IsLetter(c as byte) {
        var name := ReadStartTagNext(c as byte);
        return if name.None? then Some(Finish) else Some(Got(Open(Str(name.value), Zip(Tag(names, values)))));
      } else {
        t := ReadText([LESS, c as byte]);
      }
      r := Some(Got(t));
    }

    /** The next token; None when the parse ends with an error. */
    method NextToken() returns (r: Option<Signal>)
      modifies this
      ensures Delivers(ScanToken(old(input)), r)
      decreases |input|
    {
      hide Span, TextAfter, ScanReference, ScanMarkup, ReadComment, ReadDeclaration;
      ghost var all := input;
      var c := Read();
      if c == -1 {
        return Some(Finish);
      }
      var t;
      if c as byte == AMP {
        var w := ReadReference();
        return if w.None? then None else Some(Got(w.value));
      } else if c as byte != LESS {
        t := ReadText([c as byte]);
        return Some(Got(t));
      }
      c := Read();
      if c == -1 || c as byte != BANG {
        if c != -1 {
          Unread(c as byte);
        }
        assert input == all[1..];
        r := ReadMarkup();
        return;
      }
      assert input == all[2..];
      c := Read();
      if c == -1 {
        return Some(Got(Words([LESS, BANG])));
      } else if c as byte == GREATER {
        assert input == all[3..];
        r := NextToken();
        return;
      } else if c as byte != DASH {
        assert input == all[3..];
        t := ReadText([LESS, BANG, c as byte]);
        return Some(Got(t));
      }
      c := Read();
      if c == -1 {
        return Some(Got(Words([LESS, BANG, DASH])));
      }
      assert input == all[4..];
      if c as byte == DASH {
        SkipDeclaration();
        r := NextToken();
        return;
      }
      t := ReadText([LESS, BANG, DASH, c as byte]);
      r := Some(Got(t));
    }

    /** All the tokens of the page, or those before the tokenizer fails. */
    method AllTokens() returns (ts: seq<Token>, ok: bool)
      modifies this
      ensures (ts, ok) == TokensUntil(old(input))
    {
      hide ScanToken, TokensUntil;
      ts := [];
      ghost var whole := TokensUntil(input);
      assert [] + whole.0 == whole.0;
      while true
        invariant whole == (ts + TokensUntil(input).0, TokensUntil(input).1)
        decreases |input|
      {
        UntilNext(ts, input);
        var next := NextToken();
        if next.None? {
          return ts, false;
        } else if next.value.Finish? {
          return ts, true;
        }
        ts := ts + [next.value.token];
      }
    }
  }

  lemma UntilNext(ts: seq<Token>, r: seq<byte>)
    ensures var (more, ok) := TokensUntil(r);
            match ScanToken(r)
            case Failed => ts + more == ts && !ok
            case Over => ts + more == ts && ok
            case Next(t, rest) =>
              |rest| < |r| && ts + more == ts + [t] + TokensUntil(rest).0 && ok == TokensUntil(rest).1
  {
    hide ScanToken;
    var s := ScanToken(r);
    if s.Next? {
      assert ts + ([s.token] + TokensUntil(s.rest).0) == ts + [s.token] + TokensUntil(s.rest).0;
    }
  }
}
