/** A page from its bytes to the byte code and back. */
module HtmlCompactor {
  import opened BitStrings
  import opened Options
  import opened HtmlTables
  import opened HtmlBytes
  import opened HtmlRepair
  import opened HtmlTokens
  import opened HtmlTokenizer
  import opened HtmlPage

  /** Any token will do. */
  const ANOTHER: Token := Words([])

  /** The page is over before the parser asks for a token after these: one more would be left unread. */
  predicate EndsWithin(tokens: seq<Token>) { Parse(DOCUMENT, Advance(tokens + [ANOTHER])).next.rest != [] }

  // ----- what is left unread does not matter -----

  /** The same outcome, with other tokens left behind. */
  ghost predicate Replaced(o: Outcome, more: seq<Token>, o': Outcome) {
    var n := |o.next.rest| - 1;
    n >= 0 && o.next.rest[n] == ANOTHER && o' == Outcome(o.kids, State(o.next.signal, o.next.rest[..n] + more))
  }

  lemma ReplacedEnd(signal: Signal, r: seq<Token>, more: seq<Token>)
    ensures Replaced(Outcome([], State(signal, r + [ANOTHER])), more, Outcome([], State(signal, r + more)))
  {
    assert (r + [ANOTHER])[..|r|] == r;
  }

  lemma ReplacedThen(n: Node, o: Outcome, more: seq<Token>, o': Outcome)
    requires Replaced(o, more, o')
    ensures Replaced(Then(n, o), more, Then(n, o'))
  {
  }

  lemma AtLastToken(e: nat, st: State)
    requires Ready(st) && st.rest == []
    ensures Parse(e, st).next.rest == []
  {
    hide Parse;
  }

  lemma AdvanceBoth(r: seq<Token>, more: seq<Token>)
    requires r != []
    ensures Advance(r + more) == State(Got(r[0]), r[1..] + more)
  {
    assert (r + more)[1..] == r[1..] + more;
  }

  lemma {:induction false} AdvanceIgnored(e: nat, r: seq<Token>, more: seq<Token>)
    requires Parse(e, Advance(r + [ANOTHER])).next.rest != []
    ensures Replaced(Parse(e, Advance(r + [ANOTHER])), more, Parse(e, Advance(r + more)))
    decreases Weight(Advance(r + [ANOTHER])), Rank(e), 2
  {
    if r == [] {
      AtLastToken(e, Advance(r + [ANOTHER]));
      assert false;
    }
    hide Parse, Replaced;
    AdvanceBoth(r, [ANOTHER]);
    AdvanceBoth(r, more);
    UnreadIgnored(e, r[0], r[1..], more);
  }

  /** Tokens an element leaves unread do not matter to it. */
  lemma {:induction false} UnreadIgnored(e: nat, t: Token, r: seq<Token>, more: seq<Token>)
    requires Parse(e, State(Got(t), r + [ANOTHER])).next.rest != []
    ensures Replaced(Parse(e, State(Got(t), r + [ANOTHER])), more, Parse(e, State(Got(t), r + more)))
    decreases Weight(State(Got(t), r + [ANOTHER])), Rank(e), 1
  {
    hide Row, Rank, Model, Named, Allowable, TextHolder, TakesText, Shown, Replaced;
    var st, st' := State(Got(t), r + [ANOTHER]), State(Got(t), r + more);
    ReplacedEnd(Got(t), r, more);
    ReplacedEnd(Nothing, r, more);
    match t
    case Words(text) =>
      if TakesText(e) {
        AdvanceIgnored(e, r, more);
        ReplacedThen(Leaf(Shown(e, text)), Parse(e, Advance(st.rest)), more, Parse(e, Advance(st'.rest)));
      } else if Blank(text) {
        AdvanceIgnored(e, r, more);
      } else if TextHolder(e).Some? {
        InferredIgnored(e, TextHolder(e).value, t, r, more);
      } else if !Row(e).endOptional {
        AdvanceIgnored(e, r, more);
      }
    case Open(name, attributes) =>
      var c := Named(name);
      if c.None? {
        AdvanceIgnored(e, r, more);
      } else if Allowed(e, c.value) {
        ChildIgnored(e, c.value, attributes, t, r, more);
      } else if Allowable(e, c.value).Some? {
        InferredIgnored(e, Allowable(e, c.value).value, t, r, more);
      } else if !Row(e).endOptional {
        AdvanceIgnored(e, r, more);
      }
    case Close(name) =>
      var c := Named(name);
      if c.None? || (c.value != e && !Row(e).endOptional) {
        AdvanceIgnored(e, r, more);
      }
  }

  /** The parent goes on where the child left off. */
  lemma {:induction false} ResumeIgnored(e: nat, inner: Outcome, more: seq<Token>, inner': Outcome)
    requires !inner.next.signal.Finish? && Replaced(inner, more, inner')
    requires Parse(e, Resume(inner.next)).next.rest != []
    ensures !inner'.next.signal.Finish?
    ensures Replaced(Parse(e, Resume(inner.next)), more, Parse(e, Resume(inner'.next)))
    decreases Weight(Resume(inner.next)), Rank(e), 3
  {
    hide Parse;
    var n := |inner.next.rest| - 1;
    var r := inner.next.rest[..n];
    assert inner.next.rest == r + [ANOTHER];
    hide Replaced;
    match inner.next.signal
    case Nothing => AdvanceIgnored(e, r, more);
    case Got(t) => UnreadIgnored(e, t, r, more);
  }

  lemma {:induction false} InferredIgnored(e: nat, m: nat, t: Token, r: seq<Token>, more: seq<Token>)
    requires !t.Close? && Rank(m) < Rank(e) && Accepts(m, t)
    requires Descend(e, m, [], State(Got(t), r + [ANOTHER]), Weight(State(Got(t), r + [ANOTHER]))).next.rest != []
    ensures Replaced(Descend(e, m, [], State(Got(t), r + [ANOTHER]), Weight(State(Got(t), r + [ANOTHER]))), more,
                     Descend(e, m, [], State(Got(t), r + more), Weight(State(Got(t), r + more))))
    decreases Weight(State(Got(t), r + [ANOTHER])), Rank(e), 0
  {
    hide Rank, Accepts, Parse, Replaced;
    var inner, inner' := Parse(m, State(Got(t), r + [ANOTHER])), Parse(m, State(Got(t), r + more));
    if inner.next.rest == [] {
      AtLastToken(e, Resume(inner.next));
      assert false;
    }
    UnreadIgnored(m, t, r, more);
    ResumeIgnored(e, inner, more, inner');
    KidsSame(inner, more, inner');
    ReplacedThen(Branch(m, [], inner.kids), Parse(e, Resume(inner.next)), more, Parse(e, Resume(inner'.next)));
  }

  lemma {:induction false} ChildIgnored(e: nat, c: nat, attributes: seq<RawAttribute>, t: Token, r: seq<Token>, more: seq<Token>)
    requires t.Open?
    requires Descend(e, c, attributes, Advance(r + [ANOTHER]), Weight(State(Got(t), r + [ANOTHER]))).next.rest != []
    ensures Replaced(Descend(e, c, attributes, Advance(r + [ANOTHER]), Weight(State(Got(t), r + [ANOTHER]))), more,
                     Descend(e, c, attributes, Advance(r + more), Weight(State(Got(t), r + more))))
    decreases Weight(State(Got(t), r + [ANOTHER])), Rank(e), 0
  {
    hide Rank, Accepts, Parse, Replaced;
    var inner, inner' := Parse(c, Advance(r + [ANOTHER])), Parse(c, Advance(r + more));
    if inner.next.rest == [] {
      AtLastToken(e, Resume(inner.next));
      assert false;
    }
    AdvanceIgnored(c, r, more);
    ResumeIgnored(e, inner, more, inner');
    KidsSame(inner, more, inner');
    ReplacedThen(Branch(c, attributes, inner.kids), Parse(e, Resume(inner.next)), more, Parse(e, Resume(inner'.next)));
  }

  lemma KidsSame(o: Outcome, more: seq<Token>, o': Outcome)
    requires Replaced(o, more, o')
    ensures o.kids == o'.kids
  {
  }

  /** A page that is over within some tokens is the same page whatever follows them. */
  lemma RestIgnored(tokens: seq<Token>, more: seq<Token>)
    requires EndsWithin(tokens)
    ensures Repaired(tokens + more) == Repaired(tokens)
  {
    hide Parse, Replaced;
    AdvanceIgnored(DOCUMENT, tokens, more);
    AdvanceIgnored(DOCUMENT, tokens, []);
    KidsSame(Parse(DOCUMENT, Advance(tokens + [ANOTHER])), more, Parse(DOCUMENT, Advance(tokens + more)));
    KidsSame(Parse(DOCUMENT, Advance(tokens + [ANOTHER])), [], Parse(DOCUMENT, Advance(tokens + [])));
    assert tokens + [] == tokens;
  }

  /** Tokenizes, repairs, compacts and reads back a page.  It fails exactly where the tokenizer does before the page is
      over.  Otherwise the reader gets the repaired page, up to joined text, exactly when that page holds no byte the
      byte code reserves. */
  method Compact(page: seq<byte>) returns (r: Option<Option<seq<Event>>>)
    ensures var (tokens, ok) := TokensUntil(page);
            && (r.None? <==> !ok && !EndsWithin(tokens))
            && (r.Some? ==>
                var events := Events(Repaired(tokens));
                WellNested(events) && (r.value == Some(Merge(events)) <==> AllClean(events)))
  {
    hide TokensUntil, Events, Repaired, Merge, AllClean, WellNested, EndsWithin;
    var tokenizer := new Tokenizer(page);
    var tokens, ok := tokenizer.AllTokens();
    if !ok && !EndsWithin(tokens) {
      return None;
    }
    PageNests(tokens);
    var read := CompactAndRead(tokens);
    r := Some(read);
  }
}
