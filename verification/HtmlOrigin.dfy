/** Where every part of a repaired page comes from: which tokens were kept, dropped or supplied, and why; and that this
    leaves no choice. */
module HtmlOrigin {
  import opened BitStrings
  import opened Options
  import opened HtmlTables
  import opened HtmlRepair
  import opened HtmlStack

  /** Part of a page: text kept, a token dropped, or an element with the tags that were there for it. */
  datatype Part =
    | Kept(text: seq<byte>)
    | Dropped(token: Token)
    | Child(element: nat, attributes: seq<RawAttribute>, start: Option<string>, inside: seq<Part>, stop: Option<string>)

  function StartTokens(p: Part): seq<Token>
    requires p.Child?
  {
    if p.start.None? then [] else [Open(p.start.value, p.attributes)]
  }

  function StopTokens(p: Part): seq<Token>
    requires p.Child?
  {
    if p.stop.None? then [] else [Close(p.stop.value)]
  }

  /** The tokens a part was made from. */
  function PartTokens(p: Part): seq<Token>
    decreases p
  {
    match p
    case Kept(text) => [Words(text)]
    case Dropped(t) => [t]
    case Child(_, _, _, inside, _) => StartTokens(p) + (PartsTokens(inside) + StopTokens(p))
  }

  function PartsTokens(ps: seq<Part>): seq<Token>
    decreases ps
  {
    if ps == [] then [] else PartTokens(ps[0]) + PartsTokens(ps[1..])
  }

  /** What an element makes of a part. */
  function PartTree(e: nat, p: Part): seq<Node>
    decreases p
  {
    match p
    case Kept(text) => [Leaf(Shown(e, text))]
    case Dropped(_) => []
    case Child(c, attributes, _, inside, _) => [Branch(c, attributes, PartsTree(c, inside))]
  }

  function PartsTree(e: nat, ps: seq<Part>): seq<Node>
    decreases ps
  {
    if ps == [] then [] else PartTree(e, ps[0]) + PartsTree(e, ps[1..])
  }

  predicate Unknown(t: Token) { !t.Words? && Named(t.name).None? }

  predicate EndOf(e: nat, t: Token) { t.Close? && Named(t.name) == Some(e) }

  /** The only tokens an element drops: tags of no known element, blank text where no text may be, and, if its end tag is
      required, whatever has no place in it and is not its end tag. */
  predicate Droppable(e: nat, t: Token) {
    || Unknown(t)
    || (t.Words? && !TakesText(e) && Blank(t.text))
    || (!Row(e).endOptional && !Accepts(e, t) && !EndOf(e, t))
  }

  /** The only cause for supplying a start tag: a token that has no place in e itself, and one below c. */
  predicate Supplied(e: nat, c: nat, t: Token) {
    match t
    case Words(text) => !TakesText(e) && !Blank(text) && TextHolder(e) == Some(c)
    case Open(name, _) => Named(name).Some? && !Allowed(e, Named(name).value) && Allowable(e, Named(name).value) == Some(c)
    case Close(_) => false
  }

  /** An element ends without its end tag only where the page does, or before a token it gives up. */
  predicate MayStop(e: nat, after: seq<Token>) { after == [] || GivesUp(e, after[0]) }

  ghost predicate LegalPart(e: nat, p: Part, after: seq<Token>)
    decreases p
  {
    match p
    case Kept(_) => TakesText(e)
    case Dropped(t) => Droppable(e, t)
    case Child(c, attributes, start, inside, stop) =>
      && c < DOCUMENT && Legal(c, inside, StopTokens(p) + after)
      && (if start.Some? then Named(start.value) == Some(c) && Allowed(e, c)
          else attributes == [] && PartsTokens(inside) != [] && Supplied(e, c, PartsTokens(inside)[0]))
      && (if stop.Some? then Named(stop.value) == Some(c) else MayStop(c, after))
  }

  /** The parts are what an element may make of their tokens, with these tokens behind them. */
  ghost predicate Legal(e: nat, ps: seq<Part>, after: seq<Token>)
    decreases ps
  {
    ps == [] || (LegalPart(e, ps[0], PartsTokens(ps[1..]) + after) && Legal(e, ps[1..], after))
  }

  // ----- every page has such an account -----

  /** How an element's children end: at its end tag, before a token it gives up, or with the page. */
  datatype End = AtTag(name: string) | AtToken | AtPageEnd

  /** The tokens not yet parsed; `over` says that the token in hand was made up at the end of the page. */
  function Left(st: State, over: bool): seq<Token> {
    if over then [] else if st.signal.Got? then [st.signal.token] + st.rest else st.rest
  }

  ghost predicate MayBeOver(st: State) {
    st.rest == [] && (st.signal.Got? ==> st.signal.token.Close?)
  }

  function Behind(r: Outcome, end: End): seq<Token> {
    match end
    case AtTag(name) => [Close(name)] + r.next.rest
    case AtToken => Left(r.next, false)
    case AtPageEnd => []
  }

  ghost predicate EndsAs(e: nat, r: Outcome, end: End) {
    match end
    case AtTag(name) => Named(name) == Some(e) && r.next.signal == Nothing
    case AtToken => r.next.signal.Got? && GivesUp(e, r.next.signal.token)
    case AtPageEnd => MayBeOver(r.next)
  }

  /** The parts, in order, account for the tokens read and for the children made of them. */
  ghost predicate Account(e: nat, st: State, over: bool, r: Outcome, ps: seq<Part>, end: End) {
    && EndsAs(e, r, end) && Left(st, over) == PartsTokens(ps) + Behind(r, end)
    && Legal(e, ps, Behind(r, end)) && r.kids == PartsTree(e, ps)
  }

  lemma AccountMeans(e: nat, st: State, over: bool, r: Outcome, ps: seq<Part>, end: End)
    requires Account(e, st, over, r, ps, end)
    ensures Left(st, over) == PartsTokens(ps) + Behind(r, end) && Legal(e, ps, Behind(r, end)) && r.kids == PartsTree(e, ps)
  {
    hide Legal, PartsTokens, PartsTree, GivesUp;
  }

  lemma Associate(a: seq<Token>, b: seq<Token>, c: seq<Token>)
    ensures a + b + c == a + (b + c)
  {
  }

  /** One more part in front. */
  lemma AccountMore(e: nat, st: State, over: bool, p: Part, r: Outcome, st': State, over': bool, ps: seq<Part>, end: End,
                    n: seq<Node>)
    requires Account(e, st', over', r, ps, end) && Left(st, over) == PartTokens(p) + Left(st', over')
    requires LegalPart(e, p, Left(st', over')) && PartTree(e, p) == n
    ensures Account(e, st, over, Outcome(n + r.kids, r.next), [p] + ps, end)
  {
    var all := [p] + ps;
    assert all[1..] == ps && all[0] == p;
    hide LegalPart, PartTokens, PartTree, GivesUp;
    Associate(PartTokens(p), PartsTokens(ps), Behind(r, end));
    AccountMeans(e, st', over', r, ps, end);
    assert Legal(e, all, Behind(r, end));
    assert PartsTokens(all) == PartTokens(p) + PartsTokens(ps);
    assert PartsTree(e, all) == n + PartsTree(e, ps);
  }

  lemma NoParts(e: nat)
    ensures PartsTokens([]) == [] && PartsTree(e, []) == [] && forall after :: Legal(e, [], after)
  {
  }

  /** Once the page is over nothing more is made, whatever end tag is in hand. */
  lemma {:induction false} NothingMore(e: nat, st: State)
    requires Ready(st) && MayBeOver(st)
    ensures Parse(e, st).kids == [] && MayBeOver(Parse(e, st).next)
  {
    hide Row, Rank, Model, Named, Allowable, TextHolder, TakesText, Shown;
    assert Parse(e, State(Finish, [])).kids == [] && MayBeOver(Parse(e, State(Finish, [])).next);
  }

  lemma EndedHere(e: nat, st: State, over: bool, r: Outcome, end: End)
    requires r.kids == [] && Left(st, over) == Behind(r, end)
    requires EndsAs(e, r, end)
    ensures Account(e, st, over, r, [], end)
  {
    NoParts(e);
    hide GivesUp, Legal, Named;
    assert [] + Behind(r, end) == Behind(r, end);
  }

  /** A child element and the parts after it. */
  lemma ChildAccount(e: nat, c: nat, attributes: seq<RawAttribute>, start: Option<string>, st: State, st1: State,
                     inner: Outcome, psI: seq<Part>, endI: End, rest: Outcome, psO: seq<Part>, endO: End) returns (p: Part)
    requires c < DOCUMENT && !inner.next.signal.Finish? && Account(c, st1, false, inner, psI, endI)
    requires Account(e, Resume(inner.next), endI.AtPageEnd?, rest, psO, endO)
    requires if start.Some? then Named(start.value) == Some(c) && Allowed(e, c)
             else attributes == [] && PartsTokens(psI) != [] && Supplied(e, c, PartsTokens(psI)[0])
    requires Left(st, false) == (if start.None? then [] else [Open(start.value, attributes)]) + Left(st1, false)
    ensures Account(e, st, false, Then(Branch(c, attributes, inner.kids), rest), [p] + psO, endO)
  {
    var over, st2 := endI.AtPageEnd?, Resume(inner.next);
    p := Child(c, attributes, start, psI, if endI.AtTag? then Some(endI.name) else None);
    var after := Left(st2, over);
    hide Legal, Named, GivesUp, Allowed, Supplied, PartsTokens, PartsTree;
    AccountMeans(c, st1, false, inner, psI, endI);
    assert StopTokens(p) + after == Behind(inner, endI) by {
      StopsBehind(inner, endI, p);
    }
    assert MayStop(c, after) || p.stop.Some? by {
      StopsWell(c, st1, inner, psI, endI);
    }
    StopNamed(c, st1, inner, psI, endI);
    assert LegalPart(e, p, after);
    Associate(PartsTokens(psI), StopTokens(p), after);
    Associate(StartTokens(p), PartsTokens(psI) + StopTokens(p), after);
    assert PartTokens(p) == StartTokens(p) + (PartsTokens(psI) + StopTokens(p));
    hide LegalPart, Account, PartTokens;
    AccountMore(e, st, false, p, rest, st2, over, psO, endO, [Branch(c, attributes, inner.kids)]);
  }

  lemma StopsBehind(inner: Outcome, endI: End, p: Part)
    requires !inner.next.signal.Finish? && p.Child? && p.stop == (if endI.AtTag? then Some(endI.name) else None)
    requires endI.AtTag? ==> inner.next.signal == Nothing
    requires endI.AtToken? ==> inner.next.signal.Got?
    ensures StopTokens(p) + Left(Resume(inner.next), endI.AtPageEnd?) == Behind(inner, endI)
  {
  }

  lemma StopsWell(c: nat, st: State, inner: Outcome, ps: seq<Part>, end: End)
    requires !inner.next.signal.Finish? && Account(c, st, false, inner, ps, end)
    ensures !end.AtTag? ==> MayStop(c, Left(Resume(inner.next), end.AtPageEnd?))
  {
    hide GivesUp, Legal, Named;
  }

  lemma StopNamed(c: nat, st: State, inner: Outcome, ps: seq<Part>, end: End)
    requires Account(c, st, false, inner, ps, end)
    ensures end.AtTag? ==> Named(end.name) == Some(c) && inner.next.signal == Nothing
    ensures end.AtToken? ==> inner.next.signal.Got?
    ensures end.AtPageEnd? ==> MayBeOver(inner.next)
  {
    hide GivesUp, Legal, Named;
  }

  /** An element that takes the token in hand does take it. */
  lemma TakesFirst(c: nat, t: Token, rest: seq<Token>, inner: Outcome, ps: seq<Part>, end: End)
    requires !t.Close? && Account(c, State(Got(t), rest), false, inner, ps, end)
    requires Weight(inner.next) < Weight(State(Got(t), rest))
    ensures PartsTokens(ps) != [] && PartsTokens(ps)[0] == t
  {
    AccountMeans(c, State(Got(t), rest), false, inner, ps, end);
    StopNamed(c, State(Got(t), rest), inner, ps, end);
    hide Account, PartsTokens, PartsTree, Legal;
    assert PartsTokens(ps) == [] ==> Behind(inner, end) == [t] + rest;
    assert ([t] + rest)[0] == t;
  }

  /** Whatever the tokens, what an element makes of them is accounted for, part by part. */
  lemma {:induction false} Accounted(e: nat, st: State, over: bool) returns (ps: seq<Part>, end: End)
    requires Ready(st) && (over ==> MayBeOver(st))
    ensures Account(e, st, over, Parse(e, st), ps, end)
    decreases Weight(st), Rank(e), 1
  {
    hide Row, Rank, Model, Named, Allowable, TextHolder, TakesText, Shown, Account, Legal, GivesUp;
    ps := [];
    var r := Parse(e, st);
    if over || st.signal.Finish? {
      end := AtPageEnd;
      NothingMore(e, st);
      EndedHere(e, st, over, r, end);
      return;
    }
    var t := st.signal.token;
    Gives(e, t);
    var skip := Advance(st.rest);
    if r == Outcome([], st) && GivesUp(e, t) {
      end := AtToken;
      EndedHere(e, st, over, r, end);
    } else if EndOf(e, t) {
      end := AtTag(t.name);
      EndedHere(e, st, over, r, end);
    } else if t.Words? && TakesText(e) {
      ps, end := Accounted(e, skip, false);
      KeptPart(e, st, Parse(e, skip), ps, end);
      ps := [Kept(t.text)] + ps;
    } else if t.Words? && !Blank(t.text) && TextHolder(e).Some? {
      ps, end := Inferred(e, TextHolder(e).value, t, st.rest);
    } else if t.Open? && Named(t.name).Some? && Allowed(e, Named(t.name).value) {
      ps, end := Entered(e, Named(t.name).value, t.name, t.attributes, st.rest);
    } else if t.Open? && Named(t.name).Some? && Allowable(e, Named(t.name).value).Some? {
      ps, end := Inferred(e, Allowable(e, Named(t.name).value).value, t, st.rest);
    } else {
      ps, end := Accounted(e, skip, false);
      DroppedPart(e, st, Parse(e, skip), ps, end);
      ps := [Dropped(t)] + ps;
    }
  }

  /** What giving up amounts to. */
  lemma Gives(e: nat, t: Token)
    ensures t.Words? ==>
      (GivesUp(e, t) <==> Row(e).endOptional && !TakesText(e) && !Blank(t.text) && TextHolder(e).None?)
    ensures t.Open? ==>
      (GivesUp(e, t) <==> Row(e).endOptional && Named(t.name).Some? && !Allowed(e, Named(t.name).value) &&
                          Allowable(e, Named(t.name).value).None?)
    ensures t.Close? ==> (GivesUp(e, t) <==> Row(e).endOptional && Named(t.name).Some? && Named(t.name).value != e)
  {
    hide Row, Named, Allowable, TextHolder, TakesText;
  }

  lemma KeptPart(e: nat, st: State, r: Outcome, ps: seq<Part>, end: End)
    requires st.signal.Got? && st.signal.token.Words? && TakesText(e) && Account(e, Advance(st.rest), false, r, ps, end)
    ensures Account(e, st, false, Then(Leaf(Shown(e, st.signal.token.text)), r), [Kept(st.signal.token.text)] + ps, end)
  {
    hide Row, Shown, Account, TakesText;
    var p := Kept(st.signal.token.text);
    assert Left(Advance(st.rest), false) == st.rest;
    AccountMore(e, st, false, p, r, Advance(st.rest), false, ps, end, [Leaf(Shown(e, p.text))]);
  }

  lemma DroppedPart(e: nat, st: State, r: Outcome, ps: seq<Part>, end: End)
    requires st.signal.Got? && Droppable(e, st.signal.token) && Account(e, Advance(st.rest), false, r, ps, end)
    ensures Account(e, st, false, r, [Dropped(st.signal.token)] + ps, end)
  {
    hide Row, Account, Droppable;
    var p := Dropped(st.signal.token);
    assert Left(Advance(st.rest), false) == st.rest;
    AccountMore(e, st, false, p, r, Advance(st.rest), false, ps, end, []);
    assert [] + r.kids == r.kids;
  }

  lemma {:induction false} Inferred(e: nat, c: nat, t: Token, rest: seq<Token>) returns (ps: seq<Part>, end: End)
    requires !t.Close? && c < DOCUMENT && Rank(c) < Rank(e) && Accepts(c, t) && Supplied(e, c, t)
    ensures var st := State(Got(t), rest); Account(e, st, false, Descend(e, c, [], st, Weight(st)), ps, end)
    decreases Weight(State(Got(t), rest)), Rank(e), 0
  {
    hide Rank, Parse, Account, Accepts, Supplied;
    var st := State(Got(t), rest);
    var inner := Parse(c, st);
    var psI, endI := Accounted(c, st, false);
    TakesFirst(c, t, rest, inner, psI, endI);
    StopNamed(c, st, inner, psI, endI);
    ps, end := Accounted(e, Resume(inner.next), endI.AtPageEnd?);
    assert Left(st, false) == [] + Left(st, false);
    var p := ChildAccount(e, c, [], None, st, st, inner, psI, endI, Parse(e, Resume(inner.next)), ps, end);
    ps := [p] + ps;
  }

  lemma {:induction false} Entered(e: nat, c: nat, name: string, attributes: seq<RawAttribute>, rest: seq<Token>)
    returns (ps: seq<Part>, end: End)
    requires Named(name) == Some(c) && Allowed(e, c)
    ensures var st := State(Got(Open(name, attributes)), rest);
            Account(e, st, false, Descend(e, c, attributes, Advance(rest), Weight(st)), ps, end)
    decreases Weight(State(Got(Open(name, attributes)), rest)), Rank(e), 0
  {
    NamedIff(name, c);
    hide Rank, Parse, Account, Named, Row;
    var st := State(Got(Open(name, attributes)), rest);
    var inner := Parse(c, Advance(rest));
    var psI, endI := Accounted(c, Advance(rest), false);
    StopNamed(c, Advance(rest), inner, psI, endI);
    ps, end := Accounted(e, Resume(inner.next), endI.AtPageEnd?);
    assert Left(Advance(rest), false) == rest;
    var p := ChildAccount(e, c, attributes, Some(name), st, Advance(rest), inner, psI, endI,
                          Parse(e, Resume(inner.next)), ps, end);
    ps := [p] + ps;
  }

  /** Every repaired page is accounted for: its tokens are, in order, those of the parts, and then those never read, the
      first of which the page as a whole gives up. */
  lemma PageAccounted(tokens: seq<Token>) returns (ps: seq<Part>, unread: seq<Token>)
    ensures tokens == PartsTokens(ps) + unread && Legal(DOCUMENT, ps, unread) && MayStop(DOCUMENT, unread)
    ensures Repaired(tokens) == PartsTree(DOCUMENT, ps)
  {
    var st := Advance(tokens);
    var end;
    ps, end := Accounted(DOCUMENT, st, false);
    var r := Parse(DOCUMENT, st);
    if end.AtTag? {
      NamedIff(end.name, DOCUMENT);
      assert false;
    }
    hide Parse, Legal, PartsTokens, PartsTree, GivesUp, Named;
    unread := Behind(r, end);
    assert Left(st, false) == tokens;
  }

  ghost predicate EndedBy(e: nat, st: State, before: seq<Token>, t: Token, rest: seq<Token>) {
    EndOf(e, t) && Left(st, false) == before + ([t] + rest)
  }

  /** An element whose end tag is required ends with the page or at an end tag of its own, and nowhere else. */
  lemma RequiredEnd(e: nat, st: State)
    requires Ready(st) && !Row(e).endOptional
    ensures var next := Parse(e, st).next;
            || (next.rest == [] && MayBeOver(next))
            || (next.signal == Nothing && exists before: seq<Token>, t :: EndedBy(e, st, before, t, next.rest))
  {
    hide Parse, Legal, PartsTokens, PartsTree, Named, Row;
    var ps, end := Accounted(e, st, false);
    var next := Parse(e, st).next;
    if end.AtTag? {
      assert Left(st, false) == PartsTokens(ps) + ([Close(end.name)] + next.rest);
      assert EndedBy(e, st, PartsTokens(ps), Close(end.name), next.rest);
    }
  }

  // ----- and only one -----

  /** The same children, and the same state behind them unless the page is over there. */
  ghost predicate Alike(a: Outcome, b: Outcome, after: seq<Token>) {
    a.kids == b.kids && (a.next == b.next || (after == [] && MayBeOver(a.next) && MayBeOver(b.next)))
  }

  lemma NextToken(t: Token, more: seq<Token>)
    ensures Advance([t] + more) == State(Got(t), more)
  {
    assert ([t] + more)[1..] == more;
  }

  /** An element that may stop here does. */
  lemma Stops(e: nat, after: seq<Token>)
    requires MayStop(e, after)
    ensures Parse(e, Advance(after)).kids == []
    ensures if after == [] then MayBeOver(Parse(e, Advance(after)).next) else Parse(e, Advance(after)).next == Advance(after)
  {
    if after == [] {
      NothingMore(e, Advance(after));
    } else {
      Gives(e, after[0]);
      hide Row, Rank, Model, Named, Allowable, TextHolder, TakesText, Shown, GivesUp;
    }
  }

  /** An element goes on after a child as it would without it. */
  lemma Rejoins(e: nat, c: nat, attributes: seq<RawAttribute>, inner: Outcome, kids: seq<Node>, after: seq<Token>)
    requires !inner.next.signal.Finish? && inner.kids == kids
    requires Resume(inner.next) == Advance(after) || (after == [] && MayBeOver(inner.next))
    ensures var on := Parse(e, Advance(after));
            Alike(Then(Branch(c, attributes, inner.kids), Parse(e, Resume(inner.next))),
                  Outcome([Branch(c, attributes, kids)] + on.kids, on.next), after)
  {
    hide Parse;
    if Resume(inner.next) != Advance(after) {
      NothingMore(e, Resume(inner.next));
      NothingMore(e, Advance([]));
    }
  }

  /** What an element does with a part and the tokens behind it. */
  lemma {:induction false} ReadsPart(e: nat, p: Part, after: seq<Token>)
    requires LegalPart(e, p, after)
    ensures var on := Parse(e, Advance(after));
            Alike(Parse(e, Advance(PartTokens(p) + after)), Outcome(PartTree(e, p) + on.kids, on.next), after)
    decreases p
  {
    match p
    case Kept(text) =>
      KeepsIt(e, text, after);
    case Dropped(t) =>
      hide Parse;
      NextToken(t, after);
      DropsIt(e, t, after);
      assert [] + Parse(e, Advance(after)).kids == Parse(e, Advance(after)).kids;
    case Child(c, attributes, start, inside, stop) =>
      ReadsParts(c, inside, StopTokens(p) + after);
      ReadsChild(e, p, after);
  }

  lemma ReadsChild(e: nat, p: Part, after: seq<Token>)
    requires p.Child? && LegalPart(e, p, after)
    requires var behind := StopTokens(p) + after;
             var on := Parse(p.element, Advance(behind));
             Alike(Parse(p.element, Advance(PartsTokens(p.inside) + behind)),
                   Outcome(PartsTree(p.element, p.inside) + on.kids, on.next), behind)
    ensures var on := Parse(e, Advance(after));
            Alike(Parse(e, Advance(PartTokens(p) + after)), Outcome(PartTree(e, p) + on.kids, on.next), after)
  {
    EndsChild(p.element, p, after);
    Descends(e, p, after);
    hide Parse, LegalPart, PartTokens, PartsTokens, PartsTree;
    var c, kids := p.element, PartsTree(p.element, p.inside);
    var inner := Parse(c, Advance(PartsTokens(p.inside) + (StopTokens(p) + after)));
    assert kids + [] == kids;
    Rejoins(e, c, p.attributes, inner, kids, after);
  }

  lemma KeepsIt(e: nat, text: seq<byte>, after: seq<Token>)
    requires LegalPart(e, Kept(text), after)
    ensures var on := Parse(e, Advance(after));
            Alike(Parse(e, Advance(PartTokens(Kept(text)) + after)),
                  Outcome(PartTree(e, Kept(text)) + on.kids, on.next), after)
  {
    NextToken(Words(text), after);
    hide Row, Rank, Model, Named, Allowable, TextHolder, TakesText, Shown;
  }

  lemma DropsIt(e: nat, t: Token, after: seq<Token>)
    requires Droppable(e, t)
    ensures Parse(e, State(Got(t), after)) == Parse(e, Advance(after))
  {
    hide Row, Rank, Model, Named, Allowable, TextHolder, TakesText, Shown;
  }

  lemma EndsChild(c: nat, p: Part, after: seq<Token>)
    requires p.Child? && (if p.stop.Some? then Named(p.stop.value) == Some(c) else MayStop(c, after))
    ensures var r := Parse(c, Advance(StopTokens(p) + after));
            r.kids == [] && (Resume(r.next) == Advance(after) || (after == [] && MayBeOver(r.next)))
  {
    if p.stop.Some? {
      NextToken(Close(p.stop.value), after);
      hide Row, Rank, Model, Named, Allowable, TextHolder, TakesText, Shown;
    } else {
      assert [] + after == after;
      Stops(c, after);
      hide Parse;
    }
  }

  lemma Descends(e: nat, p: Part, after: seq<Token>)
    requires p.Child? && LegalPart(e, p, after)
    ensures var st1 := Advance(PartsTokens(p.inside) + (StopTokens(p) + after));
            var inner := Parse(p.element, st1);
            Parse(e, Advance(PartTokens(p) + after)) ==
              Then(Branch(p.element, p.attributes, inner.kids), Parse(e, Resume(inner.next)))
  {
    var more := PartsTokens(p.inside) + (StopTokens(p) + after);
    Associate(PartsTokens(p.inside), StopTokens(p), after);
    Associate(StartTokens(p), PartsTokens(p.inside) + StopTokens(p), after);
    assert PartTokens(p) + after == StartTokens(p) + more;
    hide Legal, PartsTokens, PartTokens, GivesUp;
    if p.start.Some? {
      NextToken(Open(p.start.value, p.attributes), more);
      hide Row, Rank, Model, Named, Allowable, TextHolder, TakesText, Shown;
    } else {
      assert [] + more == more;
      assert more[0] == PartsTokens(p.inside)[0];
      hide Row, Rank, Model, Named, Allowable, TextHolder, TakesText, Shown;
    }
  }

  lemma AlikeMore(x: Outcome, first: seq<Node>, a: Outcome, b: Outcome, more: seq<Token>, after: seq<Token>)
    requires Alike(x, Outcome(first + a.kids, a.next), more) && Alike(a, b, after) && (more == [] ==> after == [])
    ensures Alike(x, Outcome(first + b.kids, b.next), after)
  {
  }

  lemma NodesAssociate3(a: seq<Node>, b: seq<Node>, c: seq<Node>)
    ensures a + (b + c) == a + b + c
  {
  }

  lemma {:induction false} ReadsParts(e: nat, ps: seq<Part>, after: seq<Token>)
    requires Legal(e, ps, after)
    ensures var on := Parse(e, Advance(after));
            Alike(Parse(e, Advance(PartsTokens(ps) + after)), Outcome(PartsTree(e, ps) + on.kids, on.next), after)
    decreases ps
  {
    var on := Parse(e, Advance(after));
    if ps == [] {
      assert PartsTokens(ps) + after == after && PartsTree(e, ps) + on.kids == on.kids;
    } else {
      var more := PartsTokens(ps[1..]) + after;
      ReadsPart(e, ps[0], more);
      ReadsParts(e, ps[1..], after);
      assert PartsTokens(ps) + after == PartTokens(ps[0]) + more by {
        Associate(PartTokens(ps[0]), PartsTokens(ps[1..]), after);
      }
      assert PartsTree(e, ps) == PartTree(e, ps[0]) + PartsTree(e, ps[1..]);
      hide Parse, LegalPart, Legal, PartTokens, PartsTokens, PartTree, PartsTree;
      var next := Parse(e, Advance(more));
      var rest := Outcome(PartsTree(e, ps[1..]) + on.kids, on.next);
      AlikeMore(Parse(e, Advance(PartTokens(ps[0]) + more)), PartTree(e, ps[0]), next, rest, more, after);
      NodesAssociate3(PartTree(e, ps[0]), PartsTree(e, ps[1..]), on.kids);
    }
  }

  /** An account of a page leaves no choice: any account gives the page the parser makes. */
  lemma AccountDecides(ps: seq<Part>, unread: seq<Token>)
    requires Legal(DOCUMENT, ps, unread) && MayStop(DOCUMENT, unread)
    ensures Repaired(PartsTokens(ps) + unread) == PartsTree(DOCUMENT, ps)
  {
    ReadsParts(DOCUMENT, ps, unread);
    Stops(DOCUMENT, unread);
    hide Parse, Legal, PartsTokens, PartsTree, MayStop;
    assert PartsTree(DOCUMENT, ps) + [] == PartsTree(DOCUMENT, ps);
  }

  // ----- tags of no known element -----

  function KnownOnly(ts: seq<Token>): seq<Token> {
    if ts == [] then [] else (if Unknown(ts[0]) then [] else [ts[0]]) + KnownOnly(ts[1..])
  }

  lemma {:induction false} KnownJoin(a: seq<Token>, b: seq<Token>)
    ensures KnownOnly(a + b) == KnownOnly(a) + KnownOnly(b)
  {
    hide Unknown;
    if a == [] {
      assert a + b == b;
    } else {
      assert (a + b)[1..] == a[1..] + b;
      KnownJoin(a[1..], b);
    }
  }

  function StripPart(p: Part): seq<Part>
    decreases p
  {
    match p
    case Kept(_) => [p]
    case Dropped(t) => if Unknown(t) then [] else [p]
    case Child(c, attributes, start, inside, stop) => [Child(c, attributes, start, Strip(inside), stop)]
  }

  function Strip(ps: seq<Part>): seq<Part>
    decreases ps
  {
    if ps == [] then [] else StripPart(ps[0]) + Strip(ps[1..])
  }

  lemma KnownOne(t: Token)
    ensures KnownOnly([t]) == if Unknown(t) then [] else [t]
  {
    hide Unknown;
    assert [t][1..] == [];
  }

  lemma {:induction false} PartsJoin(e: nat, a: seq<Part>, b: seq<Part>)
    ensures PartsTokens(a + b) == PartsTokens(a) + PartsTokens(b)
    ensures PartsTree(e, a + b) == PartsTree(e, a) + PartsTree(e, b)
    decreases |a|
  {
    if a == [] {
      assert a + b == b;
    } else {
      assert (a + b)[1..] == a[1..] + b;
      PartsJoin(e, a[1..], b);
      hide PartTokens, PartTree;
      Associate(PartTokens(a[0]), PartsTokens(a[1..]), PartsTokens(b));
      NodesAssociate3(PartTree(e, a[0]), PartsTree(e, a[1..]), PartsTree(e, b));
    }
  }

  lemma OnePart(e: nat, p: Part)
    ensures PartsTokens([p]) == PartTokens(p) && PartsTree(e, [p]) == PartTree(e, p)
    ensures forall after :: LegalPart(e, p, after) ==> Legal(e, [p], after)
  {
    assert [p][1..] == [];
    assert PartTokens(p) + [] == PartTokens(p) && PartTree(e, p) + [] == PartTree(e, p);
    hide LegalPart, PartTokens, PartTree;
    forall after | LegalPart(e, p, after)
      ensures Legal(e, [p], after)
    {
      assert [] + after == after;
    }
  }

  lemma {:induction false} LegalJoin(e: nat, a: seq<Part>, b: seq<Part>, after: seq<Token>)
    requires Legal(e, a, PartsTokens(b) + after) && Legal(e, b, after)
    ensures Legal(e, a + b, after)
    decreases |a|
  {
    if a == [] {
      assert a + b == b;
    } else {
      assert (a + b)[1..] == a[1..] + b;
      hide LegalPart, PartTokens;
      LegalJoin(e, a[1..], b, after);
      PartsJoin(e, a[1..], b);
      Associate(PartsTokens(a[1..]), PartsTokens(b), after);
    }
  }

  lemma {:induction false} StripPartKeeps(e: nat, p: Part, after: seq<Token>)
    requires LegalPart(e, p, after)
    ensures Legal(e, StripPart(p), KnownOnly(after)) && PartsTree(e, StripPart(p)) == PartTree(e, p)
    ensures PartsTokens(StripPart(p)) == KnownOnly(PartTokens(p))
    decreases p
  {
    match p
    case Kept(text) =>
      OnePart(e, p);
      KnownOne(Words(text));
    case Dropped(t) =>
      OnePart(e, p);
      KnownOne(t);
      hide Unknown, Accepts;
    case Child(c, attributes, start, inside, stop) =>
      StripKeeps(c, inside, StopTokens(p) + after);
      StripChild(e, p, after);
  }

  lemma TagsKnown(e: nat, p: Part, after: seq<Token>)
    requires p.Child? && LegalPart(e, p, after)
    ensures KnownOnly(StartTokens(p)) == StartTokens(p) && KnownOnly(StopTokens(p)) == StopTokens(p)
    ensures MayStop(p.element, after) ==> MayStop(p.element, KnownOnly(after))
    ensures p.start.None? ==> KnownOnly(PartsTokens(p.inside)) != [] &&
                              KnownOnly(PartsTokens(p.inside))[0] == PartsTokens(p.inside)[0]
  {
    hide Named, Row, Accepts, Legal, PartsTokens;
    if p.start.Some? { KnownOne(Open(p.start.value, p.attributes)); }
    if p.stop.Some? { KnownOne(Close(p.stop.value)); }
    if MayStop(p.element, after) && after != [] {
      assert !Unknown(after[0]) by {
        Gives(p.element, after[0]);
      }
    }
    if p.start.None? {
      assert !Unknown(PartsTokens(p.inside)[0]);
    }
  }

  lemma StripChild(e: nat, p: Part, after: seq<Token>)
    requires p.Child? && LegalPart(e, p, after)
    requires Legal(p.element, Strip(p.inside), KnownOnly(StopTokens(p) + after))
    requires PartsTree(p.element, Strip(p.inside)) == PartsTree(p.element, p.inside)
    requires PartsTokens(Strip(p.inside)) == KnownOnly(PartsTokens(p.inside))
    ensures Legal(e, StripPart(p), KnownOnly(after)) && PartsTree(e, StripPart(p)) == PartTree(e, p)
    ensures PartsTokens(StripPart(p)) == KnownOnly(PartTokens(p))
  {
    var q := Child(p.element, p.attributes, p.start, Strip(p.inside), p.stop);
    TagsKnown(e, p, after);
    KnownJoin(StopTokens(p), after);
    assert StopTokens(q) == StopTokens(p) && StartTokens(q) == StartTokens(p);
    assert LegalPart(e, q, KnownOnly(after)) by {
      hide Named, Allowed, Supplied, GivesUp, KnownOnly, Strip, Legal, PartsTokens, PartsTree;
    }
    OnePart(e, q);
    KnownJoin(StartTokens(p), PartsTokens(p.inside) + StopTokens(p));
    KnownJoin(PartsTokens(p.inside), StopTokens(p));
    hide LegalPart, Legal, PartsTokens, PartsTree, KnownOnly, Strip;
  }

  lemma {:induction false} StripKeeps(e: nat, ps: seq<Part>, after: seq<Token>)
    requires Legal(e, ps, after)
    ensures Legal(e, Strip(ps), KnownOnly(after)) && PartsTree(e, Strip(ps)) == PartsTree(e, ps)
    ensures PartsTokens(Strip(ps)) == KnownOnly(PartsTokens(ps))
    decreases ps
  {
    if ps != [] {
      var more := PartsTokens(ps[1..]) + after;
      StripPartKeeps(e, ps[0], more);
      StripKeeps(e, ps[1..], after);
      KnownJoin(PartTokens(ps[0]), PartsTokens(ps[1..]));
      KnownJoin(PartsTokens(ps[1..]), after);
      hide Legal, LegalPart, PartTokens, KnownOnly, StripPart, PartTree;
      PartsJoin(e, StripPart(ps[0]), Strip(ps[1..]));
      LegalJoin(e, StripPart(ps[0]), Strip(ps[1..]), KnownOnly(after));
    }
  }

  /** Tags of no known element make no difference anywhere on a page. */
  lemma UnknownIgnored(tokens: seq<Token>)
    ensures Repaired(KnownOnly(tokens)) == Repaired(tokens)
  {
    hide Repaired, Legal, PartsTokens, PartsTree, Strip, KnownOnly;
    var ps, unread := PageAccounted(tokens);
    StripKeeps(DOCUMENT, ps, unread);
    KnownJoin(PartsTokens(ps), unread);
    assert MayStop(DOCUMENT, KnownOnly(unread)) by {
      StopKnown(unread);
    }
    AccountDecides(Strip(ps), KnownOnly(unread));
  }

  lemma StopKnown(unread: seq<Token>)
    requires MayStop(DOCUMENT, unread)
    ensures MayStop(DOCUMENT, KnownOnly(unread))
  {
    if unread != [] {
      Gives(DOCUMENT, unread[0]);
      hide GivesUp, Named, Row;
    }
  }

  // ----- a stray end tag inside an element that requires its own -----

  lemma AroundDropped(e: nat, x: seq<byte>, t: Token, y: seq<byte>, after: seq<Token>)
    requires TakesText(e) && Droppable(e, t)
    ensures var ps := [Kept(x), Dropped(t), Kept(y)];
            && Legal(e, ps, after) && PartsTokens(ps) == [Words(x), t, Words(y)]
            && PartsTree(e, ps) == [Leaf(Shown(e, x)), Leaf(Shown(e, y))]
  {
    hide TakesText, Droppable, Shown, Legal, PartsTokens, PartsTree;
    NoParts(e);
    PartBefore(e, Kept(y), [], after);
    assert [Kept(y)] + [] == [Kept(y)];
    PartBefore(e, Dropped(t), [Kept(y)], after);
    assert [Dropped(t)] + [Kept(y)] == [Dropped(t), Kept(y)];
    PartBefore(e, Kept(x), [Dropped(t), Kept(y)], after);
    assert [Kept(x)] + [Dropped(t), Kept(y)] == [Kept(x), Dropped(t), Kept(y)];
  }

  lemma PartBefore(e: nat, p: Part, ps: seq<Part>, after: seq<Token>)
    requires LegalPart(e, p, PartsTokens(ps) + after) && Legal(e, ps, after)
    ensures Legal(e, [p] + ps, after)
    ensures PartsTokens([p] + ps) == PartTokens(p) + PartsTokens(ps)
    ensures PartsTree(e, [p] + ps) == PartTree(e, p) + PartsTree(e, ps)
  {
    assert ([p] + ps)[1..] == ps;
    hide LegalPart, PartTokens, PartTree;
  }

  /** An element that holds one part and ends with the page. */
  lemma Around(e: nat, c: nat, name: string, q: Part) returns (p: Part)
    requires Named(name) == Some(c) && c < DOCUMENT && Allowed(e, c) && LegalPart(c, q, [])
    ensures LegalPart(e, p, []) && PartTokens(p) == [Open(name, [])] + PartTokens(q)
    ensures PartTree(e, p) == [Branch(c, [], PartTree(c, q))]
  {
    hide Named, Allowed;
    p := Child(c, [], Some(name), [q], None);
    OnePart(c, q);
    hide Legal, PartsTokens, PartsTree;
    assert PartTokens(q) + [] == PartTokens(q);
  }

  /** The same with its start tag supplied. */
  lemma AroundSupplied(e: nat, c: nat, q: Part) returns (p: Part)
    requires c < DOCUMENT && LegalPart(c, q, []) && PartTokens(q) != [] && Supplied(e, c, PartTokens(q)[0])
    ensures LegalPart(e, p, []) && PartTokens(p) == PartTokens(q) && PartTree(e, p) == [Branch(c, [], PartTree(c, q))]
  {
    hide Supplied;
    p := Child(c, [], None, [q], None);
    OnePart(c, q);
    hide Legal, PartsTokens, PartsTree;
    assert [] + (PartTokens(q) + []) == PartTokens(q);
  }

  lemma BoldPart(x: seq<byte>, name: string, y: seq<byte>) returns (p: Part)
    requires Named(name).Some? && Named(name).value != B
    ensures LegalPart(BODY, p, [])
    ensures PartTokens(p) == [Open("B", [])] + ([Words(x), Close(name), Words(y)] + [Close("B")])
    ensures PartTree(BODY, p) == [Branch(B, [], [Leaf(Shown(B, x)), Leaf(Shown(B, y))])]
  {
    BodyNamed();
    assert !Row(B).endOptional && TakesText(B) && Allowed(BODY, B);
    hide Row, Named, Allowable, TextHolder, Shown, Model, TakesText, Allowed, Legal, PartsTokens, PartsTree;
    AroundDropped(B, x, Close(name), y, [Close("B")] + []);
    p := Child(B, [], Some("B"), [Kept(x), Dropped(Close(name)), Kept(y)], Some("B"));
  }

  /** Text on both sides of an end tag that is not B's stays in B. */
  lemma StrayInBold(x: seq<byte>, name: string, y: seq<byte>)
    requires Named(name).Some? && Named(name).value != B
    ensures Repaired([Open("BODY", [])] + ([Open("B", [])] + ([Words(x), Close(name), Words(y)] + [Close("B")]))) ==
            [Branch(HTML, [], [Branch(BODY, [], [Branch(B, [], [Leaf(Shown(B, x)), Leaf(Shown(B, y))])])])]
  {
    BodyNamed();
    BodyPlace();
    hide Row, Named, Allowable, TextHolder, Shown, Model, TakesText, Allowed, LegalPart, PartTokens, PartTree, Repaired;
    var b := BoldPart(x, name, y);
    var body := Around(HTML, BODY, "BODY", b);
    var html := AroundSupplied(DOCUMENT, HTML, body);
    OnePart(DOCUMENT, html);
    hide Legal, PartsTokens, PartsTree;
    AccountDecides([html], []);
    assert PartTokens(html) + [] == PartTokens(html);
  }

  // ----- what collapsing spaces keeps -----

  /** The bytes that are not spaces, each with whether a space stands before it. */
  function Spaced(text: seq<byte>, after: bool): seq<(byte, bool)> {
    if text == [] then [] else if IsSpace(text[0]) then Spaced(text[1..], true)
    else [(text[0], after)] + Spaced(text[1..], false)
  }

  predicate EndsInSpace(text: seq<byte>, spaced: bool) { if text == [] then spaced else IsSpace(text[|text| - 1]) }

  /** Every space is a blank, and none follows another. */
  predicate SingleBlanks(text: seq<byte>, spaced: bool) {
    text == [] || (if IsSpace(text[0]) then text[0] == 32 && !spaced && SingleBlanks(text[1..], true)
                   else SingleBlanks(text[1..], false))
  }

  /** Collapsing keeps every other byte, and every gap and the end as they were; what is left of a gap is one blank. */
  lemma {:induction false} CollapseKeeps(text: seq<byte>, spaced: bool)
    ensures var r := Collapse(text, spaced);
            && Spaced(r, spaced) == Spaced(text, spaced) && EndsInSpace(r, spaced) == EndsInSpace(text, spaced)
            && SingleBlanks(r, spaced)
  {
    if text != [] {
      var x, rest := text[0], text[1..];
      var r := Collapse(text, spaced);
      CollapseKeeps(rest, IsSpace(x));
      if IsSpace(x) && spaced {
        assert r == Collapse(rest, true);
      } else {
        assert r[1..] == Collapse(rest, IsSpace(x));
      }
    }
  }

  lemma BeginsSpaced(a: seq<byte>, spaced: bool)
    requires a != [] && SingleBlanks(a, spaced)
    ensures var sp := Spaced(a, spaced);
            if !IsSpace(a[0]) then sp != [] && sp[0] == (a[0], spaced) && sp[1..] == Spaced(a[1..], false)
            else !spaced && sp == Spaced(a[1..], true) && if |a| == 1 then sp == [] else sp != [] && sp[0].1
    ensures |a| == 1 ==> EndsInSpace(a, spaced) == IsSpace(a[0])
    ensures EndsInSpace(a, spaced) == EndsInSpace(a[1..], IsSpace(a[0]))
  {
    if IsSpace(a[0]) && |a| > 1 {
      assert !IsSpace(a[1..][0]);
    }
  }

  /** And there is only one such text. */
  lemma {:induction false} CollapsedOnce(a: seq<byte>, b: seq<byte>, spaced: bool)
    requires SingleBlanks(a, spaced) && SingleBlanks(b, spaced)
    requires Spaced(a, spaced) == Spaced(b, spaced) && EndsInSpace(a, spaced) == EndsInSpace(b, spaced)
    ensures a == b
    decreases |a| + |b|
  {
    if a != [] { BeginsSpaced(a, spaced); }
    if b != [] { BeginsSpaced(b, spaced); }
    if a != [] && b != [] {
      assert a == [a[0]] + a[1..] && b == [b[0]] + b[1..];
      CollapsedOnce(a[1..], b[1..], IsSpace(a[0]));
    }
  }
}
