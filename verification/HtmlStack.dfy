/** The page parser as a machine over the stack of open elements, and exactly when it leaves a page half read. */
module HtmlStack {
  import opened BitStrings
  import opened Options
  import opened HtmlTables
  import opened HtmlRepair

  /** The open elements, outermost first, and what the innermost looks at. */
  datatype Config = Config(chain: seq<nat>, st: State)

  predicate Sound(c: Config) { c.chain != [] ==> Ready(c.st) }

  /** The innermost element ends and hands `next` out. */
  function Pop(chain: seq<nat>, next: State): (c: Config)
    requires chain != [] && !next.signal.Finish?
    ensures Sound(c) && |c.chain| == |chain| - 1 && Weight(c.st) <= Weight(next)
  {
    Config(chain[..|chain| - 1], if |chain| == 1 then next else Resume(next))
  }

  function Push(chain: seq<nat>, e: nat, st: State): (c: Config)
    requires Ready(st)
    ensures Sound(c) && c.chain != []
  {
    Config(chain + [e], st)
  }

  /** One turn of the innermost element's loop. */
  function Step(c: Config): (r: Config)
    requires c.chain != [] && Ready(c.st)
    ensures Sound(r)
  {
    var e := c.chain[|c.chain| - 1];
    var rest := c.st.rest;
    var skip := Config(c.chain, Advance(rest));
    match c.st.signal
    case Finish => Pop(c.chain, State(Got(Close(Row(e).name)), rest))
    case Got(Words(text)) =>
      if TakesText(e) || Blank(text) then skip
      else if TextHolder(e).Some? then Push(c.chain, TextHolder(e).value, c.st)
      else if Row(e).endOptional then Pop(c.chain, c.st)
      else skip
    case Got(Open(name, _)) =>
      var t := Named(name);
      if t.None? then skip
      else if Allowed(e, t.value) then Push(c.chain, t.value, Advance(rest))
      else if Allowable(e, t.value).Some? then Push(c.chain, Allowable(e, t.value).value, c.st)
      else if Row(e).endOptional then Pop(c.chain, c.st)
      else skip
    case Got(Close(name)) =>
      var t := Named(name);
      if t.None? then skip
      else if t.value == e then Pop(c.chain, State(Nothing, rest))
      else if Row(e).endOptional then Pop(c.chain, c.st)
      else skip
  }

  /** What the outermost element hands back in the end. */
  ghost function Unwind(c: Config): (st: State)
    requires Sound(c)
    decreases |c.chain|
  {
    if c.chain == [] then c.st
    else Unwind(Pop(c.chain, Parse(c.chain[|c.chain| - 1], c.st).next))
  }

  lemma UnwindPush(chain: seq<nat>, e: nat, st: State)
    requires Ready(st) && chain != []
    ensures Unwind(Push(chain, e, st)) == Unwind(Config(chain, Resume(Parse(e, st).next)))
  {
    hide Parse;
    assert (chain + [e])[..|chain|] == chain;
  }

  /** A turn that neither opens nor ends an element. */
  lemma TurnStays(c: Config)
    requires c.chain != [] && Ready(c.st) && |Step(c).chain| == |c.chain|
    ensures Step(c).chain == c.chain
    ensures var e := c.chain[|c.chain| - 1]; Parse(e, Step(c).st).next == Parse(e, c.st).next
  {
    hide Row, Rank, Model, Named, Allowable, TextHolder, TakesText, Shown, Weight;
  }

  lemma TurnOpens(c: Config)
    requires c.chain != [] && Ready(c.st) && |Step(c).chain| > |c.chain|
    ensures var e, m := c.chain[|c.chain| - 1], Step(c).chain[|c.chain|];
            Step(c) == Push(c.chain, m, Step(c).st) && Ready(Step(c).st) &&
            Parse(e, c.st).next == Parse(e, Resume(Parse(m, Step(c).st).next)).next
  {
    hide Row, Rank, Model, Named, Allowable, TextHolder, TakesText, Shown, Weight;
  }

  lemma TurnEnds(c: Config)
    requires c.chain != [] && Ready(c.st) && |Step(c).chain| < |c.chain|
    ensures Step(c) == Pop(c.chain, Parse(c.chain[|c.chain| - 1], c.st).next)
  {
    hide Row, Rank, Model, Named, Allowable, TextHolder, TakesText, Shown, Weight;
  }

  /** The machine does what the recursive parser does. */
  lemma StepKeeps(c: Config)
    requires c.chain != [] && Ready(c.st)
    ensures Unwind(Step(c)) == Unwind(c)
  {
    hide Parse, Step, Weight;
    var r := Step(c);
    if |r.chain| > |c.chain| {
      TurnOpens(c);
      UnwindPush(c.chain, r.chain[|c.chain|], r.st);
    } else if |r.chain| < |c.chain| {
      TurnEnds(c);
    } else {
      TurnStays(c);
    }
  }

  // ----- a token every open element gives up on -----

  /** The element's end tag is optional, neither it nor an element inferred inside it has a place for the token, and
      the token is neither ignored nor the element's end tag. */
  predicate GivesUp(e: nat, t: Token) {
    && Row(e).endOptional && !Accepts(e, t)
    && match t
       case Words(text) => !Blank(text)
       case Open(_, _) => true
       case Close(name) => Named(name).Some? && Named(name).value != e
  }

  lemma ParseGivesUp(e: nat, t: Token, rest: seq<Token>)
    requires rest != []
    ensures GivesUp(e, t) ==> Parse(e, State(Got(t), rest)).next == State(Got(t), rest)
    ensures !GivesUp(e, t) ==> Weight(Parse(e, State(Got(t), rest)).next) < Weight(State(Got(t), rest))
  {
    hide Row, Rank, Model, Named, Allowable, TextHolder, TakesText, Shown;
  }

  lemma {:induction false} UnwindWeight(c: Config)
    requires Sound(c)
    ensures Weight(Unwind(c)) <= Weight(c.st) || Weight(Unwind(c)) <= 1
    decreases |c.chain|
  {
    hide Parse;
    if c.chain != [] {
      UnwindWeight(Pop(c.chain, Parse(c.chain[|c.chain| - 1], c.st).next));
    }
  }

  /** With tokens left to read, the next one is handed out of all the open elements, and the rest left unread, exactly
      when each of them gives up on it. */
  lemma {:induction false} HandedOut(chain: seq<nat>, t: Token, rest: seq<Token>)
    requires rest != []
    ensures Unwind(Config(chain, State(Got(t), rest))) == State(Got(t), rest) <==> forall e :: e in chain ==> GivesUp(e, t)
    decreases |chain|
  {
    hide Parse, GivesUp;
    if chain != [] {
      var e := chain[|chain| - 1];
      var st := State(Got(t), rest);
      ParseGivesUp(e, t, rest);
      var outer := chain[..|chain| - 1];
      assert chain == outer + [e];
      if GivesUp(e, t) {
        HandedOut(outer, t, rest);
      } else {
        UnwindWeight(Pop(chain, Parse(e, st).next));
      }
    }
  }

  // ----- whole pages -----

  ghost function Run(c: Config, n: nat): (r: Config)
    requires Sound(c)
    ensures Sound(r)
    decreases n
  {
    if n == 0 || c.chain == [] then c else Run(Step(c), n - 1)
  }

  lemma {:induction false} RunKeeps(c: Config, n: nat)
    requires Sound(c)
    ensures Unwind(Run(c, n)) == Unwind(c)
    decreases n
  {
    hide Step, Unwind;
    if n > 0 && c.chain != [] {
      StepKeeps(c);
      RunKeeps(Step(c), n - 1);
    }
  }

  /** All the open elements give up on the next token. */
  ghost predicate Stuck(c: Config, t: Token, rest: seq<Token>) {
    c.chain != [] && c.st == State(Got(t), rest) && forall e :: e in c.chain ==> GivesUp(e, t)
  }

  /** Which of two stages the machine is in: opening elements down to one that takes the token, or giving up on it. */
  predicate Opening(c: Config)
    requires c.chain != []
  {
    c.st.signal.Got? && Accepts(c.chain[|c.chain| - 1], c.st.signal.token)
  }

  function Depth(c: Config): nat
    requires c.chain != []
  {
    if Opening(c) then Rank(c.chain[|c.chain| - 1]) else |c.chain|
  }

  function Stage(c: Config): nat
    requires c.chain != []
  {
    if Opening(c) then 0 else 1
  }

  lemma StepDrops(c: Config)
    requires c.chain != [] && Ready(c.st) && Weight(c.st) >= 2 && Step(c).chain != []
    ensures var r := Step(c);
            || Weight(r.st) < Weight(c.st)
            || (Weight(r.st) == Weight(c.st) && Stage(r) < Stage(c))
            || (Weight(r.st) == Weight(c.st) && Stage(r) == Stage(c) && Depth(r) < Depth(c))
  {
    hide Row, Rank, Model, Named, Allowable, TextHolder, TakesText;
  }

  lemma LastPop(c: Config)
    requires c.chain != [] && Ready(c.st) && Weight(c.st) >= 2 && Step(c).chain == []
    ensures Step(c).st.signal.Nothing? || Step(c).st == c.st
  {
    hide Row, Rank, Model, Named, Allowable, TextHolder, TakesText;
  }

  lemma {:induction false} GetsStuck(c: Config, t: Token, rest: seq<Token>) returns (n: nat)
    requires c.chain != [] && Ready(c.st) && rest != [] && Unwind(c) == State(Got(t), rest)
    ensures Stuck(Run(c, n), t, rest)
    decreases Weight(c.st), Stage(c), Depth(c)
  {
    hide Step, Unwind, GivesUp;
    if c.st == State(Got(t), rest) {
      HandedOut(c.chain, t, rest);
      n := 0;
    } else {
      UnwindWeight(c);
      StepKeeps(c);
      if Step(c).chain == [] {
        LastPop(c);
        assert Unwind(Step(c)) == Step(c).st by {
          EmptyUnwind(Step(c));
        }
        assert false;
      }
      StepDrops(c);
      n := GetsStuck(Step(c), t, rest);
      n := n + 1;
    }
  }

  lemma EmptyUnwind(c: Config)
    requires c.chain == []
    ensures Unwind(c) == c.st
  {
  }

  /** Exactly when a page ends early: with `rest` still unread, the parser is done as soon as all the elements then open
      give up on the next token, and not otherwise. */
  lemma EndsEarly(tokens: seq<Token>, t: Token, rest: seq<Token>)
    requires rest != []
    ensures Parse(DOCUMENT, Advance(tokens)).next == State(Got(t), rest) <==>
            exists n: nat :: Stuck(Run(Config([DOCUMENT], Advance(tokens)), n), t, rest)
  {
    hide Parse, GivesUp;
    var c := Config([DOCUMENT], Advance(tokens));
    assert Unwind(c) == Parse(DOCUMENT, c.st).next;
    hide Unwind;
    if Unwind(c) == State(Got(t), rest) {
      var n := GetsStuck(c, t, rest);
    }
    forall n: nat | Stuck(Run(c, n), t, rest)
      ensures Unwind(c) == State(Got(t), rest)
    {
      RunKeeps(c, n);
      HandedOut(Run(c, n).chain, t, rest);
    }
  }

  /** Only the end tag of a known element, or a start tag that fits nowhere, ends a page early. */
  lemma EndsAtStray(tokens: seq<Token>, t: Token, rest: seq<Token>, n: nat)
    requires rest != [] && Stuck(Run(Config([DOCUMENT], Advance(tokens)), n), t, rest)
    ensures Stray(t)
  {
    hide Parse, Stuck, Run, Stray;
    EndsEarly(tokens, t, rest);
    StopsOnlyAtStray(Advance(tokens));
  }

  lemma BodyNamed()
    ensures Named("BODY") == Some(BODY) && Named("B") == Some(B)
  {
    assert Row(BODY).name == "BODY" && Row(B).name == "B";
    hide Row, NamedFrom;
    OwnName(BODY);
    OwnName(B);
  }

  lemma BodyPlace()
    ensures TakesText(BODY) && Row(BODY).endOptional && Row(HTML).endOptional && Row(DOCUMENT).endOptional
    ensures Allowed(HTML, BODY) && !Allowed(DOCUMENT, BODY) && Allowable(DOCUMENT, BODY) == Some(HTML)
  {
    hide Allowable;
    OnlyAllowable(DOCUMENT, HTML, BODY);
  }

  lemma OnlyAllowable(e: nat, m: nat, c: nat)
    requires Model(e) == [m] && Row(m).startOptional && Allowed(m, c)
    ensures Allowable(e, c) == Some(m)
  {
    hide Row, Model, Rank;
    assert AllowableFrom(e, c, 0) == Some(m);
  }

  lemma EndGivenUp(e: nat, name: string, more: seq<Token>)
    requires Row(e).endOptional && Named(name).Some? && Named(name).value != e
    ensures Parse(e, State(Got(Close(name)), more)) == Outcome([], State(Got(Close(name)), more))
  {
    hide Row, Rank, Model, Named, Allowable, TextHolder, TakesText, Shown;
  }

  /** An element that takes text, its text, and then a known end tag that is not its own. */
  lemma TextThenEnd(e: nat, text: seq<byte>, name: string, more: seq<Token>)
    requires TakesText(e) && Row(e).endOptional && Named(name).Some? && Named(name).value != e
    ensures Parse(e, Advance([Words(text), Close(name)] + more)) ==
            Outcome([Leaf(Shown(e, text))], State(Got(Close(name)), more))
  {
    hide Row, Rank, Model, Named, Allowable, TextHolder, TakesText, Shown;
    var tokens := [Words(text), Close(name)] + more;
    assert tokens[1..] == [Close(name)] + more;
    assert tokens[1..][1..] == more;
    EndGivenUp(e, name, more);
  }

  /** One element inside another whose first tag it was, when the inner one hands out what the outer gives up on. */
  lemma TagThenEnd(e: nat, c: nat, open: string, rest: seq<Token>, inner: seq<Node>, name: string, more: seq<Token>)
    requires Named(open) == Some(c) && Allowed(e, c) && Row(e).endOptional && Named(name).Some? && Named(name).value != e
    requires Parse(c, Advance(rest)) == Outcome(inner, State(Got(Close(name)), more))
    ensures Parse(e, State(Got(Open(open, [])), rest)) ==
            Outcome([Branch(c, [], inner)], State(Got(Close(name)), more))
  {
    EndGivenUp(e, name, more);
    hide Row, Rank, Model, Named, Allowable, TextHolder, TakesText, Shown;
  }

  lemma InferredThenEnd(e: nat, m: nat, c: nat, open: string, rest: seq<Token>, inner: seq<Node>, name: string, more: seq<Token>)
    requires Named(open) == Some(c) && !Allowed(e, c) && Allowable(e, c) == Some(m)
    requires Row(e).endOptional && Named(name).Some? && Named(name).value != e
    requires Parse(m, State(Got(Open(open, [])), rest)) == Outcome(inner, State(Got(Close(name)), more))
    ensures Parse(e, State(Got(Open(open, [])), rest)) ==
            Outcome([Branch(m, [], inner)], State(Got(Close(name)), more))
  {
    EndGivenUp(e, name, more);
    hide Row, Rank, Model, Named, Allowable, TextHolder, TakesText, Shown;
  }

  /** A body with text, then the end tag of any known element but BODY and HTML: the page ends there. */
  lemma BodyEndsEarly(text: seq<byte>, name: string, more: seq<Token>)
    requires Named(name).Some? && Named(name).value != BODY && Named(name).value != HTML
    ensures Parse(DOCUMENT, Advance([Open("BODY", []), Words(text), Close(name)] + more)) ==
            Outcome([Branch(HTML, [], [Branch(BODY, [], [Leaf(Shown(BODY, text))])])], State(Got(Close(name)), more))
  {
    BodyPlace();
    BodyNamed();
    NamedIff(name, DOCUMENT);
    hide Row, Named, Allowable, TakesText, Shown, Parse, Model;
    TextThenEnd(BODY, text, name, more);
    var tokens := [Open("BODY", []), Words(text), Close(name)] + more;
    var rest := [Words(text), Close(name)] + more;
    assert tokens[1..] == rest;
    TagThenEnd(HTML, BODY, "BODY", rest, [Leaf(Shown(BODY, text))], name, more);
    InferredThenEnd(DOCUMENT, HTML, BODY, "BODY", rest, [Branch(BODY, [], [Leaf(Shown(BODY, text))])], name, more);
  }

  /** The page <BODY>text</B>more: everything after the stray end tag is lost. */
  lemma LosesRestOfPage(text: seq<byte>, more: seq<byte>)
    ensures Repaired([Open("BODY", []), Words(text), Close("B"), Words(more)]) ==
            [Branch(HTML, [], [Branch(BODY, [], [Leaf(Shown(BODY, text))])])]
  {
    BodyNamed();
    hide Parse, Named, Row;
    BodyEndsEarly(text, "B", [Words(more)]);
    assert [Open("BODY", []), Words(text), Close("B")] + [Words(more)] ==
           [Open("BODY", []), Words(text), Close("B"), Words(more)];
  }
}
