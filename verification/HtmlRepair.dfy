/** What the page parser makes of any stream of tokens, and why every page it writes is well formed. */
module HtmlRepair {
  import opened BitStrings
  import opened Options
  import opened HtmlTables

  datatype RawAttribute = RawAttribute(name: string, value: seq<byte>)

  datatype Token =
    | Words(text: seq<byte>)
    | Open(name: string, attributes: seq<RawAttribute>)
    | Close(name: string)

  /** What the parser looks at next: a token, the end of the page, or nothing yet because the last token was the
      end tag an element had been waiting for. */
  datatype Signal = Got(token: Token) | Finish | Nothing

  datatype State = State(signal: Signal, rest: seq<Token>)

  /** The page as a tree. */
  datatype Node =
    | Leaf(text: seq<byte>)
    | Branch(element: nat, attributes: seq<RawAttribute>, kids: seq<Node>)

  /** After the last token the page ends, however often it is asked. */
  function Advance(rest: seq<Token>): (st: State)
    ensures Ready(st)
    ensures Weight(st) <= 3 * |rest|
  {
    if rest == [] then State(Finish, []) else State(Got(rest[0]), rest[1..])
  }

  function Resume(st: State): (r: State)
    requires !st.signal.Finish?
    ensures Ready(r) && Weight(r) <= Weight(st)
  {
    if st.signal.Nothing? then Advance(st.rest) else st
  }

  predicate Ready(st: State) {
    !st.signal.Nothing? && (st.signal.Finish? ==> st.rest == [])
  }

  /** How much is left to do. */
  function Weight(st: State): nat {
    match st.signal
    case Finish => 0
    case Nothing => 3 * |st.rest|
    case Got(Close(_)) => 3 * |st.rest| + 1
    case Got(_) => 3 * |st.rest| + 2
  }

  // ----- text -----

  predicate IsSpace(b: byte) { b == 32 || b == 9 || b == 10 || b == 13 || b == 12 }

  /** Text that trims to nothing. */
  predicate Blank(text: seq<byte>) { forall i :: 0 <= i < |text| ==> text[i] <= 32 }

  /** Every run of spaces as one space; spaced says that the text so far ends in a space. */
  function Collapse(text: seq<byte>, spaced: bool): seq<byte> {
    if text == [] then []
    else if !IsSpace(text[0]) then [text[0]] + Collapse(text[1..], false)
    else if spaced then Collapse(text[1..], true)
    else [32] + Collapse(text[1..], true)
  }

  // ----- inference -----

  predicate Allowed(e: nat, c: nat) { c in Model(e) }

  /** The first member of a model, from i on, that may be inferred to make room for c. */
  function AllowableFrom(e: nat, c: nat, i: nat): (r: Option<nat>)
    requires i <= |Model(e)|
    ensures r.Some? ==> r.value in Model(e) && Row(r.value).startOptional
    ensures r.Some? ==> r.value < DOCUMENT && Rank(r.value) < Rank(e)
    ensures r.Some? ==> Allowed(r.value, c) || Allowable(r.value, c).Some?
    decreases Rank(e), |Model(e)| - i
  {
    if i == |Model(e)| then None
    else
      var m := Model(e)[i];
      if Row(m).startOptional then
        InferredRank(e, m);
        if Allowed(m, c) || Allowable(m, c).Some? then Some(m)
        else AllowableFrom(e, c, i + 1)
      else AllowableFrom(e, c, i + 1)
  }

  function Allowable(e: nat, c: nat): (r: Option<nat>)
    ensures r.Some? ==> r.value in Model(e) && Row(r.value).startOptional
    ensures r.Some? ==> r.value < DOCUMENT && Rank(r.value) < Rank(e)
    ensures r.Some? ==> Allowed(r.value, c) || Allowable(r.value, c).Some?
    decreases Rank(e), |Model(e)| + 1
  {
    AllowableFrom(e, c, 0)
  }

  predicate TakesText(e: nat) { Row(e).content != ElementContent }

  /** The first member of a model, from i on, that may be inferred to make room for text. */
  function TextHolderFrom(e: nat, i: nat): (r: Option<nat>)
    requires i <= |Model(e)|
    ensures r.Some? ==> r.value in Model(e) && Row(r.value).startOptional
    ensures r.Some? ==> r.value < DOCUMENT && Rank(r.value) < Rank(e)
    ensures r.Some? ==> TakesText(r.value) || TextHolder(r.value).Some?
    decreases Rank(e), |Model(e)| - i
  {
    if i == |Model(e)| then None
    else
      var m := Model(e)[i];
      if Row(m).startOptional then
        InferredRank(e, m);
        if TakesText(m) || TextHolder(m).Some? then Some(m)
        else TextHolderFrom(e, i + 1)
      else TextHolderFrom(e, i + 1)
  }

  function TextHolder(e: nat): (r: Option<nat>)
    ensures r.Some? ==> r.value in Model(e) && Row(r.value).startOptional
    ensures r.Some? ==> r.value < DOCUMENT && Rank(r.value) < Rank(e)
    ensures r.Some? ==> TakesText(r.value) || TextHolder(r.value).Some?
    decreases Rank(e), |Model(e)| + 1
  {
    TextHolderFrom(e, 0)
  }

  /** A chain of inferable elements below e, the last of which has c in its model. */
  ghost predicate Way(e: nat, path: seq<nat>, c: nat)
    decreases path
  {
    if path == [] then Allowed(e, c)
    else path[0] in Model(e) && Row(path[0]).startOptional && Way(path[0], path[1..], c)
  }

  lemma {:induction false} AllowableHasWay(e: nat, c: nat) returns (path: seq<nat>)
    requires Allowable(e, c).Some?
    ensures path != [] && Way(e, path, c)
    decreases Rank(e)
  {
    var m := Allowable(e, c).value;
    hide Allowable, Rank;
    var more := [];
    if !Allowed(m, c) {
      more := AllowableHasWay(m, c);
    }
    hide Row, Model;
    path := [m] + more;
    assert path[1..] == more;
  }

  lemma {:induction false} SearchReaches(e: nat, c: nat, j: nat, i: nat)
    requires j <= i < |Model(e)| && Row(Model(e)[i]).startOptional
    requires Allowed(Model(e)[i], c) || Allowable(Model(e)[i], c).Some?
    ensures AllowableFrom(e, c, j).Some?
    decreases i - j
  {
    hide Row, Model, Rank, Allowable;
    if j < i {
      SearchReaches(e, c, j + 1, i);
    }
  }

  /** The search for an inferable element finds one exactly when some chain of inferable elements has room. */
  lemma {:induction false} WayFound(e: nat, path: seq<nat>, c: nat)
    requires path != [] && Way(e, path, c)
    ensures Allowable(e, c).Some?
    decreases |path|
  {
    hide Row, Model, Rank;
    if |path| > 1 {
      WayFound(path[0], path[1..], c);
    }
    var i :| 0 <= i < |Model(e)| && Model(e)[i] == path[0];
    SearchReaches(e, c, 0, i);
  }

  /** An inferable element with a chain below it, or itself, that has room for c. */
  ghost predicate Leads(m: nat, c: nat) { Row(m).startOptional && exists path: seq<nat> :: Way(m, path, c) }

  lemma NoLead(m: nat, c: nat)
    requires !(Row(m).startOptional && (Allowed(m, c) || Allowable(m, c).Some?))
    ensures !Leads(m, c)
  {
    if Leads(m, c) {
      var path :| Way(m, path, c);
      hide Allowable, Row, Model;
      if path != [] {
        WayFound(m, path, c);
      }
    }
  }

  lemma {:induction false} FirstFrom(e: nat, c: nat, i: nat) returns (k: nat)
    requires i <= |Model(e)| && AllowableFrom(e, c, i).Some?
    ensures i <= k < |Model(e)| && Model(e)[k] == AllowableFrom(e, c, i).value
    ensures forall j :: i <= j < k ==> !Leads(Model(e)[j], c)
    decreases |Model(e)| - i
  {
    hide Row, Model, Leads, Allowed;
    var m := Model(e)[i];
    if Row(m).startOptional && (Allowed(m, c) || Allowable(m, c).Some?) {
      k := i;
    } else {
      NoLead(m, c);
      k := FirstFrom(e, c, i + 1);
    }
  }

  /** The element inferred is the first of the content model that leads to room for the tag. */
  lemma AllowableIsFirst(e: nat, c: nat) returns (k: nat)
    requires Allowable(e, c).Some?
    ensures k < |Model(e)| && Model(e)[k] == Allowable(e, c).value && Leads(Model(e)[k], c)
    ensures forall j :: 0 <= j < k ==> !Leads(Model(e)[j], c)
  {
    k := FirstFrom(e, c, 0);
    FirstLeads(e, c);
  }

  lemma FirstLeads(e: nat, c: nat)
    requires Allowable(e, c).Some?
    ensures Leads(Allowable(e, c).value, c)
  {
    var m := Allowable(e, c).value;
    hide Allowable, Row, Model;
    if Allowed(m, c) {
      assert Way(m, [], c);
    } else {
      var path := AllowableHasWay(m, c);
    }
  }

  /** A chain of inferable elements below e, the last of which may hold text. */
  ghost predicate TextWay(e: nat, path: seq<nat>)
    decreases path
  {
    if path == [] then TakesText(e)
    else path[0] in Model(e) && Row(path[0]).startOptional && TextWay(path[0], path[1..])
  }

  ghost predicate LeadsToText(m: nat) { Row(m).startOptional && exists path: seq<nat> :: TextWay(m, path) }

  lemma {:induction false} HolderHasWay(e: nat) returns (path: seq<nat>)
    requires TextHolder(e).Some?
    ensures path != [] && TextWay(e, path)
    decreases Rank(e)
  {
    var m := TextHolder(e).value;
    hide TextHolder, Rank;
    var more := [];
    if !TakesText(m) {
      more := HolderHasWay(m);
    }
    hide Row, Model;
    path := [m] + more;
    assert path[1..] == more;
  }

  lemma {:induction false} HolderReaches(e: nat, i: nat, k: nat)
    requires i <= k < |Model(e)| && Row(Model(e)[k]).startOptional
    requires TakesText(Model(e)[k]) || TextHolder(Model(e)[k]).Some?
    ensures TextHolderFrom(e, i).Some?
    decreases k - i
  {
    hide Row, Model, TakesText;
    if i < k {
      HolderReaches(e, i + 1, k);
    }
  }

  lemma {:induction false} TextWayFound(e: nat, path: seq<nat>)
    requires path != [] && TextWay(e, path)
    ensures TextHolder(e).Some?
    decreases |path|
  {
    hide Row, Model, Rank;
    if |path| > 1 {
      TextWayFound(path[0], path[1..]);
    }
    var i :| 0 <= i < |Model(e)| && Model(e)[i] == path[0];
    HolderReaches(e, 0, i);
  }

  lemma NoTextLead(m: nat)
    requires !(Row(m).startOptional && (TakesText(m) || TextHolder(m).Some?))
    ensures !LeadsToText(m)
  {
    if LeadsToText(m) {
      var path :| TextWay(m, path);
      hide TextHolder, Row, Model;
      if path != [] {
        TextWayFound(m, path);
      }
    }
  }

  lemma {:induction false} FirstHolderFrom(e: nat, i: nat) returns (k: nat)
    requires i <= |Model(e)| && TextHolderFrom(e, i).Some?
    ensures i <= k < |Model(e)| && Model(e)[k] == TextHolderFrom(e, i).value
    ensures forall j :: i <= j < k ==> !LeadsToText(Model(e)[j])
    decreases |Model(e)| - i
  {
    hide Row, Model, LeadsToText, TakesText;
    var m := Model(e)[i];
    if Row(m).startOptional && (TakesText(m) || TextHolder(m).Some?) {
      k := i;
    } else {
      NoTextLead(m);
      k := FirstHolderFrom(e, i + 1);
    }
  }

  /** The element inferred for text is the first of the content model that leads to one that may hold it; there is none
      exactly when no chain does. */
  lemma HolderIsFirst(e: nat) returns (k: nat)
    ensures TextHolder(e).None? <==> forall path: seq<nat> :: path != [] ==> !TextWay(e, path)
    ensures TextHolder(e).Some? ==> k < |Model(e)| && Model(e)[k] == TextHolder(e).value
    ensures TextHolder(e).Some? ==> forall j :: 0 <= j < k ==> !LeadsToText(Model(e)[j])
  {
    k := 0;
    if TextHolder(e).Some? {
      k := FirstHolderFrom(e, 0);
      var path := HolderHasWay(e);
    } else {
      forall path: seq<nat> | path != []
        ensures !TextWay(e, path)
      {
        if TextWay(e, path) {
          TextWayFound(e, path);
        }
      }
    }
  }

  // ----- the repaired tree -----

  datatype Outcome = Outcome(kids: seq<Node>, next: State)

  function Then(n: Node, o: Outcome): Outcome { Outcome([n] + o.kids, o.next) }

  /** Text as an element shows it. */
  function Shown(e: nat, text: seq<byte>): seq<byte> {
    if Row(e).content == MixedContent then Collapse(text, false) else text
  }

  /** Whether an element, or one inferred inside it, has a place for the token. */
  predicate Accepts(e: nat, t: Token) {
    match t
    case Words(_) => TakesText(e) || TextHolder(e).Some?
    case Open(name, _) => Named(name).Some? ==> Allowed(e, Named(name).value) || Allowable(e, Named(name).value).Some?
    case Close(_) => false
  }

  /** The children an element gets from the tokens, and the state it hands back. An inferred element always
      accepts the token that caused it, which is why this ends. */
  function Parse(e: nat, st: State): (r: Outcome)
    requires Ready(st)
    ensures !r.next.signal.Finish?
    ensures Weight(r.next) <= Weight(st) || Weight(r.next) <= 1
    ensures st.signal.Got? && Accepts(e, st.signal.token) ==> Weight(r.next) < Weight(st)
    decreases Weight(st), Rank(e), 1
  {
    match st.signal
    case Finish => Outcome([], State(Got(Close(Row(e).name)), st.rest))
    case Got(Words(text)) =>
      if TakesText(e) then Then(Leaf(Shown(e, text)), Parse(e, Advance(st.rest)))
      else if Blank(text) then Parse(e, Advance(st.rest))
      else if TextHolder(e).Some? then Descend(e, TextHolder(e).value, [], st, Weight(st))
      else if Row(e).endOptional then Outcome([], st)
      else Parse(e, Advance(st.rest))
    case Got(Open(name, attributes)) =>
      var c := Named(name);
      if c.None? then Parse(e, Advance(st.rest))
      else if Allowed(e, c.value) then Descend(e, c.value, attributes, Advance(st.rest), Weight(st))
      else
        var m := Allowable(e, c.value);
        if m.Some? then Descend(e, m.value, [], st, Weight(st))
        else if Row(e).endOptional then Outcome([], st)
        else Parse(e, Advance(st.rest))
    case Got(Close(name)) =>
      var c := Named(name);
      if c.None? then Parse(e, Advance(st.rest))
      else if c.value == e then Outcome([], State(Nothing, st.rest))
      else if Row(e).endOptional then Outcome([], st)
      else Parse(e, Advance(st.rest))
  }

  /** One child element, and the children after it. */
  function Descend(e: nat, c: nat, attributes: seq<RawAttribute>, st: State, ghost bound: nat): (r: Outcome)
    requires Ready(st) && bound >= 2
    requires Weight(st) < bound || (Weight(st) == bound && Rank(c) < Rank(e) && st.signal.Got? && Accepts(c, st.signal.token))
    ensures !r.next.signal.Finish?
    ensures Weight(r.next) < bound
    decreases bound, Rank(e), 0
  {
    var inner := Parse(c, st);
    Then(Branch(c, attributes, inner.kids), Parse(e, Resume(inner.next)))
  }

  // ----- the repaired tree is well formed -----

  ghost predicate ValidNode(e: nat, n: Node)
    decreases n
  {
    match n
    case Leaf(text) => TakesText(e) && Shown(e, text) == text
    case Branch(c, _, kids) => c < DOCUMENT && Allowed(e, c) && Valid(c, kids)
  }

  /** Every child element is in its parent's content model; text stands only where text may, its spaces already
      collapsed. */
  ghost predicate Valid(e: nat, kids: seq<Node>)
    decreases kids
  {
    kids == [] || (ValidNode(e, kids[0]) && Valid(e, kids[1..]))
  }

  lemma ValidThen(e: nat, n: Node, o: Outcome)
    requires ValidNode(e, n) && Valid(e, o.kids)
    ensures Valid(e, Then(n, o).kids)
  {
    assert ([n] + o.kids)[1..] == o.kids;
  }

  lemma {:induction false} CollapseTwice(text: seq<byte>, spaced: bool)
    ensures Collapse(Collapse(text, spaced), spaced) == Collapse(text, spaced)
  {
    if text != [] {
      var x := text[0];
      if !IsSpace(x) {
        CollapseTwice(text[1..], false);
        assert Collapse(text, spaced)[1..] == Collapse(text[1..], false);
      } else {
        CollapseTwice(text[1..], true);
        if !spaced {
          assert Collapse(text, spaced)[1..] == Collapse(text[1..], true);
        }
      }
    }
  }

  lemma ShownTwice(e: nat, text: seq<byte>)
    ensures Shown(e, Shown(e, text)) == Shown(e, text)
  {
    CollapseTwice(text, false);
  }

  /** Whatever the tokens, the tree the parser builds is well formed. */
  lemma {:induction false} ParseValid(e: nat, st: State)
    requires Ready(st)
    ensures Valid(e, Parse(e, st).kids)
    decreases Weight(st), Rank(e), 1
  {
    hide Row, Rank, Model, Named, Allowable, TextHolder, TakesText, Shown, Valid, ValidNode;
    match st.signal
    case Finish => ValidNone(e);
    case Got(Words(text)) =>
      if TakesText(e) {
        ShownTwice(e, text);
        ParseValid(e, Advance(st.rest));
        LeafValid(e, Shown(e, text));
        ValidThen(e, Leaf(Shown(e, text)), Parse(e, Advance(st.rest)));
      } else if Blank(text) {
        ParseValid(e, Advance(st.rest));
      } else if TextHolder(e).Some? {
        DescendValid(e, TextHolder(e).value, [], st, Weight(st));
      } else if Row(e).endOptional {
        ValidNone(e);
      } else {
        ParseValid(e, Advance(st.rest));
      }
    case Got(Open(name, attributes)) =>
      var c := Named(name);
      if c.None? {
        ParseValid(e, Advance(st.rest));
      } else if Allowed(e, c.value) {
        NamedIff(name, c.value);
        DescendValid(e, c.value, attributes, Advance(st.rest), Weight(st));
      } else if Allowable(e, c.value).Some? {
        DescendValid(e, Allowable(e, c.value).value, [], st, Weight(st));
      } else if Row(e).endOptional {
        ValidNone(e);
      } else {
        ParseValid(e, Advance(st.rest));
      }
    case Got(Close(name)) =>
      var c := Named(name);
      if c.None? || (c.value != e && !Row(e).endOptional) {
        ParseValid(e, Advance(st.rest));
      } else {
        ValidNone(e);
      }
  }

  lemma ValidNone(e: nat)
    ensures Valid(e, [])
  {
  }

  lemma LeafValid(e: nat, text: seq<byte>)
    requires TakesText(e) && Shown(e, text) == text
    ensures ValidNode(e, Leaf(text))
  {
  }

  lemma {:induction false} DescendValid(e: nat, c: nat, attributes: seq<RawAttribute>, st: State, bound: nat)
    requires Ready(st) && bound >= 2
    requires Weight(st) < bound || (Weight(st) == bound && Rank(c) < Rank(e) && st.signal.Got? && Accepts(c, st.signal.token))
    requires c < DOCUMENT && Allowed(e, c)
    ensures Valid(e, Descend(e, c, attributes, st, bound).kids)
    decreases bound, Rank(e), 0
  {
    var inner := Parse(c, st);
    ParseValid(c, st);
    ParseValid(e, Resume(inner.next));
    ValidThen(e, Branch(c, attributes, inner.kids), Parse(e, Resume(inner.next)));
  }

  // ----- correct pages are left alone -----

  /** A page with every tag written out, names in any capitals. */
  datatype Doc =
    | Para(text: seq<byte>)
    | Section(open: string, attributes: seq<RawAttribute>, body: seq<Doc>, close: string)

  function DocTokens(d: Doc): seq<Token>
    decreases d
  {
    match d
    case Para(text) => [Words(text)]
    case Section(open, attributes, body, close) => [Open(open, attributes)] + PageTokens(body) + [Close(close)]
  }

  function PageTokens(page: seq<Doc>): seq<Token>
    decreases page
  {
    if page == [] then [] else DocTokens(page[0]) + PageTokens(page[1..])
  }

  ghost predicate DocCorrect(e: nat, d: Doc)
    decreases d
  {
    match d
    case Para(text) => TakesText(e) || Blank(text)
    case Section(open, _, body, close) =>
      Named(open).Some? && Named(close) == Named(open) && Allowed(e, Named(open).value) &&
      Correct(Named(open).value, body)
  }

  /** Every element stands where its parent's content model lets it, and text only where text may. */
  ghost predicate Correct(e: nat, page: seq<Doc>)
    decreases page
  {
    page == [] || (DocCorrect(e, page[0]) && Correct(e, page[1..]))
  }

  /** The tree of a page: spaces collapsed, blank text between elements gone. */
  ghost function DocTree(e: nat, d: Doc): seq<Node>
    requires DocCorrect(e, d)
    decreases d
  {
    match d
    case Para(text) => if TakesText(e) then [Leaf(Shown(e, text))] else []
    case Section(open, attributes, body, _) => [Branch(Named(open).value, attributes, PageTree(Named(open).value, body))]
  }

  ghost function PageTree(e: nat, page: seq<Doc>): seq<Node>
    requires Correct(e, page)
    decreases page
  {
    if page == [] then [] else DocTree(e, page[0]) + PageTree(e, page[1..])
  }

  lemma {:induction false} KeepsDoc(e: nat, d: Doc, rest: seq<Token>)
    requires DocCorrect(e, d)
    ensures var after := Parse(e, Advance(rest));
            Parse(e, Advance(DocTokens(d) + rest)) == Outcome(DocTree(e, d) + after.kids, after.next)
    decreases d
  {
    hide Row, Rank, Model, NamedFrom, Allowable, TextHolder, TakesText, Shown;
    var tokens := DocTokens(d) + rest;
    var after := Parse(e, Advance(rest));
    match d
    case Para(text) =>
      assert tokens[1..] == rest;
      assert [] + after.kids == after.kids;
    case Section(open, attributes, body, close) =>
      var c := Named(open).value;
      var tail := [Close(close)] + rest;
      assert tokens[1..] == PageTokens(body) + tail;
      KeepsPage(c, body, tail);
      assert tail[1..] == rest;
      assert Parse(c, Advance(tail)) == Outcome([], State(Nothing, rest));
      assert PageTree(c, body) + [] == PageTree(c, body);
  }

  lemma TokensAssociate(a: seq<Token>, b: seq<Token>, c: seq<Token>)
    ensures a + b + c == a + (b + c)
  {
  }

  lemma NodesAssociate(a: seq<Node>, b: seq<Node>, c: seq<Node>)
    ensures a + b + c == a + (b + c)
  {
  }

  lemma {:induction false} KeepsPage(e: nat, page: seq<Doc>, rest: seq<Token>)
    requires Correct(e, page)
    ensures var after := Parse(e, Advance(rest));
            Parse(e, Advance(PageTokens(page) + rest)) == Outcome(PageTree(e, page) + after.kids, after.next)
    decreases page
  {
    hide Parse;
    var after := Parse(e, Advance(rest));
    if page == [] {
      assert PageTokens(page) + rest == rest;
      assert PageTree(e, page) + after.kids == after.kids;
    } else {
      var more := PageTokens(page[1..]) + rest;
      KeepsDoc(e, page[0], more);
      KeepsPage(e, page[1..], rest);
      hide DocTokens, DocTree, DocCorrect, Correct;
      TokensAssociate(DocTokens(page[0]), PageTokens(page[1..]), rest);
      NodesAssociate(DocTree(e, page[0]), PageTree(e, page[1..]), after.kids);
    }
  }

  /** A page. */
  ghost function Repaired(tokens: seq<Token>): seq<Node> {
    Parse(DOCUMENT, Advance(tokens)).kids
  }

  /** A correct page comes out as its own tree. */
  lemma CorrectPageKept(page: seq<Doc>)
    requires Correct(DOCUMENT, page)
    ensures Repaired(PageTokens(page)) == PageTree(DOCUMENT, page)
  {
    KeepsPage(DOCUMENT, page, []);
    assert PageTokens(page) + [] == PageTokens(page);
    assert PageTree(DOCUMENT, page) + [] == PageTree(DOCUMENT, page);
  }

  // ----- repairing twice is repairing once -----

  function NodeDoc(n: Node): Doc
    decreases n
  {
    match n
    case Leaf(text) => Para(text)
    case Branch(c, attributes, kids) => Section(Row(c).name, attributes, KidsDoc(kids), Row(c).name)
  }

  function KidsDoc(kids: seq<Node>): seq<Doc>
    decreases kids
  {
    if kids == [] then [] else [NodeDoc(kids[0])] + KidsDoc(kids[1..])
  }

  lemma OwnName(c: nat)
    requires c < DOCUMENT
    ensures Named(Row(c).name) == Some(c)
  {
    NamedIff(Row(c).name, c);
  }

  lemma {:induction false} NodeDocTree(e: nat, n: Node)
    requires ValidNode(e, n)
    ensures DocCorrect(e, NodeDoc(n)) && DocTree(e, NodeDoc(n)) == [n]
    decreases n
  {
    match n
    case Leaf(_) =>
    case Branch(c, _, kids) =>
      OwnName(c);
      hide Named;
      KidsDocTree(c, kids);
  }

  lemma {:induction false} KidsDocTree(e: nat, kids: seq<Node>)
    requires Valid(e, kids)
    ensures Correct(e, KidsDoc(kids)) && PageTree(e, KidsDoc(kids)) == kids
    decreases kids
  {
    if kids != [] {
      NodeDocTree(e, kids[0]);
      KidsDocTree(e, kids[1..]);
      hide DocCorrect, ValidNode, DocTree, NodeDoc;
      assert KidsDoc(kids)[1..] == KidsDoc(kids[1..]);
      assert [kids[0]] + kids[1..] == kids;
    }
  }

  /** Writing out a repaired page with all its tags and repairing it again changes nothing. */
  lemma RepairIsStable(tokens: seq<Token>)
    ensures Repaired(PageTokens(KidsDoc(Repaired(tokens)))) == Repaired(tokens)
  {
    hide Valid, Correct, PageTree, Parse;
    ParseValid(DOCUMENT, Advance(tokens));
    KidsDocTree(DOCUMENT, Repaired(tokens));
    CorrectPageKept(KidsDoc(Repaired(tokens)));
  }

  // ----- inference keeps the token that caused it -----

  /** The tree starts with the text, possibly below inferred elements. */
  ghost predicate TextFirst(e: nat, kids: seq<Node>, text: seq<byte>)
    decreases kids
  {
    kids != [] &&
    if TakesText(e) then kids[0] == Leaf(Shown(e, text))
    else
      kids[0].Branch? && Row(kids[0].element).startOptional && kids[0].attributes == [] &&
      TextFirst(kids[0].element, kids[0].kids, text)
  }

  /** The tree starts with the element, possibly below inferred elements. */
  ghost predicate TagFirst(e: nat, kids: seq<Node>, c: nat, attributes: seq<RawAttribute>)
    decreases kids
  {
    kids != [] && kids[0].Branch? &&
    if Allowed(e, c) then kids[0].element == c && kids[0].attributes == attributes
    else
      Row(kids[0].element).startOptional && kids[0].attributes == [] &&
      TagFirst(kids[0].element, kids[0].kids, c, attributes)
  }

  lemma {:induction false} WordsKept(e: nat, text: seq<byte>, rest: seq<Token>)
    requires !Blank(text)
    requires TakesText(e) || TextHolder(e).Some?
    ensures TextFirst(e, Parse(e, State(Got(Words(text)), rest)).kids, text)
    decreases Rank(e)
  {
    if !TakesText(e) {
      WordsKept(TextHolder(e).value, text, rest);
      hide Row, Model, Rank, TextHolder, TakesText;
    }
  }

  lemma {:induction false} TagKept(e: nat, name: string, attributes: seq<RawAttribute>, rest: seq<Token>)
    requires Named(name).Some?
    requires Allowed(e, Named(name).value) || Allowable(e, Named(name).value).Some?
    ensures TagFirst(e, Parse(e, State(Got(Open(name, attributes)), rest)).kids, Named(name).value, attributes)
    decreases Rank(e)
  {
    if !Allowed(e, Named(name).value) {
      TagKept(Allowable(e, Named(name).value).value, name, attributes, rest);
      hide Row, Model, Rank, Allowable, Named;
    }
  }

  // ----- a page can end early -----

  /** A token the page as a whole cannot use: the end tag of a known element, or a start tag that fits nowhere. */
  predicate Stray(t: Token) {
    match t
    case Words(_) => false
    case Open(name, _) => Named(name).Some? && !Accepts(DOCUMENT, t)
    case Close(name) => Named(name).Some?
  }

  /** A stray token at the start of a page ends it there: nothing after it is read. */
  lemma StrayEndsPage(t: Token, rest: seq<Token>)
    requires Stray(t)
    ensures Repaired([t] + rest) == []
    ensures Parse(DOCUMENT, Advance([t] + rest)).next == State(Got(t), rest)
  {
    assert ([t] + rest)[1..] == rest;
    DocumentRow();
    if t.Close? {
      NamedIff(t.name, DOCUMENT);
    }
  }

  lemma HtmlHoldsText()
    ensures TextHolder(HTML).Some?
  {
    assert Model(HTML) == [HEAD, BODY];
    assert TakesText(BODY) && Row(BODY).startOptional;
    assert TextHolderFrom(HTML, 1).Some?;
    hide Row, Model;
  }

  lemma OnlyHolder(e: nat, m: nat)
    requires Model(e) == [m] && Row(m).startOptional && TextHolder(m).Some?
    ensures TextHolder(e) == Some(m)
  {
    hide Row, Model, Rank, TakesText;
    assert TextHolderFrom(e, 0) == Some(m);
  }

  lemma DocumentRow()
    ensures Row(DOCUMENT).endOptional && !TakesText(DOCUMENT)
    ensures TextHolder(DOCUMENT) == Some(HTML)
  {
    hide TextHolder;
    HtmlHoldsText();
    OnlyHolder(DOCUMENT, HTML);
  }

  /** Whatever elements are open, no other token ends a page: it is read to its end, or up to a stray token. */
  lemma {:induction false} StopsOnlyAtStray(st: State)
    requires Ready(st)
    ensures var next := Parse(DOCUMENT, st).next;
            next == State(Got(Close(Row(DOCUMENT).name)), []) || (next.signal.Got? && Stray(next.signal.token))
    decreases Weight(st)
  {
    DocumentRow();
    hide Row, Rank, Model, NamedFrom, Allowable, TextHolder, TakesText, Shown;
    match st.signal
    case Finish =>
    case Got(Words(text)) =>
      if Blank(text) {
        StopsOnlyAtStray(Advance(st.rest));
      } else {
        StopsOnlyAtStray(Resume(Parse(HTML, st).next));
      }
    case Got(Open(name, attributes)) =>
      var c := Named(name);
      if c.None? {
        StopsOnlyAtStray(Advance(st.rest));
      } else if Allowed(DOCUMENT, c.value) {
        StopsOnlyAtStray(Resume(Parse(c.value, Advance(st.rest)).next));
      } else if Allowable(DOCUMENT, c.value).Some? {
        StopsOnlyAtStray(Resume(Parse(Allowable(DOCUMENT, c.value).value, st).next));
      }
    case Got(Close(name)) =>
      if Named(name).None? {
        StopsOnlyAtStray(Advance(st.rest));
      } else {
        NamedIff(name, DOCUMENT);
      }
  }
}
