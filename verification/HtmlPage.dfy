/** The page parser itself: it repairs a page while writing it as byte code. */
module HtmlPage {
  import opened BitStrings
  import opened Options
  import opened HtmlTables
  import opened HtmlBytes
  import opened HtmlRepair

  // ----- the tags and text of a tree -----

  function AttributeFrom(names: seq<string>, name: string, i: nat): (r: Option<nat>)
    requires i <= |names|
    ensures r.Some? ==> i <= r.value < |names| && Same(names[r.value], name)
    ensures r.Some? ==> forall j :: i <= j < r.value ==> !Same(names[j], name)
    ensures r.None? ==> forall j :: i <= j < |names| ==> !Same(names[j], name)
    decreases |names| - i
  {
    if i == |names| then None
    else if Same(names[i], name) then Some(i)
    else AttributeFrom(names, name, i + 1)
  }

  function AttributeId(e: nat, name: string): Option<nat> { AttributeFrom(Row(e).attributes, name, 0) }

  /** The known attributes of a tag, by number; unknown ones are dropped. */
  function Coded(e: nat, attributes: seq<RawAttribute>): seq<Attribute> {
    if attributes == [] then []
    else CodedOne(e, attributes[0]) + Coded(e, attributes[1..])
  }

  function CodedOne(e: nat, a: RawAttribute): seq<Attribute> {
    var id := AttributeId(e, a.name);
    if id.None? then [] else [Attribute(id.value, a.value)]
  }

  function StartOf(c: nat, attributes: seq<RawAttribute>): Event { Start(Alias(c), Coded(Alias(c), attributes)) }

  function NodeEvents(n: Node): seq<Event>
    decreases n
  {
    match n
    case Leaf(text) => [Text(text)]
    case Branch(c, attributes, kids) => [StartOf(c, attributes)] + Events(kids) + [End(Alias(c))]
  }

  function Events(kids: seq<Node>): seq<Event>
    decreases kids
  {
    if kids == [] then [] else NodeEvents(kids[0]) + Events(kids[1..])
  }

  lemma {:induction false} EventsAppend(a: seq<Node>, b: seq<Node>)
    ensures Events(a + b) == Events(a) + Events(b)
  {
    if a == [] {
      assert a + b == b;
    } else {
      assert (a + b)[1..] == a[1..] + b;
      EventsAppend(a[1..], b);
      hide NodeEvents;
      assert Events(a + b) == NodeEvents(a[0]) + (Events(a[1..]) + Events(b));
    }
  }

  lemma FewAttributes(e: nat)
    ensures |Row(e).attributes| < 127
  {
  }

  lemma {:induction false} CodedFits(e: nat, attributes: seq<RawAttribute>)
    ensures AttributesOk(Coded(e, attributes))
  {
    if attributes != [] {
      FewAttributes(e);
      hide Row;
      CodedFits(e, attributes[1..]);
    }
  }

  lemma AliasSmall(c: nat)
    requires c < DOCUMENT
    ensures Alias(c) < DOCUMENT
  {
  }

  // ----- proper nesting, checked with a stack -----

  /** Reads tags against a stack of open elements: each start tag must be in the model of the innermost open
      element, each end tag must close it, and text needs an element that takes text. */
  function Nest(es: seq<Event>, open: seq<nat>): (r: Option<seq<nat>>)
  {
    if es == [] then Some(open)
    else if open == [] then None
    else
      var top := open[|open| - 1];
      match es[0]
      case Text(_) => if TakesText(top) then Nest(es[1..], open) else None
      case Start(e, _) => if 0 <= e < DOCUMENT && e in Model(top) then Nest(es[1..], open + [e]) else None
      case End(e) => if e == top then Nest(es[1..], open[..|open| - 1]) else None
  }

  /** A page whose tags all open and close in order below the document itself. */
  predicate WellNested(es: seq<Event>) {
    Nest(es, [DOCUMENT]) == Some([DOCUMENT])
  }

  lemma {:induction false} NestAppend(a: seq<Event>, b: seq<Event>, open: seq<nat>)
    requires open != []
    requires Nest(a, open).Some?
    ensures Nest(a + b, open) == Nest(b, Nest(a, open).value)
    decreases |a|
  {
    hide Model, TakesText;
    if a == [] {
      assert a + b == b;
    } else {
      assert (a + b)[1..] == a[1..] + b;
      match a[0]
      case Text(_) => NestAppend(a[1..], b, open);
      case Start(e, _) => NestAppend(a[1..], b, open + [e]);
      case End(e) =>
        if |open| > 1 {
          NestAppend(a[1..], b, open[..|open| - 1]);
        } else if a[1..] == [] {
          assert (a + b)[1..] == b;
        }
    }
  }

  lemma {:induction false} NodeNests(e: nat, n: Node, open: seq<nat>)
    requires ValidNode(e, n)
    ensures Nest(NodeEvents(n), open + [Alias(e)]) == Some(open + [Alias(e)])
    decreases n
  {
    var stack := open + [Alias(e)];
    match n
    case Leaf(text) =>
      AliasKeepsContent(e);
      assert NodeEvents(n)[1..] == [];
    case Branch(c, attributes, kids) =>
      AliasKeepsModel(e, c);
      AliasSmall(c);
      KidsNest(c, kids, stack);
      var es, last := Events(kids), [End(Alias(c))];
      hide Model, Alias, Allowed;
      assert stack + [Alias(c)] != [];
      NestAppend(es, last, stack + [Alias(c)]);
      assert last[1..] == [];
      assert (stack + [Alias(c)])[..|stack|] == stack;
      assert NodeEvents(n)[1..] == es + last;
  }

  lemma {:induction false} KidsNest(e: nat, kids: seq<Node>, open: seq<nat>)
    requires Valid(e, kids)
    ensures Nest(Events(kids), open + [Alias(e)]) == Some(open + [Alias(e)])
    decreases kids
  {
    hide Model, Alias, NodeEvents, Nest, ValidNode;
    if kids == [] {
      NestNone(open + [Alias(e)]);
    } else {
      NodeNests(e, kids[0], open);
      KidsNest(e, kids[1..], open);
      NestAppend(NodeEvents(kids[0]), Events(kids[1..]), open + [Alias(e)]);
    }
  }

  lemma NestNone(open: seq<nat>)
    ensures Nest([], open) == Some(open)
  {
  }

  lemma {:induction false} NodeFits(e: nat, n: Node)
    requires ValidNode(e, n)
    ensures EventsOk(NodeEvents(n))
    decreases n
  {
    match n
    case Leaf(_) =>
    case Branch(c, attributes, kids) =>
      AliasSmall(c);
      CodedFits(Alias(c), attributes);
      KidsFit(c, kids);
      hide Alias, Coded;
  }

  lemma {:induction false} KidsFit(e: nat, kids: seq<Node>)
    requires Valid(e, kids)
    ensures EventsOk(Events(kids))
    decreases kids
  {
    if kids != [] {
      NodeFits(e, kids[0]);
      KidsFit(e, kids[1..]);
      hide NodeEvents, EventOk;
    }
  }

  // ----- bookkeeping for the parser's loop -----

  /** after is before followed by the byte code of the tree. */
  ghost predicate Wrote(before: seq<byte>, kids: seq<Node>, after: seq<byte>) {
    EventsOk(Events(kids)) && after == before + WriteAll(Events(kids))
  }

  lemma WroteNone(b: seq<byte>)
    ensures Wrote(b, [], b)
  {
    assert b + [] == b;
  }

  lemma WroteMore(b0: seq<byte>, kids: seq<Node>, b1: seq<byte>, more: seq<Node>, b2: seq<byte>)
    requires Wrote(b0, kids, b1) && Wrote(b1, more, b2)
    ensures Wrote(b0, kids + more, b2)
  {
    hide Events, WriteAll, EventsOk;
    EventsAppend(kids, more);
    WriteAllAppend(Events(kids), Events(more));
    assert b0 + WriteAll(Events(kids)) + WriteAll(Events(more)) == b0 + (WriteAll(Events(kids)) + WriteAll(Events(more)));
  }

  lemma WriteOne(e: Event)
    requires EventOk(e)
    ensures EventsOk([e]) && WriteAll([e]) == WriteEvent(e)
  {
    assert [e][1..] == [];
    assert WriteEvent(e) + [] == WriteEvent(e);
  }

  lemma EventsOne(n: Node)
    ensures Events([n]) == NodeEvents(n)
  {
    assert [n][1..] == [];
    hide NodeEvents;
    assert NodeEvents(n) + [] == NodeEvents(n);
  }

  lemma WroteLeaf(b: seq<byte>, text: seq<byte>)
    ensures Wrote(b, [Leaf(text)], b + text)
  {
    EventsOne(Leaf(text));
    WriteOne(Text(text));
  }

  lemma WriteWrapped(start: Event, es: seq<Event>, end: Event)
    requires EventOk(start) && EventsOk(es) && EventOk(end)
    ensures EventsOk([start] + es + [end])
    ensures WriteAll([start] + es + [end]) == WriteEvent(start) + WriteAll(es) + WriteEvent(end)
  {
    WriteOne(start);
    WriteOne(end);
    hide WriteAll, WriteEvent, EventOk;
    WriteAllAppend([start], es);
    WriteAllAppend([start] + es, [end]);
  }

  lemma WroteBranch(b: seq<byte>, c: nat, attributes: seq<RawAttribute>, kids: seq<Node>, b1: seq<byte>)
    requires EventOk(StartOf(c, attributes)) && EventOk(End(Alias(c)))
    requires Wrote(b + WriteEvent(StartOf(c, attributes)), kids, b1)
    ensures Wrote(b, [Branch(c, attributes, kids)], b1 + WriteEvent(End(Alias(c))))
  {
    var start, end, es := StartOf(c, attributes), End(Alias(c)), Events(kids);
    EventsOne(Branch(c, attributes, kids));
    hide Events, WriteAll, WriteEvent, StartOf, Alias, EventOk, EventsOk;
    assert NodeEvents(Branch(c, attributes, kids)) == [start] + es + [end];
    hide NodeEvents;
    WriteWrapped(start, es, end);
    Associates(b, WriteEvent(start), WriteAll(es), WriteEvent(end));
  }

  lemma Associates(a: seq<byte>, b: seq<byte>, c: seq<byte>, d: seq<byte>)
    ensures a + b + c + d == a + (b + c + d)
  {
  }

  /** The element has its first children and still has to deal with st. */
  ghost predicate Midway(e: nat, whole: Outcome, kids: seq<Node>, st: State)
  {
    Ready(st) && whole == Outcome(kids + Parse(e, st).kids, Parse(e, st).next)
  }

  lemma MidwayStart(e: nat, st: State)
    requires Ready(st)
    ensures Midway(e, Parse(e, st), [], st)
  {
    assert [] + Parse(e, st).kids == Parse(e, st).kids;
  }

  lemma MidwayNode(e: nat, whole: Outcome, kids: seq<Node>, st: State, n: Node, next: State)
    requires Midway(e, whole, kids, st) && Ready(next)
    requires Parse(e, st) == Then(n, Parse(e, next))
    ensures Midway(e, whole, kids + [n], next)
  {
    hide Parse;
    assert kids + ([n] + Parse(e, next).kids) == kids + [n] + Parse(e, next).kids;
  }

  lemma MidwaySkip(e: nat, whole: Outcome, kids: seq<Node>, st: State, next: State)
    requires Midway(e, whole, kids, st) && Ready(next)
    requires Parse(e, st) == Parse(e, next)
    ensures Midway(e, whole, kids, next)
  {
  }

  lemma MidwayEnd(e: nat, whole: Outcome, kids: seq<Node>, st: State, next: State)
    requires Midway(e, whole, kids, st)
    requires Parse(e, st) == Outcome([], next)
    ensures whole == Outcome(kids, next)
  {
    assert kids + [] == kids;
  }

  lemma CollapseStep(r: seq<byte>, text: seq<byte>, i: nat, spaced: bool)
    requires i < |text|
    ensures r + Collapse(text[i..], spaced) ==
            if !IsSpace(text[i]) then r + [text[i]] + Collapse(text[i + 1..], false)
            else if spaced then r + Collapse(text[i + 1..], true)
            else r + [32] + Collapse(text[i + 1..], true)
  {
    assert text[i..][1..] == text[i + 1..];
  }

  lemma CodedWhole(e: nat, attributes: seq<RawAttribute>)
    ensures Coded(e, attributes) == [] + Coded(e, attributes[0..])
  {
    assert attributes[0..] == attributes;
  }

  lemma CodedStep(e: nat, attributes: seq<RawAttribute>, i: nat, coded: seq<Attribute>)
    requires i < |attributes|
    ensures coded + Coded(e, attributes[i..]) == coded + CodedOne(e, attributes[i]) + Coded(e, attributes[i + 1..])
  {
    assert attributes[i..][1..] == attributes[i + 1..];
    hide CodedOne;
  }

  lemma CodedKnown(e: nat, a: RawAttribute)
    ensures var id := AttributeId(e, a.name);
            CodedOne(e, a) == if id.None? then [] else [Attribute(id.value, a.value)]
  {
  }

  lemma CodedEnd(e: nat, attributes: seq<RawAttribute>, coded: seq<Attribute>)
    ensures coded + Coded(e, attributes[|attributes|..]) == coded
  {
    assert attributes[|attributes|..] == [];
  }

  /** A start tag written up to some of its attributes. */
  ghost predicate Tagged(before: seq<byte>, id: byte, coded: seq<Attribute>, after: seq<byte>) {
    AttributesOk(coded) && after == before + [MARK, id] + WriteAttributes(coded)
  }

  lemma TagBegun(before: seq<byte>, id: byte)
    ensures Tagged(before, id, [], before + [MARK, id])
  {
    assert before + [MARK, id] + [] == before + [MARK, id];
  }

  lemma TaggedMore(before: seq<byte>, id: byte, coded: seq<Attribute>, after: seq<byte>, a: Attribute)
    requires Tagged(before, id, coded, after) && IdOk(a.id)
    ensures Tagged(before, id, coded + [a], after + ([IdByte(a.id)] + a.value + [MARK]))
  {
    WriteAttributesAppend(coded, a);
    hide WriteAttributes;
    Associates(before + [MARK, id], WriteAttributes(coded), [IdByte(a.id)] + a.value, [MARK]);
  }

  lemma TagDone(before: seq<byte>, id: byte, coded: seq<Attribute>, after: seq<byte>)
    requires Tagged(before, id, coded, after)
    ensures after + [MARK] == before + ([MARK, id] + WriteAttributes(coded) + [MARK])
  {
  }

  lemma IdFits(e: nat, name: string)
    requires AttributeId(e, name).Some?
    ensures IdOk(AttributeId(e, name).value)
  {
    FewAttributes(e);
    hide Row;
  }

  /** What one element did: the children the specification gives it, written after what was written before. */
  ghost predicate Did(e: nat, st: State, before: seq<byte>, kids: seq<Node>, next: State, after: seq<byte>) {
    Ready(st) && Parse(e, st) == Outcome(kids, next) && Wrote(before, kids, after)
  }

  /** The measure by which a child element's parse is smaller. */
  ghost predicate Below(e: nat, c: nat, st: State, bound: nat) {
    Weight(st) < bound || (Weight(st) == bound && Rank(c) < Rank(e) && st.signal.Got? && Accepts(c, st.signal.token))
  }

  // ----- the parser -----

  class PageParser {
    var rest: seq<Token>
    var out: seq<byte>

    constructor (tokens: seq<Token>)
      ensures rest == tokens && out == []
    {
      rest := tokens;
      out := [];
    }

    method NextToken() returns (signal: Signal)
      modifies this`rest
      ensures State(signal, rest) == Advance(old(rest))
    {
      if rest == [] {
        signal := Finish;
      } else {
        signal := Got(rest[0]);
        rest := rest[1..];
      }
    }

    method FindElement(name: string) returns (r: Option<nat>)
      ensures r == Named(name)
    {
      hide Row;
      var i := 0;
      while i < DOCUMENT
        invariant i <= DOCUMENT && Named(name) == NamedFrom(name, i)
      {
        if Same(name, Row(i).name) {
          return Some(i);
        }
        i := i + 1;
      }
      return None;
    }

    method IsElementAllowed(e: nat, c: nat) returns (r: bool)
      ensures r == Allowed(e, c)
    {
      hide Model;
      var model := Model(e);
      var i := 0;
      while i < |model|
        invariant i <= |model| && c !in model[..i]
      {
        if model[i] == c {
          return true;
        }
        i := i + 1;
      }
      return false;
    }

    method FindAllowableElement(e: nat, c: nat) returns (r: Option<nat>)
      ensures r == Allowable(e, c)
      decreases Rank(e)
    {
      hide Row, Model, Rank, Allowed;
      assert Allowable(e, c) == AllowableFrom(e, c, 0);
      hide Allowable;
      var model := Model(e);
      var i := 0;
      while i < |model|
        invariant i <= |model| && Allowable(e, c) == AllowableFrom(e, c, i)
      {
        var m := model[i];
        if Row(m).startOptional {
          InferredRank(e, m);
          var here := IsElementAllowed(m, c);
          if here {
            return Some(m);
          }
          var below := FindAllowableElement(m, c);
          if below.Some? {
            return Some(m);
          }
        }
        i := i + 1;
      }
      return None;
    }

    method FindNonElementContentElement(e: nat) returns (r: Option<nat>)
      ensures r == TextHolder(e)
      decreases Rank(e)
    {
      hide Row, Model, Rank;
      assert TextHolder(e) == TextHolderFrom(e, 0);
      hide TextHolder;
      var model := Model(e);
      var i := 0;
      while i < |model|
        invariant i <= |model| && TextHolder(e) == TextHolderFrom(e, i)
      {
        var m := model[i];
        if Row(m).startOptional {
          InferredRank(e, m);
          if Row(m).content != ElementContent {
            return Some(m);
          }
          var below := FindNonElementContentElement(m);
          if below.Some? {
            return Some(m);
          }
        }
        i := i + 1;
      }
      return None;
    }

    method FindAttribute(e: nat, name: string) returns (r: Option<nat>)
      ensures r == AttributeId(e, name)
    {
      hide Row;
      var names := Row(e).attributes;
      var i := 0;
      while i < |names|
        invariant i <= |names| && AttributeId(e, name) == AttributeFrom(names, name, i)
      {
        if Same(names[i], name) {
          return Some(i);
        }
        i := i + 1;
      }
      return None;
    }

    /** The text with every run of spaces as one space. */
    static method CollapseSpaces(text: seq<byte>) returns (r: seq<byte>)
      ensures r == Collapse(text, false)
    {
      r := [];
      var spaced := false;
      var i := 0;
      assert text[0..] == text && [] + Collapse(text, false) == Collapse(text, false);
      assert Collapse([], true) == [] && Collapse([], false) == [];
      hide Collapse;
      while i < |text|
        invariant i <= |text| && Collapse(text, false) == r + Collapse(text[i..], spaced)
      {
        CollapseStep(r, text, i, spaced);
        if IsSpace(text[i]) {
          if !spaced {
            r := r + [32];
            spaced := true;
          }
        } else {
          r := r + [text[i]];
          spaced := false;
        }
        i := i + 1;
      }
      assert r + [] == r;
    }

    method OutputText(text: seq<byte>)
      modifies this`out
      ensures out == old(out) + text
    {
      out := out + text;
    }

    /** Writes the attributes an element knows. */
    method OutputAttributes(e: nat, id: byte, attributes: seq<RawAttribute>, ghost before: seq<byte>)
      requires Tagged(before, id, [], out)
      modifies this`out
      ensures Tagged(before, id, Coded(e, attributes), out)
    {
      hide AttributeId, AttributesOk, Coded, CodedOne, Tagged;
      ghost var coded := [];
      var i := 0;
      CodedWhole(e, attributes);
      while i < |attributes|
        invariant i <= |attributes|
        invariant Coded(e, attributes) == coded + Coded(e, attributes[i..])
        invariant Tagged(before, id, coded, out)
      {
        var a := attributes[i];
        CodedStep(e, attributes, i, coded);
        var known := FindAttribute(e, a.name);
        CodedKnown(e, a);
        if known.Some? {
          IdFits(e, a.name);
          TaggedMore(before, id, coded, out, Attribute(known.value, a.value));
          out := out + ([IdByte(known.value)] + a.value + [MARK]);
        } else {
          assert coded + [] == coded;
        }
        coded := coded + CodedOne(e, a);
        i := i + 1;
      }
      CodedEnd(e, attributes, coded);
    }

    method OutputStartTag(e: nat, attributes: seq<RawAttribute>)
      requires e < DOCUMENT
      modifies this`out
      ensures EventOk(StartOf(e, attributes))
      ensures out == old(out) + WriteEvent(StartOf(e, attributes))
    {
      var element := Alias(e);
      AliasSmall(e);
      CodedFits(element, attributes);
      hide Alias, Coded;
      out := out + [MARK, IdByte(element)];
      TagBegun(old(out), IdByte(element));
      OutputAttributes(element, IdByte(element), attributes, old(out));
      TagDone(old(out), IdByte(element), Coded(element, attributes), out);
      out := out + [MARK];
    }

    method OutputEndTag(e: nat)
      requires e < DOCUMENT
      modifies this`out
      ensures EventOk(End(Alias(e)))
      ensures out == old(out) + WriteEvent(End(Alias(e)))
    {
      AliasSmall(e);
      out := out + [MARK, MARK, IdByte(Alias(e))];
    }

    /** One child element: its tags around whatever its own parse writes, then the next token to look at. */
    method ParseChild(e: nat, c: nat, attributes: seq<RawAttribute>, first: Signal, ghost bound: nat)
      returns (signal: Signal, ghost kids: seq<Node>)
      requires Ready(State(first, rest)) && bound >= 2 && c < DOCUMENT
      requires Below(e, c, State(first, rest), bound)
      modifies this
      ensures kids == Parse(c, State(first, old(rest))).kids
      ensures State(signal, rest) == Resume(Parse(c, State(first, old(rest))).next)
      ensures Wrote(old(out), [Branch(c, attributes, kids)], out)
      decreases bound, Rank(e), 0
    {
      hide Rank, Wrote, WriteEvent, StartOf, EventOk, Alias, Parse;
      OutputStartTag(c, attributes);
      signal, kids := ParseElement(c, first);
      ghost var filled := out;
      OutputEndTag(c);
      WroteBranch(old(out), c, attributes, kids, filled);
      if signal.Nothing? {
        signal := NextToken();
      }
    }

    /** The children of an element, written as they are found. */
    method ParseElement(e: nat, first: Signal) returns (signal: Signal, ghost kids: seq<Node>)
      requires Ready(State(first, rest))
      modifies this
      ensures Did(e, State(first, old(rest)), old(out), kids, State(signal, rest), out)
      decreases Weight(State(first, rest)), Rank(e), 1
    {
      hide Row, Rank, Model, NamedFrom, Allowable, TextHolder, Wrote, Midway;
      signal, kids := first, [];
      ghost var st0 := State(first, rest);
      ghost var whole := Parse(e, st0);
      MidwayStart(e, st0);
      WroteNone(out);
      while signal != Finish
        invariant Ready(State(signal, rest)) && Weight(State(signal, rest)) <= Weight(st0)
        invariant Midway(e, whole, kids, State(signal, rest))
        invariant Wrote(old(out), kids, out)
        decreases Weight(State(signal, rest))
      {
        ghost var st := State(signal, rest);
        match signal.token
        case Words(text) =>
          if Row(e).content == MixedContent {
            var shown := CollapseSpaces(text);
            WroteLeaf(out, shown);
            WroteMore(old(out), kids, out, [Leaf(shown)], out + shown);
            OutputText(shown);
            signal := NextToken();
            MidwayNode(e, whole, kids, st, Leaf(shown), State(signal, rest));
            kids := kids + [Leaf(shown)];
          } else if Row(e).content == LiteralContent {
            WroteLeaf(out, text);
            WroteMore(old(out), kids, out, [Leaf(text)], out + text);
            OutputText(text);
            signal := NextToken();
            MidwayNode(e, whole, kids, st, Leaf(text), State(signal, rest));
            kids := kids + [Leaf(text)];
          } else if Blank(text) {
            signal := NextToken();
            MidwaySkip(e, whole, kids, st, State(signal, rest));
          } else {
            var holder := FindNonElementContentElement(e);
            if holder.Some? {
              ghost var before, inner := out, [];
              signal, inner := ParseChild(e, holder.value, [], signal, Weight(st));
              MidwayNode(e, whole, kids, st, Branch(holder.value, [], inner), State(signal, rest));
              WroteMore(old(out), kids, before, [Branch(holder.value, [], inner)], out);
              kids := kids + [Branch(holder.value, [], inner)];
            } else if Row(e).endOptional {
              MidwayEnd(e, whole, kids, st, st);
              return;
            } else {
              signal := NextToken();
              MidwaySkip(e, whole, kids, st, State(signal, rest));
            }
          }
        case Open(name, attributes) =>
          var c := FindElement(name);
          if c.None? {
            signal := NextToken();
            MidwaySkip(e, whole, kids, st, State(signal, rest));
          } else {
            NamedIff(name, c.value);
            var allowed := IsElementAllowed(e, c.value);
            ghost var before, inner := out, [];
            if allowed {
              signal := NextToken();
              signal, inner := ParseChild(e, c.value, attributes, signal, Weight(st));
              MidwayNode(e, whole, kids, st, Branch(c.value, attributes, inner), State(signal, rest));
              WroteMore(old(out), kids, before, [Branch(c.value, attributes, inner)], out);
              kids := kids + [Branch(c.value, attributes, inner)];
            } else {
              var m := FindAllowableElement(e, c.value);
              if m.Some? {
                signal, inner := ParseChild(e, m.value, [], signal, Weight(st));
                MidwayNode(e, whole, kids, st, Branch(m.value, [], inner), State(signal, rest));
                WroteMore(old(out), kids, before, [Branch(m.value, [], inner)], out);
                kids := kids + [Branch(m.value, [], inner)];
              } else if Row(e).endOptional {
                MidwayEnd(e, whole, kids, st, st);
                return;
              } else {
                signal := NextToken();
                MidwaySkip(e, whole, kids, st, State(signal, rest));
              }
            }
          }
        case Close(name) =>
          var c := FindElement(name);
          if c.None? {
            signal := NextToken();
            MidwaySkip(e, whole, kids, st, State(signal, rest));
          } else if c.value == e {
            MidwayEnd(e, whole, kids, st, State(Nothing, rest));
            signal := Nothing;
            return;
          } else if Row(e).endOptional {
            MidwayEnd(e, whole, kids, st, st);
            return;
          } else {
            signal := NextToken();
            MidwaySkip(e, whole, kids, st, State(signal, rest));
          }
      }
      MidwayEnd(e, whole, kids, State(signal, rest), State(Got(Close(Row(e).name)), rest));
      signal := Got(Close(Row(e).name));
    }

    /** A whole page. */
    method ParsePage() returns (ghost kids: seq<Node>)
      modifies this
      ensures kids == Repaired(old(rest))
      ensures Wrote(old(out), kids, out)
    {
      hide Parse, Wrote;
      var signal := NextToken();
      signal, kids := ParseElement(DOCUMENT, signal);
    }
  }

  /** Whatever the tokens, the page that is written nests properly and respects every content model. */
  lemma PageNests(tokens: seq<Token>)
    ensures WellNested(Events(Repaired(tokens)))
    ensures EventsOk(Events(Repaired(tokens)))
  {
    hide Valid, Nest, Events, Parse, EventsOk;
    ParseValid(DOCUMENT, Advance(tokens));
    KidsFit(DOCUMENT, Repaired(tokens));
    KidsNest(DOCUMENT, Repaired(tokens), []);
    assert Alias(DOCUMENT) == DOCUMENT && [] + [DOCUMENT] == [DOCUMENT];
  }

  // ----- pages the byte code can carry -----

  predicate TextFree(text: seq<byte>) { MARK !in text && STOP !in text }

  predicate ValuesFree(attributes: seq<RawAttribute>) {
    forall i :: 0 <= i < |attributes| ==> MARK !in attributes[i].value
  }

  /** A token with none of the bytes the byte code reserves. */
  predicate TokenFree(t: Token) {
    match t
    case Words(text) => TextFree(text)
    case Open(_, attributes) => ValuesFree(attributes)
    case Close(_) => true
  }

  predicate StateFree(st: State) {
    (st.signal.Got? ==> TokenFree(st.signal.token)) && forall t <- st.rest :: TokenFree(t)
  }

  predicate OutcomeFree(o: Outcome) {
    AllClean(Events(o.kids)) && StateFree(o.next)
  }

  lemma AdvanceFree(rest: seq<Token>)
    requires forall t <- rest :: TokenFree(t)
    ensures StateFree(Advance(rest))
  {
    hide TokenFree;
  }

  lemma {:induction false} CollapseFree(text: seq<byte>, spaced: bool)
    requires TextFree(text)
    ensures TextFree(Collapse(text, spaced))
  {
    if text != [] {
      assert text[0] in text;
      assert forall b <- text[1..] :: b in text;
      CollapseFree(text[1..], IsSpace(text[0]));
    }
  }

  lemma {:induction false} CodedClean(e: nat, attributes: seq<RawAttribute>)
    requires ValuesFree(attributes)
    ensures AttributesClean(Coded(e, attributes))
  {
    if attributes != [] {
      CodedClean(e, attributes[1..]);
      hide AttributeId;
    }
  }

  lemma ThenFree(n: Node, o: Outcome)
    requires AllClean(NodeEvents(n)) && OutcomeFree(o)
    ensures OutcomeFree(Then(n, o))
  {
    hide NodeEvents, Clean, StateFree;
    assert ([n] + o.kids)[1..] == o.kids;
  }

  lemma BranchFree(c: nat, attributes: seq<RawAttribute>, kids: seq<Node>)
    requires ValuesFree(attributes) && AllClean(Events(kids))
    ensures AllClean(NodeEvents(Branch(c, attributes, kids)))
  {
    CodedClean(Alias(c), attributes);
    hide Events, Coded, Alias;
  }

  /** Repair invents no reserved byte. */
  lemma {:induction false} ParseFree(e: nat, st: State)
    requires Ready(st) && StateFree(st)
    ensures OutcomeFree(Parse(e, st))
    decreases Weight(st), Rank(e), 1
  {
    hide Row, Rank, Model, NamedFrom, Allowable, TextHolder, TakesText, OutcomeFree, TextFree, ValuesFree;
    AdvanceFree(st.rest);
    match st.signal
    case Finish => NoneFree(State(Got(Close(Row(e).name)), st.rest));
    case Got(Words(text)) =>
      if TakesText(e) {
        ParseFree(e, Advance(st.rest));
        CollapseFree(text, false);
        LeafFree(Shown(e, text));
        ThenFree(Leaf(Shown(e, text)), Parse(e, Advance(st.rest)));
      } else if Blank(text) {
        ParseFree(e, Advance(st.rest));
      } else if TextHolder(e).Some? {
        DescendFree(e, TextHolder(e).value, [], st, Weight(st));
      } else if Row(e).endOptional {
        NoneFree(st);
      } else {
        ParseFree(e, Advance(st.rest));
      }
    case Got(Open(name, attributes)) =>
      var c := Named(name);
      if c.None? {
        ParseFree(e, Advance(st.rest));
      } else if Allowed(e, c.value) {
        DescendFree(e, c.value, attributes, Advance(st.rest), Weight(st));
      } else if Allowable(e, c.value).Some? {
        DescendFree(e, Allowable(e, c.value).value, [], st, Weight(st));
      } else if Row(e).endOptional {
        NoneFree(st);
      } else {
        ParseFree(e, Advance(st.rest));
      }
    case Got(Close(name)) =>
      var c := Named(name);
      if c.None? || (c.value != e && !Row(e).endOptional) {
        ParseFree(e, Advance(st.rest));
      } else if c.value == e {
        NoneFree(State(Nothing, st.rest));
      } else {
        NoneFree(st);
      }
  }

  lemma NoneFree(st: State)
    requires StateFree(st)
    ensures OutcomeFree(Outcome([], st))
  {
  }

  lemma LeafFree(text: seq<byte>)
    requires TextFree(text)
    ensures AllClean(NodeEvents(Leaf(text)))
  {
  }

  lemma {:induction false} DescendFree(e: nat, c: nat, attributes: seq<RawAttribute>, st: State, bound: nat)
    requires Ready(st) && bound >= 2 && StateFree(st) && (attributes == [] || ValuesFree(attributes))
    requires Below(e, c, st, bound)
    ensures OutcomeFree(Descend(e, c, attributes, st, bound))
    decreases bound, Rank(e), 0
  {
    hide Rank, TokenFree, Accepts;
    var inner := Parse(c, st);
    ParseFree(c, st);
    AdvanceFree(inner.next.rest);
    ParseFree(e, Resume(inner.next));
    BranchFree(c, attributes, inner.kids);
    ThenFree(Branch(c, attributes, inner.kids), Parse(e, Resume(inner.next)));
  }

  /** Compacting a page and reading the byte code back gives the repaired page, up to joined text, exactly when
      it holds no reserved byte; for that it is enough that the tokens hold none. */
  method CompactAndRead(tokens: seq<Token>) returns (r: Option<seq<Event>>)
    ensures r == Some(Merge(Events(Repaired(tokens)))) <==> AllClean(Events(Repaired(tokens)))
    ensures (forall t <- tokens :: TokenFree(t)) ==> r == Some(Merge(Events(Repaired(tokens))))
  {
    hide Merge, Events, Parse, Read, WriteAll, AllClean;
    var parser := new PageParser(tokens);
    ghost var kids := parser.ParsePage();
    PageNests(tokens);
    var bytes := parser.out;
    assert bytes == WriteAll(Events(kids));
    var reader := new PageReader(bytes);
    r := reader.Decode();
    RoundTripIff(Events(kids));
    if forall t <- tokens :: TokenFree(t) {
      AdvanceFree(tokens);
      ParseFree(DOCUMENT, Advance(tokens));
    }
  }
}
