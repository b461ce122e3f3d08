/** The byte code of a compacted page: how tags and text are written, and how the receiving side reads them. */
module HtmlBytes {
  import opened BitStrings
  import opened Options

  datatype Attribute = Attribute(id: int, value: seq<byte>)

  datatype Event =
    | Text(text: seq<byte>)
    | Start(element: int, attributes: seq<Attribute>)
    | End(element: int)

  const MARK: byte := 0
  const STOP: byte := 255

  // ----- writing -----

  /** An id that fits the signed byte it is written in. */
  predicate IdOk(id: int) { 0 <= id < 127 }

  function IdByte(id: int): byte
    requires IdOk(id)
  {
    (id + 1) as byte
  }

  predicate AttributesOk(attributes: seq<Attribute>) {
    forall i :: 0 <= i < |attributes| ==> IdOk(attributes[i].id)
  }

  predicate EventOk(e: Event) {
    match e
    case Text(_) => true
    case Start(id, attributes) => IdOk(id) && AttributesOk(attributes)
    case End(id) => IdOk(id)
  }

  predicate EventsOk(es: seq<Event>) {
    forall i :: 0 <= i < |es| ==> EventOk(es[i])
  }

  function WriteAttributes(attributes: seq<Attribute>): seq<byte>
    requires AttributesOk(attributes)
  {
    if attributes == [] then []
    else [IdByte(attributes[0].id)] + attributes[0].value + [MARK] + WriteAttributes(attributes[1..])
  }

  function WriteEvent(e: Event): seq<byte>
    requires EventOk(e)
  {
    match e
    case Text(text) => text
    case Start(id, attributes) => [MARK, IdByte(id)] + WriteAttributes(attributes) + [MARK]
    case End(id) => [MARK, MARK, IdByte(id)]
  }

  function WriteAll(es: seq<Event>): seq<byte>
    requires EventsOk(es)
  {
    if es == [] then [] else WriteEvent(es[0]) + WriteAll(es[1..])
  }

  /** The byte code of an element with one attribute around a text. */
  lemma WrittenSample(x: byte)
    ensures WriteAll([Start(4, [Attribute(0, [x])]), Text([104, 105]), End(4)]) ==
            [0, 5, 1, x, 0, 0, 104, 105, 0, 0, 5]
  {
    var start, text, end := Start(4, [Attribute(0, [x])]), Text([104, 105]), End(4);
    assert WriteAttributes([Attribute(0, [x])]) == [1, x, 0] by {
      assert [Attribute(0, [x])][1..] == [];
      assert WriteAttributes([]) == [];
    }
    assert WriteEvent(start) == [0, 5, 1, x, 0, 0];
    assert [start, text, end][1..] == [text, end] && [text, end][1..] == [end] && [end][1..] == [];
    hide WriteEvent;
    assert WriteAll([end]) == WriteEvent(end) + [];
  }

  lemma {:induction false} WriteAllAppend(a: seq<Event>, b: seq<Event>)
    requires EventsOk(a) && EventsOk(b)
    ensures EventsOk(a + b) && WriteAll(a + b) == WriteAll(a) + WriteAll(b)
  {
    if a == [] {
      assert a + b == b;
    } else {
      assert (a + b)[1..] == a[1..] + b;
      WriteAllAppend(a[1..], b);
      hide WriteEvent;
    }
  }

  lemma {:induction false} WriteAttributesAppend(a: seq<Attribute>, x: Attribute)
    requires AttributesOk(a) && IdOk(x.id)
    ensures AttributesOk(a + [x])
    ensures WriteAttributes(a + [x]) == WriteAttributes(a) + [IdByte(x.id)] + x.value + [MARK]
  {
    if a == [] {
      assert a + [x] == [x];
    } else {
      assert (a + [x])[1..] == a[1..] + [x];
      WriteAttributesAppend(a[1..], x);
    }
  }

  // ----- reading -----

  /** The byte as the signed number the reader works with. */
  function Signed(b: byte): int { if b < 128 then b as int else b as int - 256 }

  /** The next byte, the end of input being indistinguishable from the byte 255. */
  function Peek(bs: seq<byte>): byte { if bs == [] then STOP else bs[0] }

  function Skip(bs: seq<byte>): seq<byte> { if bs == [] then [] else bs[1..] }

  /** How many bytes come before the first that ends plain text. */
  function TextLength(bs: seq<byte>): (n: nat)
    ensures n <= |bs|
  {
    if bs == [] || bs[0] == MARK || bs[0] == STOP then 0 else 1 + TextLength(bs[1..])
  }

  /** How many bytes come before the first zero, if there is one. */
  function ValueLength(bs: seq<byte>): (n: Option<nat>)
    ensures n.Some? ==> n.value < |bs| && bs[n.value] == MARK
  {
    if bs == [] then None
    else if bs[0] == MARK then Some(0)
    else
      var n := ValueLength(bs[1..]);
      if n.None? then None else Some(1 + n.value)
  }

  /** The attributes up to the closing zero, and what follows it; None when the input ends first, where the
      reader loops for ever. */
  function ReadAttributes(bs: seq<byte>): (r: Option<(seq<Attribute>, seq<byte>)>)
    ensures r.Some? ==> |r.value.1| < |bs|
  {
    if bs == [] then None
    else if bs[0] == MARK then Some(([], bs[1..]))
    else
      var n := ValueLength(bs[1..]);
      if n.None? then None
      else
        var rest := ReadAttributes(bs[1..][n.value + 1..]);
        if rest.None? then None
        else Some(([Attribute(Signed(bs[0]) - 1, bs[1..][..n.value])] + rest.value.0, rest.value.1))
  }

  /** What the reader makes of the bytes: the events up to the first STOP in place of text or a tag, or None
      when the input ends inside a start tag. */
  function Read(bs: seq<byte>): (r: Option<seq<Event>>)
    decreases |bs|
  {
    if bs == [] || bs[0] == STOP then Some([])
    else if bs[0] == MARK then
      if Peek(bs[1..]) == MARK then Put(End(Signed(Peek(bs[2..])) - 1), Read(Skip(bs[2..])))
      else
        var r := ReadAttributes(Skip(bs[1..]));
        if r.None? then None else Put(Start(Signed(Peek(bs[1..])) - 1, r.value.0), Read(r.value.1))
    else
      var n := TextLength(bs);
      Put(Text(bs[..n]), Read(bs[n..]))
  }

  function Put(e: Event, es: Option<seq<Event>>): Option<seq<Event>> {
    if es.None? then None else Some([e] + es.value)
  }

  // ----- round trip -----

  predicate AttributesClean(attributes: seq<Attribute>) {
    forall i :: 0 <= i < |attributes| ==> MARK !in attributes[i].value
  }

  /** No zero byte in text or values and no 255 in text: what the byte code can carry. */
  predicate Clean(e: Event) {
    match e
    case Text(text) => MARK !in text && STOP !in text
    case Start(_, attributes) => AttributesClean(attributes)
    case End(_) => true
  }

  predicate AllClean(es: seq<Event>) {
    forall i :: 0 <= i < |es| ==> Clean(es[i])
  }

  /** Neighbouring text joined and empty text dropped. */
  function Merge(es: seq<Event>): seq<Event> {
    if es == [] then [] else MergeOne(es[0], Merge(es[1..]))
  }

  function MergeOne(e: Event, es: seq<Event>): seq<Event> {
    if e.Text? && e.text == [] then es
    else if e.Text? && es != [] && es[0].Text? then [Text(e.text + es[0].text)] + es[1..]
    else [e] + es
  }

  lemma {:induction false} ReadsValue(v: seq<byte>, rest: seq<byte>)
    requires MARK !in v
    ensures ValueLength(v + [MARK] + rest) == Some(|v|)
  {
    var bs := v + [MARK] + rest;
    if v != [] {
      assert bs[1..] == v[1..] + [MARK] + rest;
      ReadsValue(v[1..], rest);
    }
  }

  lemma ReadsAttribute(a: Attribute, more: seq<byte>, attributes: seq<Attribute>, rest: seq<byte>)
    requires IdOk(a.id) && MARK !in a.value
    requires ReadAttributes(more) == Some((attributes, rest))
    ensures ReadAttributes([IdByte(a.id)] + (a.value + [MARK] + more)) == Some(([a] + attributes, rest))
  {
    var tail := a.value + [MARK] + more;
    var bs := [IdByte(a.id)] + tail;
    assert bs[1..] == tail;
    ReadsValue(a.value, more);
    assert tail[|a.value| + 1..] == more;
    assert tail[..|a.value|] == a.value;
    assert Signed(bs[0]) - 1 == a.id;
  }

  lemma Regroup(id: seq<byte>, value: seq<byte>, more: seq<byte>, rest: seq<byte>)
    ensures id + value + [MARK] + more + [MARK] + rest == id + (value + [MARK] + (more + [MARK] + rest))
  {
  }

  lemma {:induction false} ReadsAttributes(attributes: seq<Attribute>, rest: seq<byte>)
    requires AttributesOk(attributes) && AttributesClean(attributes)
    ensures ReadAttributes(WriteAttributes(attributes) + [MARK] + rest) == Some((attributes, rest))
  {
    if attributes == [] {
      NoAttributes(rest);
    } else {
      var a, more := attributes[0], WriteAttributes(attributes[1..]) + [MARK] + rest;
      ReadsAttributes(attributes[1..], rest);
      assert WriteAttributes(attributes) == [IdByte(a.id)] + a.value + [MARK] + WriteAttributes(attributes[1..]);
      hide ReadAttributes, WriteAttributes;
      ReadsAttribute(a, more, attributes[1..], rest);
      Regroup([IdByte(a.id)], a.value, WriteAttributes(attributes[1..]), rest);
      assert [a] + attributes[1..] == attributes;
    }
  }

  lemma NoAttributes(rest: seq<byte>)
    ensures ReadAttributes(WriteAttributes([]) + [MARK] + rest) == Some(([], rest))
  {
    assert WriteAttributes([]) + [MARK] + rest == [MARK] + rest;
  }

  lemma ReadsStart(id: int, bs: seq<byte>, attributes: seq<Attribute>, rest: seq<byte>)
    requires IdOk(id) && ReadAttributes(bs) == Some((attributes, rest))
    ensures Read([MARK, IdByte(id)] + bs) == Put(Start(id, attributes), Read(rest))
  {
    var all := [MARK, IdByte(id)] + bs;
    assert all[1..] == [IdByte(id)] + bs;
    assert Skip(all[1..]) == bs;
  }

  lemma ReadsEnd(id: nat, rest: seq<byte>)
    requires IdOk(id)
    ensures Read([MARK, MARK, IdByte(id)] + rest) == Put(End(id), Read(rest))
  {
    hide ReadAttributes, TextLength;
    var bs := [MARK, MARK, IdByte(id)] + rest;
    assert bs[1..] == [MARK, IdByte(id)] + rest;
    assert bs[2..] == [IdByte(id)] + rest;
    assert Skip(bs[2..]) == rest;
  }

  lemma ReadsTag(e: Event, rest: seq<byte>)
    requires !e.Text? && EventOk(e) && Clean(e)
    ensures Read(WriteEvent(e) + rest) == Put(e, Read(rest))
  {
    var bs := WriteEvent(e) + rest;
    match e
    case End(id) => ReadsEnd(id, rest);
    case Start(id, attributes) =>
      var tail := WriteAttributes(attributes) + [MARK] + rest;
      assert bs == [MARK, IdByte(id)] + tail;
      ReadsAttributes(attributes, rest);
      hide Read, ReadAttributes, WriteAttributes;
      ReadsStart(id, tail, attributes, rest);
  }

  lemma {:induction false} TextRuns(t: seq<byte>, rest: seq<byte>)
    requires MARK !in t && STOP !in t
    ensures TextLength(t + rest) == |t| + TextLength(rest)
  {
    if t == [] {
      assert t + rest == rest;
    } else {
      assert (t + rest)[1..] == t[1..] + rest;
      TextRuns(t[1..], rest);
    }
  }

  lemma ReadsText(t: seq<byte>, rest: seq<byte>, es: seq<Event>)
    requires t != [] && MARK !in t && STOP !in t
    requires Read(rest) == Some(es)
    ensures Read(t + rest) == Some(MergeOne(Text(t), es))
  {
    var n := TextLength(rest);
    ReadsRun(t, rest);
    hide ReadAttributes, TextLength;
    if n == 0 {
      NoTextFirst(rest);
      assert rest[n..] == rest && t + rest[..n] == t;
    } else {
      TextFirst(rest);
      hide Read;
    }
  }

  lemma ReadsRun(t: seq<byte>, rest: seq<byte>)
    requires t != [] && MARK !in t && STOP !in t
    ensures var n := TextLength(rest); Read(t + rest) == Put(Text(t + rest[..n]), Read(rest[n..]))
  {
    hide ReadAttributes;
    var bs, n := t + rest, TextLength(rest);
    TextRuns(t, rest);
    hide TextLength;
    assert bs[0] == t[0];
    assert bs[..|t| + n] == t + rest[..n];
    assert bs[|t| + n..] == rest[n..];
  }

  lemma NoTextFirst(rest: seq<byte>)
    requires TextLength(rest) == 0
    ensures var r := Read(rest); r.Some? && r.value != [] ==> !r.value[0].Text?
  {
    hide ReadAttributes;
  }

  lemma TextFirst(rest: seq<byte>)
    requires TextLength(rest) > 0
    ensures var n := TextLength(rest); Read(rest) == Put(Text(rest[..n]), Read(rest[n..]))
  {
    hide ReadAttributes;
  }

  /** Reading back clean events gives them back, up to joined text. */
  lemma {:induction false} ReadsBack(es: seq<Event>)
    requires EventsOk(es) && AllClean(es)
    ensures Read(WriteAll(es)) == Some(Merge(es))
  {
    if es != [] {
      var rest := WriteAll(es[1..]);
      ReadsBack(es[1..]);
      if es[0].Text? {
        if es[0].text == [] {
          assert es[0].text + rest == rest;
        } else {
          ReadsText(es[0].text, rest, Merge(es[1..]));
        }
      } else {
        ReadsTag(es[0], rest);
      }
    }
  }

  lemma {:induction false} TextIsClean(bs: seq<byte>)
    ensures MARK !in bs[..TextLength(bs)] && STOP !in bs[..TextLength(bs)]
  {
    if bs != [] && bs[0] != MARK && bs[0] != STOP {
      TextIsClean(bs[1..]);
      assert bs[..TextLength(bs)] == [bs[0]] + bs[1..][..TextLength(bs[1..])];
    }
  }

  lemma {:induction false} ValueIsClean(bs: seq<byte>)
    ensures ValueLength(bs).Some? ==> MARK !in bs[..ValueLength(bs).value]
  {
    if bs != [] && bs[0] != MARK {
      ValueIsClean(bs[1..]);
      if ValueLength(bs).Some? {
        assert bs[..ValueLength(bs).value] == [bs[0]] + bs[1..][..ValueLength(bs[1..]).value];
      }
    }
  }

  lemma {:induction false} AttributesAreClean(bs: seq<byte>)
    ensures ReadAttributes(bs).Some? ==> AttributesClean(ReadAttributes(bs).value.0)
    decreases |bs|
  {
    if bs != [] && bs[0] != MARK {
      ValueIsClean(bs[1..]);
      var n := ValueLength(bs[1..]);
      if n.Some? {
        AttributesAreClean(bs[1..][n.value + 1..]);
      }
    }
  }

  /** Whatever the bytes, the reader never delivers an unclean event. */
  lemma {:induction false} ReadIsClean(bs: seq<byte>)
    ensures Read(bs).Some? ==> AllClean(Read(bs).value)
    decreases |bs|
  {
    if bs != [] && bs[0] != STOP {
      if bs[0] != MARK {
        TextIsClean(bs);
        ReadIsClean(bs[TextLength(bs)..]);
      } else if Peek(bs[1..]) == MARK {
        ReadIsClean(Skip(bs[2..]));
      } else {
        AttributesAreClean(Skip(bs[1..]));
        var r := ReadAttributes(Skip(bs[1..]));
        if r.Some? {
          ReadIsClean(r.value.1);
        }
      }
    }
  }

  lemma {:induction false} MergeKeepsUnclean(es: seq<Event>)
    ensures AllClean(Merge(es)) ==> AllClean(es)
  {
    if es != [] {
      MergeKeepsUnclean(es[1..]);
      var m := Merge(es[1..]);
      if AllClean(Merge(es)) {
        MergeOneUnclean(es[0], m);
        assert es == [es[0]] + es[1..];
      }
    }
  }

  lemma MergeOneUnclean(e: Event, m: seq<Event>)
    requires AllClean(MergeOne(e, m))
    ensures Clean(e) && AllClean(m)
  {
    var r := MergeOne(e, m);
    if e.Text? && e.text == [] {
    } else if e.Text? && m != [] && m[0].Text? {
      assert Clean(r[0]);
      assert forall i :: 1 <= i < |m| ==> m[i] == r[i];
      assert forall b <- e.text :: b in r[0].text;
      assert forall b <- m[0].text :: b in r[0].text;
    } else {
      assert r[0] == e;
      assert forall i :: 0 <= i < |m| ==> m[i] == r[i + 1];
    }
  }

  /** The byte code carries a page, up to joined text, exactly when the page holds no byte the code reserves. */
  lemma RoundTripIff(es: seq<Event>)
    requires EventsOk(es)
    ensures Read(WriteAll(es)) == Some(Merge(es)) <==> AllClean(es)
  {
    if AllClean(es) {
      ReadsBack(es);
    } else {
      ReadIsClean(WriteAll(es));
      MergeKeepsUnclean(es);
    }
  }

  // ----- the reader -----

  function Join(es: seq<Event>, r: Option<seq<Event>>): Option<seq<Event>> {
    if r.None? then None else Some(es + r.value)
  }

  lemma JoinPut(es: seq<Event>, e: Event, r: Option<seq<Event>>)
    ensures Join(es, Put(e, r)) == Join(es + [e], r)
  {
    if r.Some? {
      assert es + ([e] + r.value) == es + [e] + r.value;
    }
  }

  /** Input with its first byte already taken; taking it at the end of input gives STOP. */
  lemma ReadTaken(bs: seq<byte>)
    ensures Read([Peek(bs)] + Skip(bs)) == Read(bs)
    ensures ReadAttributes([Peek(bs)] + Skip(bs)) == ReadAttributes(bs)
    ensures TextLength([Peek(bs)] + Skip(bs)) == TextLength(bs)
  {
    if bs == [] {
      assert [Peek(bs)] + Skip(bs) == [STOP];
      assert ValueLength([STOP][1..]) == None;
    } else {
      assert [Peek(bs)] + Skip(bs) == bs;
    }
  }

  lemma ReadTakenEnd(bs: seq<byte>)
    ensures Read([MARK, MARK] + bs) == Put(End(Signed(Peek(bs)) - 1), Read(Skip(bs)))
  {
    var all := [MARK, MARK] + bs;
    assert all[1..] == [MARK] + bs && all[2..] == bs;
  }

  lemma ReadTakenStart(bs: seq<byte>)
    requires Peek(bs) != MARK
    ensures Read([MARK] + bs) ==
            var r := ReadAttributes(Skip(bs));
            if r.None? then None else Put(Start(Signed(Peek(bs)) - 1, r.value.0), Read(r.value.1))
  {
    var all := [MARK] + bs;
    assert all[1..] == bs;
  }

  lemma ReadTakenText(b: byte, bs: seq<byte>)
    requires b != MARK && b != STOP
    ensures var n := TextLength([b] + bs);
            Read([b] + bs) == Put(Text(([b] + bs)[..n]), Read(([b] + bs)[n..]))
  {
  }

  lemma ReadStopped(bs: seq<byte>)
    ensures Read([STOP] + bs) == Some([])
  {
  }

  lemma {:induction false} ValueFrom(v: seq<byte>, bs: seq<byte>)
    requires MARK !in v
    ensures ValueLength(v + bs) == if ValueLength(bs).None? then None else Some(|v| + ValueLength(bs).value)
  {
    if v == [] {
      assert v + bs == bs;
    } else {
      assert (v + bs)[1..] == v[1..] + bs;
      ValueFrom(v[1..], bs);
    }
  }

  function JoinAttributes(attributes: seq<Attribute>, r: Option<(seq<Attribute>, seq<byte>)>)
    : Option<(seq<Attribute>, seq<byte>)>
  {
    if r.None? then None else Some((attributes + r.value.0, r.value.1))
  }

  lemma JoinNothing(r: Option<seq<Event>>, a: Option<(seq<Attribute>, seq<byte>)>)
    ensures Join([], r) == r && JoinAttributes([], a) == a
  {
    if r.Some? {
      assert [] + r.value == r.value;
    }
    if a.Some? {
      assert [] + a.value.0 == a.value.0;
    }
  }

  lemma AttributesStep(attributes: seq<Attribute>, b: byte, bs: seq<byte>)
    ensures b == MARK ==> JoinAttributes(attributes, ReadAttributes([b] + bs)) == Some((attributes, bs))
    ensures b != MARK && ValueLength(bs).None? ==> ReadAttributes([b] + bs) == None
    ensures b != MARK && ValueLength(bs).Some? ==>
              var n := ValueLength(bs).value;
              JoinAttributes(attributes, ReadAttributes([b] + bs)) ==
              JoinAttributes(attributes + [Attribute(Signed(b) - 1, bs[..n])], ReadAttributes(bs[n + 1..]))
  {
    var all := [b] + bs;
    assert all[1..] == bs;
    if b == MARK {
      assert attributes + [] == attributes;
    } else if ValueLength(bs).Some? {
      var n := ValueLength(bs).value;
      var rest := ReadAttributes(bs[n + 1..]);
      if rest.Some? {
        var a := Attribute(Signed(b) - 1, bs[..n]);
        assert attributes + ([a] + rest.value.0) == attributes + [a] + rest.value.0;
      }
    }
  }

  class PageReader {
    var input: seq<byte>

    constructor (bytes: seq<byte>)
      ensures input == bytes
    {
      input := bytes;
    }

    method Take() returns (b: byte)
      modifies this
      ensures b == Peek(old(input)) && input == Skip(old(input))
    {
      if input == [] {
        b := STOP;
      } else {
        b := input[0];
        input := input[1..];
      }
    }

    /** The value up to the next zero; ok is false when the input ends first. */
    method TakeValue() returns (ok: bool, value: seq<byte>)
      modifies this
      ensures ok == ValueLength(old(input)).Some?
      ensures ok ==> value == old(input)[..ValueLength(old(input)).value]
      ensures ok ==> input == old(input)[ValueLength(old(input)).value + 1..]
    {
      value := [];
      ghost var all := input;
      while true
        invariant all == value + input && MARK !in value
        decreases |input|
      {
        if input == [] {
          ValueFrom(value, []);
          return false, value;
        }
        var b := Take();
        if b == MARK {
          ReadsValue(value, input);
          assert all == value + [MARK] + input;
          return true, value;
        }
        value := value + [b];
        assert all == value + input;
      }
    }

    /** The attributes of a start tag whose element has just been read. */
    method TakeAttributes() returns (ok: bool, attributes: seq<Attribute>)
      modifies this
      ensures ok == ReadAttributes(old(input)).Some?
      ensures ok ==> ReadAttributes(old(input)).value == (attributes, input)
    {
      hide ReadAttributes, ValueLength, Read, TextLength;
      ghost var all := ReadAttributes(input);
      JoinNothing(None, all);
      attributes := [];
      ReadTaken(input);
      var b := Take();
      while b != MARK
        invariant all == JoinAttributes(attributes, ReadAttributes([b] + input))
        decreases |input|
      {
        AttributesStep(attributes, b, input);
        var more, value := TakeValue();
        if !more {
          return false, attributes;
        }
        attributes := attributes + [Attribute(Signed(b) - 1, value)];
        ReadTaken(input);
        b := Take();
      }
      AttributesStep(attributes, b, input);
      return true, attributes;
    }

    /** The plain text that starts with a byte already taken, and the byte after it. */
    method TakeText(first: byte) returns (text: seq<byte>, b: byte)
      requires first != MARK && first != STOP
      modifies this
      ensures text == ([first] + old(input))[..TextLength([first] + old(input))]
      ensures Read([b] + input) == Read(([first] + old(input))[TextLength([first] + old(input))..])
      ensures b == STOP || |input| < |old(input)|
    {
      ghost var all := [first] + input;
      text := [first];
      ghost var rest := input;
      b := Take();
      while b != MARK && b != STOP
        invariant all == text + rest && MARK !in text && STOP !in text
        invariant if rest == [] then b == STOP && input == [] else rest == [b] + input
        decreases |rest|
      {
        text := text + [b];
        rest := input;
        b := Take();
      }
      TextRuns(text, rest);
      assert TextLength(rest) == 0;
      assert all[|text|..] == rest;
    }

    /** Reads a whole page. */
    method Decode() returns (r: Option<seq<Event>>)
      modifies this
      ensures r == Read(old(input))
    {
      hide Read, ReadAttributes, ValueLength, TextLength;
      var events := [];
      ghost var all := Read(input);
      JoinNothing(all, None);
      ReadTaken(input);
      var b := Take();
      while b != STOP
        invariant all == Join(events, Read([b] + input))
        decreases if b == STOP then 0 else 1 + |input|
      {
        if b == MARK {
          ghost var bs := input;
          b := Take();
          if b == MARK {
            ghost var tail := input;
            assert [MARK] + bs == [MARK, MARK] + tail;
            ReadTakenEnd(tail);
            b := Take();
            JoinPut(events, End(Signed(b) - 1), Read(input));
            events := events + [End(Signed(b) - 1)];
          } else {
            ReadTakenStart(bs);
            var ok, attributes := TakeAttributes();
            if !ok {
              return None;
            }
            JoinPut(events, Start(Signed(b) - 1, attributes), Read(input));
            events := events + [Start(Signed(b) - 1, attributes)];
          }
          ReadTaken(input);
          b := Take();
        } else {
          ReadTakenText(b, input);
          var text;
          text, b := TakeText(b);
          JoinPut(events, Text(text), Read([b] + input));
          events := events + [Text(text)];
        }
      }
      ReadStopped(input);
      assert events + [] == events;
      return Some(events);
    }
  }
}
