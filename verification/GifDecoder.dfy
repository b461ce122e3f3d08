/** The GIF LZW reader: one pixel per call, from arbitrary (possibly corrupt) data. */
module GifDecoder {
  import opened BitStrings
  import opened LzwSpec
  import opened SubBlocks
  import opened CodeSource
  import opened Options

  /** What a reader holds between pixels: its table state, the expanded pixels not yet returned,
      and the bits not yet read. */
  datatype View = View(first: bool, reader: Reader, stack: seq<nat>, bits: seq<bool>) {
    predicate Ok(cs: nat) {
      && 2 <= cs < MAX_BITS
      && reader.Ok(cs)
      && (!first ==> reader.Running?)
      && |stack| <= TABLE_SIZE
      && forall i :: 0 <= i < |stack| ==> stack[i] < Pow2(cs)
    }
  }

  /** Reads codes until one yields pixels.  None: the bits ran out, or End was met. */
  function ReadSymbol(cs: nat, r: Reader, bits: seq<bool>): (res: Option<(nat, View)>)
    requires r.Ok(cs) && 2 <= cs < MAX_BITS
    ensures res.Some? ==> res.value.0 < Pow2(cs) && res.value.1.Ok(cs)
    decreases |bits|
  {
    var w := CodeSize(cs, r.Size());
    if |bits| < w then None
    else
      ValueFits(bits[..w]);
      var code := Value(bits[..w]);
      if r.Running? && code == Pow2(cs) + 1 then None
      else
        var (r', text) := Feed(cs, r, code);
        if text == [] then ReadSymbol(cs, r', bits[w..])
        else Some((text[0], View(false, r', text[1..], bits[w..])))
  }

  /** One pixel, in the abstract. */
  function NextPixel(cs: nat, v: View): (res: Option<(nat, View)>)
    requires v.Ok(cs)
    ensures res.Some? ==> res.value.0 < Pow2(cs) && res.value.1.Ok(cs)
  {
    if !v.first && v.stack != [] then Some((v.stack[0], v.(stack := v.stack[1..])))
    else ReadSymbol(cs, if v.first then Fresh else v.reader, v.bits)
  }

  /** The next code is End. */
  predicate AtEnd(cs: nat, v: View)
    requires v.Ok(cs)
  {
    var w := CodeSize(cs, v.reader.Size());
    !v.first && v.stack == [] && |v.bits| >= w && Value(v.bits[..w]) == Pow2(cs) + 1
  }

  /** Too few bits are left for a code. */
  predicate Dry(cs: nat, v: View)
    requires v.Ok(cs)
  {
    !v.first && v.stack == [] && |v.bits| < CodeSize(cs, v.reader.Size())
  }

  /** The reader after an End. */
  function Past(cs: nat, v: View, src: seq<byte>, first: nat, over: bool): (r: View)
    requires v.Ok(cs) && AtEnd(cs, v)
    ensures r.Ok(cs) && r.stack == []
  {
    View(false, v.reader, [], Remaining(src, first, over, v.bits[CodeSize(cs, v.reader.Size())..]))
  }

  /** A stack's contents in the order they are popped. */
  function Popped(s: seq<nat>): (r: seq<nat>)
    ensures |r| == |s|
  {
    if s == [] then [] else [s[|s| - 1]] + Popped(s[..|s| - 1])
  }

  lemma UnwindStep(clear: nat, dict: seq<Entry>, code: nat, rest: seq<nat>)
    requires DictOk(clear, dict) && clear + 2 <= code < clear + 2 + |dict|
    ensures var e := dict[code - clear - 2];
            && IsCode(clear, dict, e.head) && e.head < code
            && Expand(clear, dict, code) + rest == Expand(clear, dict, e.head) + ([e.tail] + rest)
  {
    assert EntryOk(clear, dict[code - clear - 2], code - clear - 2);
  }

  lemma GrowTable(cs: nat, dict: seq<Entry>, prev: nat, first: nat)
    requires DictOk(Pow2(cs), dict) && IsCode(Pow2(cs), dict, prev) && first < Pow2(cs)
    ensures DictOk(Pow2(cs), dict + [Entry(prev, first % 256)])
    ensures var w := CodeSize(cs, |dict|);
            && CodeSize(cs, |dict| + 1) == (if Pow2(cs) + 3 + |dict| >= Pow2(w) && w < MAX_BITS then w + 1 else w)
            && Pow2(w + 1) == 2 * Pow2(w)
  {
    var e := Entry(prev, first % 256);
    assert EntryOk(Pow2(cs), e, |dict|);
    DictAppend(Pow2(cs), dict, e);
  }

  lemma RawExpands(clear: nat, dict: seq<Entry>, code: nat)
    requires DictOk(clear, dict) && code < clear
    ensures Expand(clear, dict, code) == [code]
  {
  }

  class Decoder {
    const cs: nat
    const source: BitSource
    var codeSize: nat
    var limitCode: nat
    var maxCode: nat
    var firstTime: bool
    var oldcode: nat
    var firstcode: nat
    const symbolHead: array<nat>
    const symbolTail: array<nat>
    const symbolStack: array<nat>
    var sp: nat

    ghost predicate Apart() {
      && symbolHead.Length == symbolTail.Length == symbolStack.Length == TABLE_SIZE
      && symbolHead != symbolTail && symbolHead != symbolStack && symbolTail != symbolStack
      && {symbolHead, symbolTail, symbolStack, this} !! {source, source.codeBuf}
    }

    /** The symbols defined since the last Clear. */
    ghost function Dict(): (d: seq<Entry>)
      requires Apart() && Pow2(cs) + 2 <= maxCode <= TABLE_SIZE
      reads this`maxCode, symbolHead, symbolTail
      ensures |d| == maxCode - Pow2(cs) - 2
    {
      var base, n := Pow2(cs) + 2, maxCode - Pow2(cs) - 2;
      seq(n, k requires 0 <= k < n reads symbolHead, symbolTail => Entry(symbolHead[base + k], symbolTail[base + k]))
    }

    ghost predicate TableOk()
      reads this`maxCode, this`codeSize, this`limitCode, symbolHead, symbolTail
    {
      && Apart()
      && 2 <= cs < MAX_BITS
      && Pow2(cs) + 2 <= maxCode <= TABLE_SIZE
      && DictOk(Pow2(cs), Dict())
      && codeSize == CodeSize(cs, |Dict()|)
      && limitCode == Pow2(codeSize)
    }

    ghost function Stack(): seq<nat>
      requires Apart() && sp <= TABLE_SIZE
      reads this`sp, symbolStack
    {
      Popped(symbolStack[..sp])
    }

    ghost function V(): View
      requires TableOk() && source.Valid() && sp <= TABLE_SIZE
      reads this, symbolHead, symbolTail, symbolStack, source, source.codeBuf
    {
      View(firstTime, if firstTime then Fresh else Running(Dict(), oldcode, firstcode), Stack(), source.Input())
    }

    ghost predicate Valid()
      reads this, symbolHead, symbolTail, symbolStack, source, source.codeBuf
    {
      TableOk() && source.Valid() && sp <= TABLE_SIZE && V().Ok(cs)
    }

    /** InitLZWCode, for the minimum code size read from the file. */
    constructor (inputCodeSize: nat, data: seq<byte>, start: nat)
      requires 2 <= inputCodeSize < MAX_BITS
      ensures Valid() && cs == inputCodeSize
      ensures fresh(source) && fresh(source.codeBuf) && fresh(symbolHead) && fresh(symbolTail) && fresh(symbolStack)
      ensures V() == View(true, Fresh, [], ByteBits(Payload(data, start))) && source.Fate() == FateOf(data, start)
      ensures source.src == data && source.first == start && !source.outOfBlocks
    {
      hide ByteBits, Payload, FateOf, Pow2, BitSource.Shaped, BitSource.Paced, BitSource.Input, BitSource.Fate, TableOk;
      cs := inputCodeSize;
      source := new BitSource(data, start);
      firstTime := true;
      oldcode, firstcode := 0, 0;
      symbolHead := new nat[TABLE_SIZE](_ => 0);
      symbolTail := new nat[TABLE_SIZE](_ => 0);
      symbolStack := new nat[TABLE_SIZE](_ => 0);
      codeSize, limitCode, maxCode, sp := 0, 0, 0, 0;
      new;
      ReInitLZW();
      TableShape();
      assert V() == View(true, Fresh, [], source.Input());
    }

    lemma TableShape()
      requires TableOk()
      ensures Apart() && 2 <= cs < MAX_BITS
    {
    }

    method ReInitLZW()
      requires Apart() && 2 <= cs < MAX_BITS
      modifies this`codeSize, this`limitCode, this`maxCode, this`sp
      ensures TableOk() && Dict() == [] && sp == 0
    {
      codeSize := cs + 1;
      limitCode := 2 * Pow2(cs);
      maxCode := Pow2(cs) + 2;
      sp := 0;
      Pow2Values();
      Pow2Monotone(cs, 11);
    }

    /** Unwinds a symbol onto the stack, last byte first, down to its raw first byte. */
    method Unwind(start: nat, ghost rest: seq<nat>) returns (code: nat)
      requires TableOk() && IsCode(Pow2(cs), Dict(), start)
      requires sp <= 1 && Stack() == rest
      modifies this`sp, symbolStack
      ensures sp <= TABLE_SIZE
      ensures Expand(Pow2(cs), Dict(), start) + rest == [code] + Stack() && code < Pow2(cs)
    {
      hide CodeSize, Popped, Pow2, Expand;
      ghost var clear, d := Pow2(cs), Dict();
      code := start;
      while code >= Pow2(cs)
        invariant IsCode(clear, d, code)
        invariant sp <= 1 + start - code && code <= start
        invariant Expand(clear, d, start) + rest == Expand(clear, d, code) + Stack()
        decreases code
      {
        assert d[code - clear - 2] == Entry(symbolHead[code], symbolTail[code]);
        UnwindStep(clear, d, code, Stack());
        Push(symbolTail[code]);
        code := symbolHead[code];
      }
      RawExpands(clear, d, code);
    }

    method Push(x: nat)
      requires Apart() && sp < TABLE_SIZE
      modifies this`sp, symbolStack
      ensures sp == old(sp) + 1 && Stack() == [x] + old(Stack())
    {
      ghost var was := symbolStack[..sp];
      symbolStack[sp] := x;
      sp := sp + 1;
      assert symbolStack[..sp][..sp - 1] == was;
    }

    /** No more codes can be cut from the input at the present width. */
    ghost predicate Exhausted()
      reads this, symbolHead, symbolTail, symbolStack, source, source.codeBuf
    {
      Valid() && !firstTime && sp == 0 && |source.Input()| < codeSize && source.outOfBlocks
    }

    lemma ExhaustedDry()
      ensures Exhausted() ==> Valid() && Dry(cs, V())
    {
      hide CodeSize, Pow2, BitSource.Shaped, BitSource.Paced, BitSource.Input, DictOk;
    }

    /** The result and the new state are those of the abstract reader.  Where it stops, the pixel is 0 if the series of
        blocks is terminated, and otherwise the reader comes to what `fate` leads to. */
    ghost predicate Follows(p: nat, want: Option<(nat, View)>, fate: Fate)
      reads this, symbolHead, symbolTail, symbolStack, source, source.codeBuf
    {
      && (want.None? ==> source.status == Ending(fate))
      && (want.Some? ==> Valid() && p == want.value.0 && V() == want.value.1 && source.Fate() == fate)
      && (want.None? && source.status.Fine? ==> Valid() && p == 0 && !firstTime && sp == 0 && source.outOfBlocks)
    }

    /** Swallows extra Clear codes and takes the raw byte that must follow. */
    method AfterClear() returns (code: nat)
      requires TableOk() && Dict() == [] && sp == 0 && !firstTime && source.Valid()
      modifies this`oldcode, this`firstcode, source, source.codeBuf
      ensures Follows(code, ReadSymbol(cs, Fresh, old(source.Input())), old(source.Fate()))
      ensures ReadSymbol(cs, Fresh, old(source.Input())).Some? ==> source.outOfBlocks == old(source.outOfBlocks)
      ensures ReadSymbol(cs, Fresh, old(source.Input())).None? && source.status.Fine? ==> Exhausted()
    {
      hide ReadSymbol, ByteBits, Pow2, Value, Popped, BitSource.Shaped, BitSource.Paced, BitSource.Input, BitSource.Fate;
      ghost var bits := source.Input();
      code := source.GetCode(codeSize, Pow2(cs) + 1);
      while source.status.Fine? && code == Pow2(cs)
        invariant source.status.Fine? ==> source.Valid()
        invariant ReadSymbol(cs, Fresh, bits) == ReadSymbol(cs, Fresh, old(source.Input()))
        invariant codeSize <= |bits| ==>
          source.status.Fine? && code == Value(bits[..codeSize]) && source.Input() == bits[codeSize..] &&
          source.Fate() == old(source.Fate()) && source.outOfBlocks == old(source.outOfBlocks)
        invariant codeSize > |bits| ==> source.status == Ending(old(source.Fate()))
        invariant codeSize > |bits| && source.status.Fine? ==>
          code == Pow2(cs) + 1 && source.outOfBlocks && |source.Input()| < codeSize
        decreases |bits|
      {
        FreshRead(cs, bits);
        bits := source.Input();
        code := source.GetCode(codeSize, Pow2(cs) + 1);
      }
      FreshRead(cs, bits);
      if !source.status.Fine? {
        return;
      }
      if code > Pow2(cs) {
        code := 0;
      }
      firstcode := code;
      oldcode := code;
    }

    /** Defines the next symbol, if there is room, and widens the codes when it fills the width. */
    method Define()
      requires TableOk() && IsCode(Pow2(cs), Dict(), oldcode) && firstcode < Pow2(cs)
      modifies this`maxCode, this`codeSize, this`limitCode, symbolHead, symbolTail
      ensures TableOk()
      ensures Dict() == if old(maxCode) < TABLE_SIZE then old(Dict()) + [Entry(oldcode, firstcode % 256)] else old(Dict())
    {
      hide Pow2, CodeSize, DictOk, IsCode;
      if maxCode < TABLE_SIZE {
        ghost var d := Dict();
        GrowTable(cs, d, oldcode, firstcode);
        ghost var e := Entry(oldcode, firstcode % 256);
        symbolHead[maxCode] := oldcode;
        symbolTail[maxCode] := firstcode % 256;
        maxCode := maxCode + 1;
        assert Dict() == d + [e] && |Dict()| == |d| + 1;
        if maxCode >= limitCode && codeSize < MAX_BITS {
          codeSize := codeSize + 1;
          limitCode := 2 * limitCode;
        }
        assert Dict() == d + [e];
        assert codeSize == CodeSize(cs, |Dict()|);
        assert limitCode == Pow2(codeSize);
      }
    }

    /** The first half of a data code: its string on the stack, but for the first byte. */
    method ExpandCode(incode: nat) returns (next: nat)
      requires Valid() && !firstTime && sp == 0
      requires incode < Pow2(codeSize) && incode != Pow2(cs) && incode != Pow2(cs) + 1
      modifies this`sp, this`firstcode, symbolStack
      ensures incode < Pow2(CodeSize(cs, |old(Dict())|)) && sp <= TABLE_SIZE && firstcode < Pow2(cs)
      ensures Feed(cs, old(V()).reader, incode).1 == [firstcode] + Stack()
      ensures next == if incode > maxCode then 0 else incode
    {
      hide Pow2, CodeSize, BitSource.Shaped, BitSource.Paced, BitSource.Input, ByteBits, Popped, Feed, Expand, DictOk;
      FeedData(cs, Dict(), oldcode, firstcode, incode);
      ghost var text := Feed(cs, V().reader, incode).1;
      assert Stack() == [];
      var code := incode;
      next := incode;
      if code >= maxCode {
        if code > maxCode {
          next := 0;
        }
        Push(firstcode % 256);
        assert Stack() == [firstcode % 256];
        code := oldcode;
      }
      assert text == Expand(Pow2(cs), Dict(), code) + Stack();
      firstcode := Unwind(code, Stack());
    }

    /** A data code: expand it, define the next symbol, return the first pixel. */
    method Symbol(incode: nat) returns (p: nat)
      requires Valid() && !firstTime && sp == 0
      requires incode < Pow2(codeSize) && incode != Pow2(cs) && incode != Pow2(cs) + 1
      modifies this`sp, this`maxCode, this`codeSize, this`limitCode, this`oldcode, this`firstcode
      modifies symbolHead, symbolTail, symbolStack
      ensures Valid()
      ensures incode < Pow2(CodeSize(cs, |old(Dict())|))
      ensures var (r, text) := Feed(cs, old(V()).reader, incode);
              p == text[0] && V() == View(false, r, text[1..], old(V()).bits)
    {
      hide Pow2, CodeSize, BitSource.Shaped, BitSource.Paced, BitSource.Input, ByteBits, Popped, Feed, Expand, DictOk;
      FeedData(cs, Dict(), oldcode, firstcode, incode);
      ghost var (r, text) := Feed(cs, V().reader, incode);
      var next := ExpandCode(incode);
      assert text[0] == firstcode && text[1..] == Stack();
      Define();
      oldcode := next;
      p := firstcode;
      assert V() == View(false, r, text[1..], old(V()).bits);
    }

    method Pop() returns (p: nat)
      requires Valid() && sp > 0
      modifies this`sp
      ensures Valid() && V() == old(V()).(stack := old(V()).stack[1..]) && p == old(V()).stack[0]
    {
      hide Pow2, CodeSize, BitSource.Shaped, BitSource.Paced, BitSource.Input, ByteBits, Expand, DictOk;
      sp := sp - 1;
      p := symbolStack[sp];
      assert symbolStack[..sp + 1][..sp] == symbolStack[..sp];
      assert V().stack == old(V()).stack[1..];
    }

    method EndOfImage()
      requires Valid()
      modifies source
      ensures source.status == Ending(old(source.Fate()))
      ensures source.status.Fine? ==> Valid() && source.outOfBlocks
      ensures source.status.Fine? ==>
        source.Input() == Remaining(source.src, source.first, old(source.outOfBlocks), old(source.Input()))
    {
      hide Pow2, CodeSize, Expand, DictOk, Popped, BitSource.Shaped, BitSource.Paced, BitSource.Input, BitSource.Fate;
      source.Finish();
    }

    /** The next code, and whatever it calls for. */
    method ReadCode() returns (p: nat)
      requires Valid() && !firstTime && sp == 0
      modifies this, symbolHead, symbolTail, symbolStack, source, source.codeBuf
      ensures Follows(p, ReadSymbol(cs, old(V()).reader, old(V()).bits), old(source.Fate()))
      ensures var want := ReadSymbol(cs, old(V()).reader, old(V()).bits);
              && (want.Some? ==> source.outOfBlocks == old(source.outOfBlocks))
              && (want.None? && source.status.Fine? ==>
                  if AtEnd(cs, old(V())) then V() == Past(cs, old(V()), source.src, source.first, old(source.outOfBlocks))
                  else Exhausted())
    {
      hide ReadSymbol, Feed, Value, Pow2, CodeSize, Popped, BitSource.Shaped, BitSource.Paced, BitSource.Input, FateOf, ByteBits;
      RunningRead(cs, V().reader, V().bits);
      var code := source.GetCode(codeSize, Pow2(cs) + 1);
      p := 0;
      if !source.status.Fine? {
        return;
      }
      if code == Pow2(cs) {
        ReInitLZW();
        p := AfterClear();
      } else if code == Pow2(cs) + 1 {
        EndOfImage();
      } else {
        p := Symbol(code);
      }
    }

    /** One pixel.  On any data, terminated or not, the result is the abstract reader's; it is always a raw byte value,
        and once a terminated input is exhausted it is 0 for ever. */
    method LZWReadByte() returns (p: nat)
      requires Valid()
      modifies this, symbolHead, symbolTail, symbolStack, source, source.codeBuf
      ensures Follows(p, NextPixel(cs, old(V())), old(source.Fate()))
      ensures source.status.Fine? ==> p < Pow2(cs)
      ensures var want := NextPixel(cs, old(V()));
              && (want.Some? ==> source.outOfBlocks == old(source.outOfBlocks))
              && (want.None? && source.status.Fine? ==>
                  if AtEnd(cs, old(V())) then V() == Past(cs, old(V()), source.src, source.first, old(source.outOfBlocks))
                  else Exhausted())
      ensures old(Exhausted()) ==> p == 0 && Exhausted()
    {
      hide ReadSymbol, Pow2, CodeSize, Popped, BitSource.Shaped, BitSource.Paced, BitSource.Input, ByteBits;
      if firstTime {
        firstTime := false;
        ReInitLZW();
        p := AfterClear();
      } else if sp > 0 {
        p := Pop();
      } else {
        RunningRead(cs, V().reader, V().bits);
        p := ReadCode();
      }
    }
  }

  /** What a running reader does with the next code. */
  lemma RunningRead(cs: nat, r: Reader, bits: seq<bool>)
    requires 2 <= cs < MAX_BITS && r.Ok(cs) && r.Running?
    ensures var w := CodeSize(cs, r.Size());
            if |bits| < w then ReadSymbol(cs, r, bits) == None
            else
              var code, rest := Value(bits[..w]), bits[w..];
              && code < Pow2(w)
              && ReadSymbol(cs, r, bits) ==
                if code == Pow2(cs) then ReadSymbol(cs, Fresh, rest)
                else if code == Pow2(cs) + 1 then None
                else var (r', text) := Feed(cs, r, code); Some((text[0], View(false, r', text[1..], rest)))
  {
    var w := CodeSize(cs, r.Size());
    if |bits| >= w { ValueFits(bits[..w]); }
  }

  /** Feed on a data code, in the terms the stack machine computes it. */
  lemma FeedData(cs: nat, dict: seq<Entry>, prev: nat, first: nat, code: nat)
    requires 2 <= cs < MAX_BITS && Running(dict, prev, first).Ok(cs)
    requires code < Pow2(CodeSize(cs, |dict|)) && code != Pow2(cs) && code != Pow2(cs) + 1
    ensures var max := Pow2(cs) + 2 + |dict|;
            var text := if code < max then Expand(Pow2(cs), dict, code) + [] else Expand(Pow2(cs), dict, prev) + [first % 256];
            var dict' := if max < TABLE_SIZE then dict + [Entry(prev, text[0] % 256)] else dict;
            Feed(cs, Running(dict, prev, first), code) == (Running(dict', if code > max then 0 else code, text[0]), text)
  {
    hide Expand, CodeSize, Pow2;
    CodeFits(cs, |dict|);
    if code < Pow2(cs) + 2 + |dict| {
      var body := Expand(Pow2(cs), dict, code);
      assert body + [] == body;
    }
  }

  /** What a fresh reader does with the next code. */
  lemma FreshRead(cs: nat, bits: seq<bool>)
    requires 2 <= cs < MAX_BITS
    ensures |bits| < cs + 1 ==> ReadSymbol(cs, Fresh, bits) == None
    ensures |bits| >= cs + 1 ==>
      var code, rest := Value(bits[..cs + 1]), bits[cs + 1..];
      var raw := if code > Pow2(cs) then 0 else code;
      ReadSymbol(cs, Fresh, bits) ==
        if code == Pow2(cs) then ReadSymbol(cs, Fresh, rest)
        else Some((raw, View(false, Running([], raw, raw), [], rest)))
  {
    if |bits| >= cs + 1 {
      ValueFits(bits[..cs + 1]);
    }
  }
}
