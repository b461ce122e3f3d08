/** The GIF LZW compressor: variable-width code output over packets, and the matching loop. */
module GifEncoder {
  import opened BitStrings
  import opened LzwSpec
  import opened LzwSync
  import opened LzwTextbook
  import opened SubBlocks
  import StringTable
  import opened Probing

  function MaxCode(bits: nat): int {
    if bits == MAX_BITS then TABLE_SIZE else Pow2(bits) - 1
  }

  /** Moving the accumulator's low byte to the output changes no bit. */
  lemma TakeByte(bytes: seq<byte>, acc: nat, n: nat)
    requires n >= 8 && acc < Pow2(n)
    ensures ByteBits(bytes) + Bits(acc, n) == ByteBits(bytes + [acc % 256]) + Bits(Shr(acc, 8), n - 8)
    ensures Shr(acc, 8) < Pow2(n - 8)
  {
    hide Bits, Shl, Shr, Pow2, ByteBits;
    Pow2Values();
    Shr8(acc);
    Shl8(acc / 256);
    BitsConcat(acc % 256, acc / 256, 8, n - 8);
    ShrFits(acc, 8, n);
    ByteBitsAppend(bytes, acc % 256);
  }

  lemma {:induction false} ShlZero(k: nat)
    ensures Shl(0, k) == 0
  {
    if k > 0 { ShlZero(k - 1); }
  }

  /** A last, partial byte is completed with zero bits. */
  lemma PadByte(bytes: seq<byte>, acc: nat, k: nat)
    requires k < 8 && acc < Pow2(k)
    ensures acc % 256 == acc
    ensures ByteBits(bytes) + Bits(acc, k) <= ByteBits(bytes + [acc])
  {
    hide Pow2, Bits, ByteBits, Shl;
    Pow2Values();
    Pow2Monotone(k, 8);
    ShlZero(k);
    assert acc + Shl(0, k) == acc && k + (8 - k) == 8;
    BitsConcat(acc, 0, k, 8 - k);
    ByteBitsAppend(bytes, acc);
    BitsAssociate(ByteBits(bytes), Bits(acc, k), Bits(0, 8 - k));
  }

  /** The encoder's width rule, applied as a symbol is about to be defined, agrees with the
      reader's, applied after the same code has defined a symbol. */
  lemma WidthRule(cs: nat, n: nat, n': nat)
    requires 2 <= cs < MAX_BITS && n <= n' <= n + 1 && Pow2(cs) + 2 + n' <= TABLE_SIZE
    ensures var w := CodeSize(cs, n); CodeSize(cs, n') == if Pow2(cs) + 2 + n' > MaxCode(w) then w + 1 else w
  {
    CodeFits(cs, n);
  }

  /** With `freeEnt` and `clearFlg` set as the compressor sets them, the width after `code` is the
      width the reader will use after `code`. */
  ghost predicate WidthKept(cs: nat, r: Reader, code: nat, clearFlg: bool, freeEnt: nat)
    requires r.Ok(cs) && 2 <= cs < MAX_BITS && code < Pow2(CodeSize(cs, r.Size()))
  {
    && (clearFlg ==> code == Pow2(cs))
    && (!clearFlg ==>
          var n := Feed(cs, r, code).0.Size();
          r.Size() <= n <= r.Size() + 1 && freeEnt == Pow2(cs) + 2 + n <= TABLE_SIZE)
  }

  lemma PutKeeps(cs: nat, codes: seq<nat>, code: nat, clearFlg: bool, freeEnt: nat)
    requires 2 <= cs < MAX_BITS && Fits(cs, codes)
    requires code < Pow2(CodeSize(cs, FeedAll(cs, codes).0.Size()))
    requires WidthKept(cs, FeedAll(cs, codes).0, code, clearFlg, freeEnt)
    ensures Fits(cs, codes + [code])
    ensures var (r, text) := FeedAll(cs, codes); var (r', more) := Feed(cs, r, code);
            var w := CodeSize(cs, r.Size());
            && FeedAll(cs, codes + [code]) == (r', text + more)
            && Pack(cs, codes + [code]) == Pack(cs, codes) + Bits(code, w)
            && CodeSize(cs, r'.Size()) == if clearFlg then cs + 1 else if freeEnt > MaxCode(w) then w + 1 else w
  {
    FeedAllAppend(cs, codes, code);
    var r := FeedAll(cs, codes).0;
    if !clearFlg { WidthRule(cs, r.Size(), Feed(cs, r, code).0.Size()); }
  }

  class CodeWriter {
    const cs: nat
    const packets: PacketWriter
    var curAccum: nat
    var curBits: int
    var nBits: nat
    var maxcode: int
    var freeEnt: nat
    var clearFlg: bool
    ghost var codes: seq<nat>

    /** What a reader fed the codes written so far has become. */
    ghost function R(): (r: Reader)
      requires 2 <= cs < MAX_BITS && Fits(cs, codes)
      reads this`codes
    {
      FeedAll(cs, codes).0
    }

    /** The pixels it has been told. */
    ghost function Text(): seq<nat>
      requires 2 <= cs < MAX_BITS && Fits(cs, codes)
      reads this`codes
    {
      FeedAll(cs, codes).1
    }

    ghost function Written(): seq<bool>
      requires packets.Valid() && 0 <= curBits
      reads this`curAccum, this`curBits, packets, packets.accum
    {
      ByteBits(packets.Bytes()) + Bits(curAccum, curBits)
    }

    ghost predicate AccumOk()
      reads this`curAccum, this`curBits, packets
    {
      && packets.Valid() && packets.count < 254
      && 0 <= curBits && curAccum < Pow2(curBits)
    }

    ghost predicate Valid()
      reads this`curAccum, this`curBits, this`nBits, this`maxcode, this`codes, packets, packets.accum
    {
      && 2 <= cs <= 8
      && AccumOk() && curBits < 8
      && Fits(cs, codes)
      && Written() == Pack(cs, codes)
      && nBits == CodeSize(cs, R().Size())
      && maxcode == MaxCode(nBits)
    }

    constructor (initCodeSize: nat)
      requires 2 <= initCodeSize <= 8
      ensures Valid() && codes == [] && cs == initCodeSize && freeEnt == Pow2(cs) + 2 && !clearFlg
      ensures fresh(packets) && fresh(packets.accum) && packets.count == 0
    {
      cs := initCodeSize;
      packets := new PacketWriter();
      curAccum := 0;
      curBits := 0;
      nBits := initCodeSize + 1;
      maxcode := MaxCode(initCodeSize + 1);
      freeEnt := Pow2(initCodeSize) + 2;
      clearFlg := false;
      codes := [];
    }

    method Drain()
      requires AccumOk()
      modifies this`curAccum, this`curBits, packets, packets.accum
      ensures AccumOk() && curBits < 8 && Written() == old(Written())
    {
      while curBits >= 8
        invariant AccumOk() && Written() == old(Written())
        decreases curBits
      {
        hide Bits, Shr, Pow2, ByteBits;
        TakeByte(packets.Bytes(), curAccum, curBits);
        packets.CharOut(curAccum % 256);
        curAccum := Shr(curAccum, 8);
        curBits := curBits - 8;
      }
    }

    /** The accumulator half of output(). */
    method Place(code: nat)
      requires AccumOk() && curBits < 8 && code < Pow2(nBits)
      modifies this`curAccum, this`curBits, packets, packets.accum
      ensures AccumOk() && curBits < 8 && Written() == old(Written()) + Bits(code, nBits)
    {
      hide Bits, Shl, Mask, Pow2, ByteBits;
      ConcatFits(curAccum, code, curBits, nBits);
      BitsConcat(curAccum, code, curBits, nBits);
      BitsAssociate(ByteBits(packets.Bytes()), Bits(curAccum, curBits), Bits(code, nBits));
      MaskFits(curAccum, curBits);
      if curBits > 0 {
        curAccum := Mask(curAccum, curBits) + Shl(code, curBits);
      } else {
        curAccum := code;
      }
      curBits := curBits + nBits;
      Drain();
    }

    /** The width half of output(): reset by a Clear, else grown when the next entry would not fit. */
    method Resize()
      requires maxcode == MaxCode(nBits)
      modifies this`nBits, this`maxcode, this`clearFlg
      ensures !clearFlg && maxcode == MaxCode(nBits)
      ensures old(clearFlg) ==> nBits == cs + 1
      ensures !old(clearFlg) ==> nBits == if freeEnt > old(maxcode) then old(nBits) + 1 else old(nBits)
    {
      if freeEnt > maxcode || clearFlg {
        if clearFlg {
          nBits := cs + 1;
          maxcode := MaxCode(nBits);
          clearFlg := false;
        } else {
          nBits := nBits + 1;
          maxcode := if nBits == MAX_BITS then TABLE_SIZE else Pow2(nBits) - 1;
        }
      }
    }

    /** The EOF tail of output(): whole bytes out, then the last packet. */
    method Finish()
      requires AccumOk() && curBits < 8
      modifies this`curAccum, this`curBits, packets, packets.accum
      ensures packets.Valid() && packets.count == 0
      ensures old(Written()) <= ByteBits(packets.Bytes())
    {
      while curBits > 0
        invariant packets.Valid() && packets.count < 254
        invariant curBits > 0 ==> curBits == old(curBits) && AccumOk() && Written() == old(Written())
        invariant curBits <= 0 ==> old(Written()) <= ByteBits(packets.Bytes())
      {
        PadByte(packets.Bytes(), curAccum, curBits);
        packets.CharOut(curAccum % 256);
        curAccum := Shr(curAccum, 8);
        curBits := curBits - 8;
      }
      packets.FlushChar();
    }

    ghost predicate Follows(code: nat)
      requires Valid()
      reads this, packets, packets.accum
    {
      code < Pow2(nBits) && WidthKept(cs, R(), code, clearFlg, freeEnt)
    }

    /** Everything output() does for an ordinary code. */
    method Put(code: nat)
      requires Valid() && Follows(code)
      modifies this`curAccum, this`curBits, this`nBits, this`maxcode, this`clearFlg, this`codes
      modifies packets, packets.accum
      ensures codes == old(codes) + [code] && !clearFlg && Valid()
      ensures R() == old(Feed(cs, R(), code).0) && Text() == old(Text() + Feed(cs, R(), code).1)
    {
      hide Fits, Feed, FeedSymbol, Expand, CodeSize, Pack, Bits, ByteBits, Pow2;
      PutKeeps(cs, codes, code, clearFlg, freeEnt);
      Place(code);
      Resize();
      codes := codes + [code];
    }

    /** Writes one code.  Unless it is End, the writer stays ready and its width is again the one
        the reader will use; after End every bit is in a finished packet. */
    method Output(code: nat)
      requires Valid() && Follows(code)
      modifies this`curAccum, this`curBits, this`nBits, this`maxcode, this`clearFlg, this`codes
      modifies packets, packets.accum
      ensures codes == old(codes) + [code] && !clearFlg && Fits(cs, codes)
      ensures R() == old(Feed(cs, R(), code).0) && Text() == old(Text() + Feed(cs, R(), code).1)
      ensures code != Pow2(cs) + 1 ==> Valid()
      ensures code == Pow2(cs) + 1 ==>
        && packets.Valid() && packets.count == 0
        && Pack(cs, codes) <= ByteBits(packets.Bytes())
    {
      Put(code);
      if code == Pow2(cs) + 1 {
        Finish();
      }
    }
  }

  class Compressor {
    const w: CodeWriter
    const table: StringTable.Table
    ghost var dict: seq<Entry>

    ghost predicate Apart()
    {
      && table.htab != table.codetab
      && table.htab.Length == table.codetab.Length == HSIZE
      && {w, w.packets, w.packets.accum} !! {this, table, table.htab, table.codetab}
      && {this, table} !! {table.htab, table.codetab}
    }

    /** After consuming `read`, with `ent` the match in progress: the codes written spell all but
        the string of `ent`, and a reader of them is in step with the string table. */
    ghost predicate Inv(read: seq<nat>, ent: nat)
      reads this, w, w.packets, w.packets.accum, table, table.htab, table.codetab
    {
      && Apart()
      && w.Valid() && !w.clearFlg && Meant(w.cs, w.codes)
      && w.freeEnt == Pow2(w.cs) + 2 + |dict|
      && table.Valid(Pow2(w.cs), dict)
      && InStep(w.cs, w.R(), dict, ent)
      && read == w.Text() + Expand(Pow2(w.cs), dict, ent)
    }

    constructor (initCodeSize: nat)
      requires 2 <= initCodeSize <= 8
      ensures Apart() && fresh(w) && fresh(w.packets) && fresh(w.packets.accum)
      ensures fresh(table) && fresh(table.htab) && fresh(table.codetab)
      ensures w.Valid() && w.codes == [] && w.cs == initCodeSize && w.freeEnt == Pow2(w.cs) + 2 && !w.clearFlg
    {
      hide CodeWriter.Valid, Pow2;
      w := new CodeWriter(initCodeSize);
      table := new StringTable.Table();
      dict := [];
    }

    /** Clear, from where the tables are empty. */
    method WriteClear(c: nat, ghost read: seq<nat>)
      requires Apart() && w.Valid() && c < Pow2(w.cs) && Meant(w.cs, w.codes) && read == w.Text()
      requires table.Valid(Pow2(w.cs), dict) && dict == [] && w.freeEnt == Pow2(w.cs) + 2 && (w.clearFlg || w.codes == [])
      modifies w, w.packets, w.packets.accum
      ensures Inv(read + [c], c) && w.codes == old(w.codes) + [Pow2(w.cs)]
    {
      hide Fits, Feed, FeedSymbol, FeedAll, Expand, CodeSize, Pack, Bits, ByteBits, Pow2, InStep, DictOk, Meant;
      hide StringTable.Table.Valid;
      NothingFed(w.cs);
      ClearMeant(w.cs, w.codes);
      ClearInStep(w.cs, w.R(), c);
      w.Output(Pow2(w.cs));
    }

    /** The table is full: forget it, and tell the reader to do the same. */
    method ClBlock(c: nat, ghost read: seq<nat>)
      requires Apart() && w.Valid() && !w.clearFlg && c < Pow2(w.cs) && Meant(w.cs, w.codes)
      requires read == w.Text()
      modifies this, w, w.packets, w.packets.accum, table, table.htab
      ensures Inv(read + [c], c) && w.codes == old(w.codes) + [Pow2(w.cs)] && dict == []
    {
      hide Inv, Fits, FeedAll, CodeSize, Pack, ByteBits, Pow2, Meant, StringTable.Table.Valid;
      table.Clear(Pow2(w.cs));
      dict := [];
      w.freeEnt := Pow2(w.cs) + 2;
      w.clearFlg := true;
      WriteClear(c, read);
    }

    /** No match: write the matched string's code, then define the lengthened string, or start the
        tables over when they are full. */
    method NoMatch(ent: nat, c: nat, i: nat, ghost n: nat, ghost read: seq<nat>)
      requires Inv(read, ent) && c < Pow2(w.cs) && i < HSIZE
      requires table.htab[i] <= 0 && StringTable.PathTo(table.htab[..], ent, c, i, n)
      modifies this, w, w.packets, w.packets.accum, table, table.htab, table.codetab
      ensures Inv(read + [c], c) && w.codes == old(w.codes) + [ent] + if dict == [] then [Pow2(w.cs)] else []
      ensures old(w.freeEnt) < TABLE_SIZE ==>
        && dict == old(dict) + [Entry(ent, c)]
        && table.htab[..] == old(table.htab[..])[i := StringTable.Key(ent, c)]
      ensures old(w.freeEnt) >= TABLE_SIZE ==> dict == []
    {
      hide Fits, Feed, FeedSymbol, FeedAll, Expand, CodeSize, Pack, Bits, ByteBits, Pow2, DictOk, InStep, NoEnd, Meant;
      hide StringTable.PathTo, StringTable.Table.Valid;
      EmitInStep(w.cs, w.R(), dict, ent);
      EmitMeant(w.cs, w.codes, dict, ent);
      w.Output(ent);
      if w.freeEnt < TABLE_SIZE {
        DefineInStep(w.cs, old(w.R()), dict, ent, c);
        ghost var e := Entry(ent, c);
        table.Insert(i, w.freeEnt, StringTable.Key(ent, c), Pow2(w.cs), dict, e, n);
        dict := dict + [e];
        w.freeEnt := w.freeEnt + 1;
      } else {
        ClBlock(c, read);
      }
    }

    /** One turn of the matching loop: whether the table holds the key of the lengthened string decides.  A hit
        lengthens the match and writes nothing.  A miss writes the match and defines the lengthened string.  A string
        the dictionary has is hit, save pixel 0 twice, of key 0, once its slot has been taken. */
    method Step(ent: nat, c: nat, ghost read: seq<nat>) returns (ent': nat, ghost hit: bool, ghost i: nat, ghost n: nat)
      requires Inv(read, ent) && c < Pow2(w.cs)
      modifies this, w, w.packets, w.packets.accum, table, table.htab, table.codetab
      ensures Inv(read + [c], ent') && ent < 4096 && c < 256 && i < HSIZE
      ensures hit ==> old(table.htab[i]) == StringTable.Key(ent, c)
      ensures hit ==> w.codes == old(w.codes) && dict == old(dict) && table.htab[..] == old(table.htab[..])
      ensures !hit ==> old(table.htab[i]) <= 0 && StringTable.PathTo(old(table.htab[..]), ent, c, i, n) && ent' == c
      ensures !hit ==> w.codes == old(w.codes) + [ent] + if dict == [] then [Pow2(w.cs)] else []
      ensures !hit && old(w.freeEnt) < TABLE_SIZE ==>
        && dict == old(dict) + [Entry(ent, c)]
        && table.htab[..] == old(table.htab[..])[i := StringTable.Key(ent, c)]
      ensures hit <==> StringTable.Key(ent, c) in old(table.htab[..])
      ensures hit ==> old(Entry(ent, c) in dict)
      ensures StringTable.Key(ent, c) != 0 && old(Entry(ent, c) in dict) ==> hit
    {
      hide Fits, Feed, FeedSymbol, FeedAll, Expand, CodeSize, Pack, Bits, ByteBits, Pow2;
      hide StringTable.PathTo, StringTable.Table.Valid, StringTable.Key;
      ClearBound(w.cs);
      var found, at;
      found, at, n := table.Find(ent, c, Pow2(w.cs), dict);
      hit, i := found, at;
      if found {
        ent' := table.codetab[at];
        ghost var k := ent' - Pow2(w.cs) - 2;
        StringTable.KeyInjective(ent, c, dict[k].head, dict[k].tail);
        MatchInStep(w.cs, w.R(), dict, ent, c, k);
      } else {
        NoMatch(ent, c, at, n, read);
        ent' := c;
      }
    }

    /** Compresses a nonempty pixel sequence.  A reader fed the codes written before End yields
        exactly the pixels, and the packets hold those codes, each at the reader's width. */
    method Compress(pixels: seq<nat>) returns (ghost data: seq<nat>)
      requires Apart() && w.Valid() && w.codes == [] && w.freeEnt == Pow2(w.cs) + 2 && !w.clearFlg
      requires pixels != [] && forall i :: 0 <= i < |pixels| ==> pixels[i] < Pow2(w.cs)
      modifies this, w, w.packets, w.packets.accum, table, table.htab, table.codetab
      ensures w.packets.Valid() && w.packets.count == 0 && w.codes == data + [Pow2(w.cs) + 1]
      ensures Fits(w.cs, data) && NoEnd(w.cs, data) && Meant(w.cs, data) && FeedAll(w.cs, data).1 == pixels
      ensures Pack(w.cs, data) <= ByteBits(w.packets.Bytes())
    {
      hide *;
      var ent := pixels[0];
      assert pixels[..1] == [ent];
      Open(ent);
      for i := 1 to |pixels|
        invariant Inv(pixels[..i], ent)
      {
        ghost var hit, at, n;
        ent, hit, at, n := Step(ent, pixels[i], pixels[..i]);
        assert pixels[..i + 1] == pixels[..i] + [pixels[i]];
      }
      assert pixels[..|pixels|] == pixels;
      data := Close(ent, pixels);
    }

    /** The initial Clear. */
    method Open(c: nat)
      requires Apart() && w.Valid() && w.codes == [] && w.freeEnt == Pow2(w.cs) + 2 && !w.clearFlg
      requires c < Pow2(w.cs)
      modifies this, w, w.packets, w.packets.accum, table, table.htab
      ensures Inv([c], c) && w.codes == [Pow2(w.cs)] && dict == []
      ensures forall i :: 0 <= i < HSIZE ==> table.htab[i] == -1
    {
      hide Inv, Fits, FeedAll, CodeSize, Pack, ByteBits, Pow2, Meant, StringTable.Table.Valid;
      table.Clear(Pow2(w.cs));
      dict := [];
      NothingFed(w.cs);
      NothingMeant(w.cs);
      assert [] + [c] == [c];
      WriteClear(c, []);
    }

    /** The final string's code, then End. */
    method Close(ent: nat, ghost read: seq<nat>) returns (ghost data: seq<nat>)
      requires Inv(read, ent)
      modifies w, w.packets, w.packets.accum
      ensures w.packets.Valid() && w.packets.count == 0 && w.codes == data + [Pow2(w.cs) + 1]
      ensures Fits(w.cs, data) && NoEnd(w.cs, data) && Meant(w.cs, data) && FeedAll(w.cs, data).1 == read
      ensures Pack(w.cs, data) <= ByteBits(w.packets.Bytes())
    {
      hide Fits, Feed, FeedSymbol, FeedAll, Expand, CodeSize, Pack, Bits, ByteBits, Pow2, DictOk, InStep, NoEnd, Meant;
      EmitInStep(w.cs, w.R(), dict, ent);
      hide StringTable.Table.Valid;
      EmitMeant(w.cs, w.codes, dict, ent);
      w.Output(ent);
      data := w.codes;
      NoEndMeant(w.cs, data);
      EndInStep(w.cs, w.R());
      FeedAllAppend(w.cs, data, Pow2(w.cs) + 1);
      w.Output(Pow2(w.cs) + 1);
    }
  }
}
