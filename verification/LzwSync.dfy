/** Why an LZW writer and reader stay in step although the reader's table is always one
    symbol behind the writer's. */
module LzwSync {
  import opened BitStrings
  import opened LzwSpec
  import opened LzwTextbook

  /** The writer holds table `dict` and the matched string `ent`; the reader is in state `r`.
      The only symbol the reader lacks is the newest one, whose last byte is the first byte of
      the string the writer is still matching. */
  predicate InStep(cs: nat, r: Reader, dict: seq<Entry>, ent: nat) {
    var clear := Pow2(cs);
    && 2 <= cs <= 8
    && r.Ok(cs)
    && DictOk(clear, dict) && IsCode(clear, dict, ent) && clear + 2 + |dict| <= TABLE_SIZE
    && (r.Fresh? ==> dict == [])
    && (r.Running? ==>
          && r.first == Expand(clear, r.dict, r.prev)[0]
          && dict == r.dict + [Entry(r.prev, Expand(clear, dict, ent)[0])])
  }

  lemma ClearBound(cs: nat)
    requires 2 <= cs <= 8
    ensures 4 <= Pow2(cs) <= 256
  {
    Pow2Values();
    Pow2Monotone(2, cs);
    Pow2Monotone(cs, 8);
  }

  /** The code being written fits the width the reader expects, even at its narrowest. */
  lemma EmitFits(cs: nat, r: Reader, dict: seq<Entry>, ent: nat)
    requires InStep(cs, r, dict, ent)
    ensures ent < Pow2(CodeSize(cs, r.Size()))
    ensures ent != Pow2(cs) && ent != Pow2(cs) + 1
  {
    CodeFits(cs, r.Size());
    Pow2Values();
  }

  /** The code names the symbol the reader is about to define. */
  lemma EmitNewest(cs: nat, r: Reader, dict: seq<Entry>, ent: nat)
    requires InStep(cs, r, dict, ent) && r.Running? && ent == Pow2(cs) + 2 + |r.dict|
    ensures Expand(Pow2(cs), dict, ent) == Expand(Pow2(cs), r.dict, r.prev) + [r.first]
    ensures Expand(Pow2(cs), dict, ent)[0] == r.first
  {
    var clear := Pow2(cs);
    var newest := dict[|r.dict|];
    assert EntryOk(clear, newest, |r.dict|);
    assert newest.head == r.prev && newest.tail == Expand(clear, dict, ent)[0];
    ExpandPrefix(clear, r.dict, [newest], r.prev);
  }

  lemma EmitToRunning(cs: nat, r: Reader, dict: seq<Entry>, ent: nat)
    requires InStep(cs, r, dict, ent) && r.Running?
    ensures ent < Pow2(CodeSize(cs, r.Size())) && ent != Pow2(cs) && ent != Pow2(cs) + 1
    ensures var text := Expand(Pow2(cs), dict, ent);
            FeedSymbol(Pow2(cs), r.dict, r.prev, r.first, ent) == (Running(dict, ent, text[0]), text)
  {
    var clear := Pow2(cs);
    var text := Expand(clear, dict, ent);
    EmitFits(cs, r, dict, ent);
    ClearBound(cs);
    hide CodeSize, Pow2;
    if ent == clear + 2 + |r.dict| {
      EmitNewest(cs, r, dict, ent);
    } else {
      ExpandPrefix(clear, r.dict, [dict[|r.dict|]], ent);
    }
    assert text[0] % 256 == text[0];
  }

  /** Writing `ent` gives the reader exactly the matched string and the writer's table. */
  lemma EmitInStep(cs: nat, r: Reader, dict: seq<Entry>, ent: nat)
    requires InStep(cs, r, dict, ent)
    ensures ent < Pow2(CodeSize(cs, r.Size()))
    ensures var text := Expand(Pow2(cs), dict, ent); Feed(cs, r, ent) == (Running(dict, ent, text[0]), text)
    ensures ent != Pow2(cs) && ent != Pow2(cs) + 1
    ensures r.Size() <= |dict| <= r.Size() + 1 && Pow2(cs) + 2 + |dict| <= TABLE_SIZE
  {
    EmitFits(cs, r, dict, ent);
    if r.Running? {
      EmitToRunning(cs, r, dict, ent);
    }
  }

  /** A code written in step has its textbook meaning there. */
  lemma EmitMeant(cs: nat, codes: seq<nat>, dict: seq<Entry>, ent: nat)
    requires 2 <= cs <= 8 && Fits(cs, codes) && Meant(cs, codes) && InStep(cs, FeedAll(cs, codes).0, dict, ent)
    ensures Meant(cs, codes + [ent])
  {
    hide Pow2, FeedAll, Fits, Meant, Expand;
    MeantMore(cs, codes, ent);
  }

  lemma ClearMeant(cs: nat, codes: seq<nat>)
    requires 2 <= cs <= 8 && Fits(cs, codes) && Meant(cs, codes)
    ensures Meant(cs, codes + [Pow2(cs)])
  {
    hide Pow2, FeedAll, Fits, Meant;
    MeantMore(cs, codes, Pow2(cs));
  }

  /** After writing `ent` and defining the symbol `ent` + `c`, the two are in step again. */
  lemma DefineInStep(cs: nat, r: Reader, dict: seq<Entry>, ent: nat, c: nat)
    requires InStep(cs, r, dict, ent) && c < Pow2(cs) && Pow2(cs) + 2 + |dict| < TABLE_SIZE
    ensures ent < Pow2(CodeSize(cs, r.Size()))
    ensures InStep(cs, Feed(cs, r, ent).0, dict + [Entry(ent, c)], c)
    ensures Expand(Pow2(cs), dict + [Entry(ent, c)], c) == [c]
  {
    EmitInStep(cs, r, dict, ent);
    ClearBound(cs);
    DictAppend(Pow2(cs), dict, Entry(ent, c));
  }

  /** Lengthening the match by one known symbol keeps the two in step. */
  lemma MatchInStep(cs: nat, r: Reader, dict: seq<Entry>, ent: nat, c: nat, k: nat)
    requires InStep(cs, r, dict, ent) && k < |dict| && dict[k] == Entry(ent, c)
    ensures InStep(cs, r, dict, Pow2(cs) + 2 + k)
    ensures Expand(Pow2(cs), dict, Pow2(cs) + 2 + k) == Expand(Pow2(cs), dict, ent) + [c]
  {
    assert EntryOk(Pow2(cs), dict[k], k);
  }

  /** A Clear always fits, and afterwards both sides start over in step. */
  lemma ClearInStep(cs: nat, r: Reader, c: nat)
    requires 2 <= cs <= 8 && r.Ok(cs) && c < Pow2(cs)
    ensures Pow2(cs) < Pow2(CodeSize(cs, r.Size()))
    ensures Feed(cs, r, Pow2(cs)) == (Fresh, [])
    ensures InStep(cs, Fresh, [], c) && Expand(Pow2(cs), [], c) == [c]
  {
    Pow2Monotone(cs + 1, CodeSize(cs, r.Size()));
    ClearBound(cs);
  }

  /** End always fits, and leaves a running reader's table alone. */
  lemma EndInStep(cs: nat, r: Reader)
    requires 2 <= cs <= 8 && r.Ok(cs) && r.Running?
    ensures Pow2(cs) + 1 < Pow2(CodeSize(cs, r.Size()))
    ensures Feed(cs, r, Pow2(cs) + 1) == (r, [0])
  {
    Pow2Monotone(cs + 1, CodeSize(cs, r.Size()));
    ClearBound(cs);
  }
}
