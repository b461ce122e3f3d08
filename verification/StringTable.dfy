/** The encoder's open-addressed table from (string code, next pixel) to string code. */
module StringTable {
  import opened LzwSpec
  import opened Probing

  /** The hash key of a string followed by a pixel: the pixel above twelve bits of code. */
  function Key(ent: nat, c: nat): nat {
    c * 4096 + ent
  }

  /** First probe: exclusive-or hashing, with the pixel shifted by four bits (5003 doubled four
      times reaches 65536, and 8 - 4 is the shift). */
  function FirstSlot(ent: nat, c: nat): (i: nat)
    requires ent < 4096 && c < 256
    ensures i < 4096 < HSIZE
  {
    (((c as bv12) << 4) ^ (ent as bv12)) as nat
  }

  /** Secondary displacement, after G. Knott. */
  function Displacement(i: nat): (d: nat)
    requires i < HSIZE
    ensures 0 < d < HSIZE
  {
    if i == 0 then 1 else HSIZE - i
  }

  /** The slot examined at the `n`-th probe for a key. */
  function Probe(ent: nat, c: nat, n: nat): (i: nat)
    requires ent < 4096 && c < 256
    ensures i < HSIZE
  {
    var start := FirstSlot(ent, c);
    Slot(start, Displacement(start), n)
  }

  lemma FirstProbe(ent: nat, c: nat)
    requires ent < 4096 && c < 256
    ensures Probe(ent, c, 0) == FirstSlot(ent, c)
  {
    hide FirstSlot, Displacement;
  }

  /** `i -= disp; if (i < 0) i += hsize` goes from one probe to the next. */
  lemma NextProbe(ent: nat, c: nat, n: nat)
    requires ent < 4096 && c < 256
    ensures var i := Probe(ent, c, n) - Displacement(FirstSlot(ent, c));
            Probe(ent, c, n + 1) == if i < 0 then i + HSIZE else i
  {
    hide FirstSlot, Displacement;
    NextSlot(FirstSlot(ent, c), Displacement(FirstSlot(ent, c)), n);
  }

  /** The probes of a key meet every slot before repeating one. */
  lemma ProbeDistinct(ent: nat, c: nat, m: nat, n: nat)
    requires ent < 4096 && c < 256 && m < n < HSIZE
    ensures Probe(ent, c, m) != Probe(ent, c, n)
  {
    hide FirstSlot, Displacement;
    ProbesDistinct(FirstSlot(ent, c), Displacement(FirstSlot(ent, c)), m, n);
  }

  /** An occupied slot names a symbol of `dict` that spells its key. */
  ghost predicate SlotOk(clear: nat, dict: seq<Entry>, key: int, code: int) {
    key >= 0 ==>
      && clear + 2 <= code < clear + 2 + |dict|
      && key == Key(dict[code - clear - 2].head, dict[code - clear - 2].tail)
  }

  lemma SlotsGrow(clear: nat, dict: seq<Entry>, e: Entry)
    ensures forall key, code :: SlotOk(clear, dict, key, code) ==> SlotOk(clear, dict + [e], key, code)
    ensures SlotOk(clear, dict + [e], Key(e.head, e.tail), clear + 2 + |dict|)
  {
  }

  type Slots = t: seq<int> | |t| == HSIZE witness seq(HSIZE, _ => -1)

  /** From the key's first slot, `n` probes past occupied slots lead to slot `i`. */
  ghost predicate PathTo(tab: Slots, ent: nat, c: nat, i: nat, n: nat) {
    && ent < 4096 && c < 256
    && i == Probe(ent, c, n)
    && (n > 0 ==> tab[Probe(ent, c, 0)] >= 0)
    && forall m :: 0 < m < n ==> tab[Probe(ent, c, m)] > 0
  }

  /** The symbol `e` can be found again; only the key 0 may have been lost. */
  ghost predicate Findable(tab: Slots, e: Entry) {
    Key(e.head, e.tail) == 0 ||
    exists i, n :: 0 <= i < HSIZE && tab[i] == Key(e.head, e.tail) && PathTo(tab, e.head, e.tail, i, n)
  }

  /** No symbol spells a string whose path ends at a free slot. */
  lemma Absent(tab: Slots, ent: nat, c: nat, i: nat, n: nat, dict: seq<Entry>)
    requires PathTo(tab, ent, c, i, n)
    requires if n == 0 then tab[i] < 0 else tab[i] <= 0
    requires forall m :: 0 <= m < n ==> tab[Probe(ent, c, m)] != Key(ent, c)
    requires forall k :: 0 <= k < |dict| ==> Findable(tab, dict[k])
    ensures Key(ent, c) != 0 ==> forall k :: 0 <= k < |dict| ==> dict[k] != Entry(ent, c)
  {
    hide Probe;
    forall k | 0 <= k < |dict|
      ensures Key(ent, c) != 0 ==> dict[k] != Entry(ent, c)
    {
      assert Findable(tab, dict[k]);
    }
  }

  /** Every slot that holds the key 0 lies on that key's path. */
  ghost predicate ZerosOnPath(tab: Slots) {
    forall i :: 0 <= i < HSIZE && tab[i] == 0 ==> OnPath(tab, 0, 0, i)
  }

  ghost predicate OnPath(tab: Slots, ent: nat, c: nat, i: nat) {
    exists n: nat :: PathTo(tab, ent, c, i, n)
  }

  /** The same for the key 0: no slot holds it. */
  lemma ZeroAbsent(tab: Slots, i: nat, n: nat)
    requires ZerosOnPath(tab) && PathTo(tab, 0, 0, i, n) && tab[i] < 0
    requires forall m :: 0 <= m < n ==> tab[Probe(0, 0, m)] != 0
    ensures 0 !in tab
  {
    hide Probe;
  }

  lemma FindableHead(tab: Slots, e: Entry)
    requires Findable(tab, e)
    ensures e.head < 4096
  {
    hide Probe;
  }

  /** A key no symbol spells is in no slot. */
  lemma KeyAbsent(clear: nat, dict: seq<Entry>, tab: Slots, key: int, code: int, ent: nat, c: nat)
    requires SlotOk(clear, dict, key, code) && ent < 4096
    requires forall k :: 0 <= k < |dict| ==> Findable(tab, dict[k]) && dict[k] != Entry(ent, c)
    ensures key != Key(ent, c)
  {
    hide Findable;
    if key >= 0 {
      FindableHead(tab, dict[code - clear - 2]);
    }
  }

  /** A search that ended at a free slot has missed nothing: the table does not hold the key. */
  lemma Missed(clear: nat, dict: seq<Entry>, tab: Slots, codes: Slots, ent: nat, c: nat, i: nat, n: nat)
    requires PathTo(tab, ent, c, i, n) && ZerosOnPath(tab) && tab[i] != Key(ent, c)
    requires if n == 0 then tab[i] < 0 else tab[i] <= 0
    requires forall m :: 0 <= m < n ==> tab[Probe(ent, c, m)] != Key(ent, c)
    requires forall k :: 0 <= k < |dict| ==> Findable(tab, dict[k])
    requires forall j :: 0 <= j < HSIZE ==> SlotOk(clear, dict, tab[j], codes[j])
    ensures Key(ent, c) != 0 ==> forall k :: 0 <= k < |dict| ==> dict[k] != Entry(ent, c)
    ensures Key(ent, c) !in tab
  {
    hide Probe, Findable, ZerosOnPath, SlotOk;
    if Key(ent, c) == 0 {
      ZeroAbsent(tab, i, n);
    } else {
      Absent(tab, ent, c, i, n, dict);
      forall j | 0 <= j < HSIZE
        ensures tab[j] != Key(ent, c)
      {
        KeyAbsent(clear, dict, tab, tab[j], codes[j], ent, c);
      }
    }
  }

  /** Filling a free slot disturbs no path. */
  lemma PathSurvives(tab: Slots, i: nat, v: nat, ent: nat, c: nat, i': nat, n: nat)
    requires i < HSIZE && tab[i] <= 0 && PathTo(tab, ent, c, i', n)
    ensures PathTo(tab[i := v], ent, c, i', n)
  {
    hide Probe;
  }

  /** Entering a symbol at the end of its path keeps every symbol findable. */
  lemma EntryFindable(tab: Slots, i: nat, dict: seq<Entry>, e: Entry, n: nat)
    requires i < HSIZE && tab[i] <= 0 && PathTo(tab, e.head, e.tail, i, n)
    requires forall k :: 0 <= k < |dict| ==> Findable(tab, dict[k])
    ensures var tab' := tab[i := Key(e.head, e.tail)];
            forall k :: 0 <= k < |dict + [e]| ==> Findable(tab', (dict + [e])[k])
  {
    hide PathTo;
    var tab' := tab[i := Key(e.head, e.tail)];
    PathSurvives(tab, i, Key(e.head, e.tail), e.head, e.tail, i, n);
    assert Findable(tab', e);
    forall k | 0 <= k < |dict| && Key(dict[k].head, dict[k].tail) != 0
      ensures Findable(tab', dict[k])
    {
      var d := dict[k];
      assert Findable(tab, d);
      var i', n' :| 0 <= i' < HSIZE && tab[i'] == Key(d.head, d.tail) && PathTo(tab, d.head, d.tail, i', n');
      PathSurvives(tab, i, Key(e.head, e.tail), d.head, d.tail, i', n');
      assert tab'[i'] == Key(d.head, d.tail);
    }
  }

  /** Nor does it leave the key 0 off its path. */
  lemma ZerosStay(tab: Slots, i: nat, e: Entry, n: nat)
    requires i < HSIZE && tab[i] <= 0 && PathTo(tab, e.head, e.tail, i, n) && ZerosOnPath(tab)
    ensures ZerosOnPath(tab[i := Key(e.head, e.tail)])
  {
    hide PathTo;
    var tab' := tab[i := Key(e.head, e.tail)];
    forall j | 0 <= j < HSIZE && tab'[j] == 0
      ensures OnPath(tab', 0, 0, j)
    {
      if j == i {
        PathSurvives(tab, i, 0, 0, 0, i, n);
      } else {
        assert OnPath(tab, 0, 0, j);
        var m :| PathTo(tab, 0, 0, j, m);
        PathSurvives(tab, i, Key(e.head, e.tail), 0, 0, j, m);
      }
    }
  }

  class Table {
    const htab: array<int>
    const codetab: array<int>
    ghost var used: set<nat>

    constructor ()
      ensures fresh(htab) && fresh(codetab) && htab != codetab
      ensures htab.Length == codetab.Length == HSIZE
    {
      htab := new int[HSIZE];
      codetab := new int[HSIZE];
      used := {};
    }

    ghost predicate Valid(clear: nat, dict: seq<Entry>)
      reads this, htab, codetab
    {
      && htab.Length == codetab.Length == HSIZE && htab != codetab
      && |used| <= |dict|
      && (forall i :: 0 <= i < HSIZE && htab[i] >= 0 ==> i in used)
      && (forall i :: 0 <= i < HSIZE ==> SlotOk(clear, dict, htab[i], codetab[i]))
      && (forall k :: 0 <= k < |dict| ==> Findable(htab[..], dict[k]))
      && ZerosOnPath(htab[..])
    }

    /** cl_hash: sixteen slots at a time from the top, then the remaining ones. */
    method Clear(clear: nat)
      requires htab.Length == codetab.Length == HSIZE && htab != codetab
      modifies this, htab
      ensures Valid(clear, [])
      ensures forall i :: 0 <= i < HSIZE ==> htab[i] == -1
    {
      var p := HSIZE;
      var i := HSIZE - 16;
      while i >= 0
        invariant p == i + 16 && -16 <= i
        invariant forall k :: p <= k < HSIZE ==> htab[k] == -1
      {
        for k := 0 to 16
          invariant forall m :: p - k <= m < HSIZE ==> htab[m] == -1
        {
          htab[p - 1 - k] := -1;
        }
        p := p - 16;
        i := i - 16;
      }
      i := i + 16;
      while i > 0
        invariant 0 <= i == p
        invariant forall k :: p <= k < HSIZE ==> htab[k] == -1
      {
        p := p - 1;
        htab[p] := -1;
        i := i - 1;
      }
      used := {};
    }

    /** Looks up `ent` followed by `c`.  A match really spells that string.  Without one, no symbol
        spells it (unless its key is 0), and the slot returned is where the new string will go. */
    method Find(ent: nat, c: nat, ghost clear: nat, ghost dict: seq<Entry>)
      returns (found: bool, i: nat, ghost n: nat)
      requires Valid(clear, dict) && ent < 4096 && c < 256 && |dict| < HSIZE - 1
      ensures i < HSIZE
      ensures found ==> htab[i] == Key(ent, c) && SlotOk(clear, dict, htab[i], codetab[i])
      ensures !found ==> htab[i] <= 0 && PathTo(htab[..], ent, c, i, n)
      ensures !found && Key(ent, c) != 0 ==> forall k :: 0 <= k < |dict| ==> dict[k] != Entry(ent, c)
      ensures found <==> Key(ent, c) in htab[..]
    {
      hide Probe, FirstSlot, Displacement, Findable, ZerosOnPath;
      var fcode := Key(ent, c);
      i, n := FirstSlot(ent, c), 0;
      FirstProbe(ent, c);
      assert SlotOk(clear, dict, htab[i], codetab[i]);
      if htab[i] == fcode {
        return true, i, n;
      } else if htab[i] < 0 {
        Missed(clear, dict, htab[..], codetab[..], ent, c, i, n);
        return false, i, n;
      }
      var disp := Displacement(i);
      ghost var rejected: set<nat> := {i};
      while true
        invariant i == Probe(ent, c, n)
        invariant rejected <= used && |rejected| == n + 1
        invariant forall s :: s in rejected ==> exists k :: 0 <= k <= n && s == Probe(ent, c, k)
        invariant forall m :: 0 <= m <= n ==> htab[Probe(ent, c, m)] != fcode
        invariant forall m :: 0 < m <= n ==> htab[Probe(ent, c, m)] > 0
        decreases |used| - n
      {
        NextProbe(ent, c, n);
        i := if i - disp < 0 then i - disp + HSIZE else i - disp;
        CardinalityBound(rejected, used);
        n := n + 1;
        if htab[i] == fcode {
          return true, i, n;
        }
        if htab[i] <= 0 {
          assert PathTo(htab[..], ent, c, i, n);
          Missed(clear, dict, htab[..], codetab[..], ent, c, i, n);
          return false, i, n;
        }
        assert SlotOk(clear, dict, htab[i], codetab[i]);
        forall k | 0 <= k < n
          ensures i != Probe(ent, c, k)
        {
          ProbeDistinct(ent, c, k, n);
        }
        rejected := rejected + {i};
      }
    }

    /** Enters the newest symbol of `dict` at the slot found for it. */
    method Insert(i: nat, code: nat, fcode: nat, ghost clear: nat, ghost dict: seq<Entry>, ghost e: Entry, ghost n: nat)
      requires Valid(clear, dict) && i < HSIZE && htab[i] <= 0 && PathTo(htab[..], e.head, e.tail, i, n)
      requires code == clear + 2 + |dict| && fcode == Key(e.head, e.tail)
      modifies this, htab, codetab
      ensures Valid(clear, dict + [e])
      ensures htab[..] == old(htab[..])[i := fcode] && codetab[..] == old(codetab[..])[i := code]
    {
      hide PathTo, Findable, SlotOk, ZerosOnPath;
      ghost var was := htab[..];
      EntryFindable(was, i, dict, e, n);
      ZerosStay(was, i, e, n);
      codetab[i] := code;
      htab[i] := fcode;
      assert htab[..] == was[i := fcode];
      used := used + {i};
      SlotsGrow(clear, dict, e);
    }
  }

  lemma {:induction false} CardinalityBound(a: set<nat>, b: set<nat>)
    requires a <= b
    ensures |a| <= |b|
  {
    assert b == a + (b - a);
  }

  /** Keys determine the string code and the pixel. */
  lemma KeyInjective(ent: nat, c: nat, ent': nat, c': nat)
    requires ent < 4096 && ent' < 4096 && Key(ent, c) == Key(ent', c')
    ensures ent == ent' && c == c'
  {
  }
}
