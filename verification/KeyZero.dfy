/** The one string the compressor can forget: pixel 0 twice, whose key in the hash table is 0, and whose slot the
    search takes for a free one from the second probe on. */
module KeyZero {
  import opened Probing
  import opened LzwSpec
  import opened LzwSync
  import opened LzwTextbook
  import opened BitStrings
  import opened StringTable
  import opened SubBlocks
  import opened GifEncoder

  lemma FirstSlots()
    ensures FirstSlot(16, 1) == 0 && FirstSlot(0, 0) == 0 && FirstSlot(32, 2) == 0
    ensures FirstSlot(1, 0) == 1 && FirstSlot(0, 32) == 512 && FirstSlot(2, 0) == 2
  {
    assert ((1 as bv12) << 4) ^ (16 as bv12) == 0;
    assert ((0 as bv12) << 4) ^ (0 as bv12) == 0;
    assert ((2 as bv12) << 4) ^ (32 as bv12) == 0;
    assert ((0 as bv12) << 4) ^ (1 as bv12) == 1;
    assert ((32 as bv12) << 4) ^ (0 as bv12) == 512;
    assert ((0 as bv12) << 4) ^ (2 as bv12) == 2;
  }

  lemma ProbesFromZero(ent: nat, c: nat)
    requires ent < 4096 && c < 256 && FirstSlot(ent, c) == 0
    ensures Probe(ent, c, 0) == 0 && Probe(ent, c, 1) == HSIZE - 1 && Probe(ent, c, 2) == HSIZE - 2
  {
    FirstProbe(ent, c);
    NextProbe(ent, c, 0);
    NextProbe(ent, c, 1);
    hide Probe;
  }

  /** The slot a new string gets, where at most two probes are needed to say so. */
  function Landing(tab: Slots, ent: nat, c: nat): (i: nat)
    requires ent < 4096 && c < 256
  {
    if tab[FirstSlot(ent, c)] < 0 then FirstSlot(ent, c) else if tab[HSIZE - 1] <= 0 then HSIZE - 1 else HSIZE - 2
  }

  predicate Early(tab: Slots, ent: nat, c: nat)
    requires ent < 4096 && c < 256
  {
    || tab[FirstSlot(ent, c)] < 0
    || (FirstSlot(ent, c) == 0 && tab[0] > 0 && (tab[HSIZE - 1] <= 0 || tab[HSIZE - 2] <= 0))
  }

  lemma Lands(tab: Slots, ent: nat, c: nat, i: nat, n: nat)
    requires ent < 4096 && c < 256 && PathTo(tab, ent, c, i, n) && tab[i] <= 0 && Early(tab, ent, c)
    ensures i == Landing(tab, ent, c)
  {
    FirstProbe(ent, c);
    if tab[FirstSlot(ent, c)] >= 0 {
      ProbesFromZero(ent, c);
    }
    hide Probe, FirstSlot;
  }

  /** A turn of the matching loop that finds no match in a table with room. */
  method Miss(z: Compressor, ent: nat, c: nat, ghost read: seq<nat>)
    requires z.Apart() && z.w.cs == 8 && |z.dict| < 10 && ent < 4096 && c < 256
    requires Key(ent, c) !in z.table.htab[..] && Early(z.table.htab[..], ent, c)
    requires z.Inv(read, ent)
    modifies z, z.w, z.w.packets, z.w.packets.accum, z.table, z.table.htab, z.table.codetab
    ensures z.dict == old(z.dict) + [Entry(ent, c)] && z.w.codes == old(z.w.codes) + [ent]
    ensures z.table.htab[..] == old(z.table.htab[..])[Landing(old(z.table.htab[..]), ent, c) := Key(ent, c)]
    ensures z.Inv(read + [c], c)
  {
    hide FirstSlot, Probe, Findable, SlotOk, PathTo, Key, Early, Landing, InStep, Table.Valid, CodeWriter.Valid;
    hide FeedAll, Expand, Meant;
    assert Pow2(8) == 256;
    ghost var was := z.table.htab[..];
    ghost var hit, i, n;
    var next;
    next, hit, i, n := z.Step(ent, c, read);
    assert was[i] in was;
    Lands(was, ent, c, i, n);
  }

  /** A table that is free but for six slots. */
  datatype Marks = Marks(zero: int, one: int, two: int, far: int, low: int, top: int)

  ghost predicate Shows(t: Slots, m: Marks) {
    && t[0] == m.zero && t[1] == m.one && t[2] == m.two && t[512] == m.far
    && t[HSIZE - 2] == m.low && t[HSIZE - 1] == m.top
    && forall j :: 0 <= j < HSIZE && j != 0 && j != 1 && j != 2 && j != 512 && j != HSIZE - 2 && j != HSIZE - 1 ==> t[j] == -1
  }

  lemma Blank(t: Slots)
    requires forall i :: 0 <= i < HSIZE ==> t[i] == -1
    ensures Shows(t, Marks(-1, -1, -1, -1, -1, -1))
  {
  }

  /** What the turns of the run below find in the table, and leave in it. */
  lemma Turns(t: Slots, m: Marks)
    requires Shows(t, m)
    ensures m == Marks(-1, -1, -1, -1, -1, -1) ==>
      Key(16, 1) !in t && Early(t, 16, 1) && Shows(t[Landing(t, 16, 1) := Key(16, 1)], m.(zero := 4112))
    ensures m == Marks(4112, -1, -1, -1, -1, -1) ==>
      Key(1, 0) !in t && Early(t, 1, 0) && Shows(t[Landing(t, 1, 0) := Key(1, 0)], m.(one := 1))
    ensures m == Marks(4112, 1, -1, -1, -1, -1) ==>
      Key(0, 0) !in t && Early(t, 0, 0) && Shows(t[Landing(t, 0, 0) := Key(0, 0)], m.(top := 0))
  {
    FirstSlots();
    hide FirstSlot;
  }

  lemma MoreTurns(t: Slots, m: Marks)
    requires Shows(t, m)
    ensures m == Marks(4112, 1, -1, -1, -1, 0) ==>
      Key(0, 32) !in t && Early(t, 0, 32) && Shows(t[Landing(t, 0, 32) := Key(0, 32)], m.(far := 131072))
    ensures m == Marks(4112, 1, -1, 131072, -1, 0) ==>
      Key(32, 2) !in t && Early(t, 32, 2) && Shows(t[Landing(t, 32, 2) := Key(32, 2)], m.(top := 8224))
    ensures m == Marks(4112, 1, -1, 131072, -1, 8224) ==>
      Key(2, 0) !in t && Early(t, 2, 0) && Shows(t[Landing(t, 2, 0) := Key(2, 0)], m.(two := 2))
    ensures m == Marks(4112, 1, 2, 131072, -1, 8224) ==> Key(0, 0) !in t && Early(t, 0, 0)
  {
    FirstSlots();
    hide FirstSlot;
  }

  /** The first four of the pixels 16, 1, 0, 0, 32, 2, 0, 0. */
  method Opening(z: Compressor)
    requires z.Apart() && z.w.Valid() && z.w.codes == [] && z.w.freeEnt == Pow2(8) + 2 && !z.w.clearFlg && z.w.cs == 8
    modifies z, z.w, z.w.packets, z.w.packets.accum, z.table, z.table.htab, z.table.codetab
    ensures z.Apart() && Shows(z.table.htab[..], Marks(4112, 1, -1, -1, -1, 0)) && z.Inv([16, 1, 0, 0], 0)
    ensures z.dict == [Entry(16, 1), Entry(1, 0), Entry(0, 0)] && z.w.codes == [256, 16, 1, 0]
  {
    hide Compressor.Inv, Early, Landing, Shows, CodeWriter.Valid, Key;
    assert Pow2(8) == 256;
    z.Open(16);
    ghost var read := [16];
    ghost var m := Marks(-1, -1, -1, -1, -1, -1);
    Blank(z.table.htab[..]);
    Turns(z.table.htab[..], m);
    Miss(z, 16, 1, read);
    read, m := read + [1], m.(zero := 4112);
    Turns(z.table.htab[..], m);
    Miss(z, 1, 0, read);
    read, m := read + [0], m.(one := 1);
    Turns(z.table.htab[..], m);
    Miss(z, 0, 0, read);
    assert read + [0] == [16, 1, 0, 0];
  }

  /** The next three. */
  method Overwriting(z: Compressor)
    requires z.Apart() && Shows(z.table.htab[..], Marks(4112, 1, -1, -1, -1, 0)) && z.Inv([16, 1, 0, 0], 0)
    requires |z.dict| == 3 && z.w.cs == 8
    modifies z, z.w, z.w.packets, z.w.packets.accum, z.table, z.table.htab, z.table.codetab
    ensures Shows(z.table.htab[..], Marks(4112, 1, 2, 131072, -1, 8224)) && z.Inv([16, 1, 0, 0, 32, 2, 0], 0)
    ensures z.dict == old(z.dict) + [Entry(0, 32), Entry(32, 2), Entry(2, 0)]
    ensures z.w.codes == old(z.w.codes) + [0, 32, 2]
  {
    hide Compressor.Inv, Early, Landing, Shows, CodeWriter.Valid, Key;
    ghost var read := [16, 1, 0, 0];
    ghost var m := Marks(4112, 1, -1, -1, -1, 0);
    MoreTurns(z.table.htab[..], m);
    Miss(z, 0, 32, read);
    read, m := read + [32], m.(far := 131072);
    MoreTurns(z.table.htab[..], m);
    Miss(z, 32, 2, read);
    read, m := read + [2], m.(top := 8224);
    MoreTurns(z.table.htab[..], m);
    Miss(z, 2, 0, read);
    assert read + [0] == [16, 1, 0, 0, 32, 2, 0];
  }

  /** The key 0 really can be lost.  On the pixels 16, 1, 0, 0, 32, 2, 0, 0 the compressor keeps its invariant to the
      end, yet the last turn writes a code and defines a string that the dictionary already held. */
  method ForgetsKeyZero() returns (z: Compressor, ghost dict: seq<Entry>, ghost codes: seq<nat>)
    ensures z.Inv([16, 1, 0, 0, 32, 2, 0, 0], 0) && z.w.cs == 8
    ensures Entry(0, 0) in dict && z.dict == dict + [Entry(0, 0)]
    ensures codes == [256, 16, 1, 0, 0, 32, 2] && z.w.codes == codes + [0]
  {
    hide Compressor.Inv, Early, Landing, Shows, CodeWriter.Valid, Key;
    z := new Compressor(8);
    Opening(z);
    Overwriting(z);
    dict, codes := z.dict, z.w.codes;
    assert dict[2] == Entry(0, 0);
    MoreTurns(z.table.htab[..], Marks(4112, 1, 2, 131072, -1, 8224));
    Miss(z, 0, 0, [16, 1, 0, 0, 32, 2, 0]);
    assert [16, 1, 0, 0, 32, 2, 0] + [0] == [16, 1, 0, 0, 32, 2, 0, 0];
  }
}
