/** GIF data sub-blocks (section 15 of the GIF89a specification): a count byte followed by that
    many data bytes, the series ended by a zero count. */
module SubBlocks {
  import opened BitStrings

  predicate BlocksOk(blocks: seq<seq<byte>>) {
    forall i :: 0 <= i < |blocks| ==> 0 < |blocks[i]| < 256
  }

  function Flatten(blocks: seq<seq<byte>>): seq<byte> {
    if blocks == [] then [] else Flatten(blocks[..|blocks| - 1]) + blocks[|blocks| - 1]
  }

  /** The blocks as written, without the terminator. */
  function Write(blocks: seq<seq<byte>>): seq<byte>
    requires BlocksOk(blocks)
  {
    if blocks == [] then []
    else
      var last := blocks[|blocks| - 1];
      Write(blocks[..|blocks| - 1]) + [|last|] + last
  }

  /** How a series of sub-blocks ends: at its terminator, at a block longer than the data, or with no count byte left
      where one is due. */
  datatype Fate = Terminated | CutShort | PastEnd

  function FateOf(src: seq<byte>, off: nat): Fate
    decreases |src| - off
  {
    if off >= |src| then PastEnd
    else if src[off] == 0 then Terminated
    else if off + 1 + src[off] > |src| then CutShort
    else FateOf(src, off + 1 + src[off])
  }

  /** A series of sub-blocks starts at `off` and is terminated inside `src`. */
  predicate Chain(src: seq<byte>, off: nat) { FateOf(src, off) == Terminated }

  /** The data bytes of the whole blocks of the series starting at `off`. */
  function Payload(src: seq<byte>, off: nat): seq<byte>
    decreases |src| - off
  {
    if off >= |src| || src[off] == 0 || off + 1 + src[off] > |src| then []
    else
      var next := off + 1 + src[off];
      src[off + 1..next] + Payload(src, next)
  }

  /** A whole block starts at `off`. */
  predicate Whole(src: seq<byte>, off: nat) { off < |src| && src[off] > 0 && off + 1 + src[off] <= |src| }

  function BlockBits(src: seq<byte>, off: nat): nat
    requires off < |src|
  {
    var count: nat := src[off];
    8 * count
  }

  /** Block by block from `first` one comes to `off`. */
  predicate Reach(src: seq<byte>, first: nat, off: nat)
    decreases |src| - first
  {
    first == off || (Whole(src, first) && Reach(src, first + 1 + src[first], off))
  }

  /** How many bits the block that holds the `t`-th bit of the series has behind it. */
  function Held(src: seq<byte>, first: nat, t: nat): nat
    decreases |src| - first
  {
    if t == 0 || !Whole(src, first) then 0
    else if t <= BlockBits(src, first) then BlockBits(src, first) - t
    else Held(src, first + 1 + src[first], t - BlockBits(src, first))
  }

  lemma {:induction false} ReachNext(src: seq<byte>, first: nat, off: nat)
    requires Reach(src, first, off) && Whole(src, off)
    ensures Reach(src, first, off + 1 + src[off])
    decreases |src| - first
  {
    if first != off {
      ReachNext(src, first + 1 + src[first], off);
    }
  }

  /** If `left` bits are left of the block at `prev`, those are what the block holds behind the bits before them. */
  lemma {:induction false} HeldAt(src: seq<byte>, first: nat, prev: nat, left: nat)
    requires Reach(src, first, prev) && Whole(src, prev) && left < BlockBits(src, prev)
    ensures var t := 8 * |Payload(src, first)| - 8 * |Payload(src, prev + 1 + src[prev])| - left;
            t > 0 && Held(src, first, t) == left
    decreases |src| - first
  {
    if first != prev {
      HeldAt(src, first + 1 + src[first], prev, left);
    }
  }

  predicate At(src: seq<byte>, off: nat, s: seq<byte>) {
    off + |s| <= |src| && src[off..off + |s|] == s
  }

  lemma AtConcat(src: seq<byte>, off: nat, s: seq<byte>, t: seq<byte>)
    requires At(src, off, s + t)
    ensures At(src, off, s) && At(src, off + |s|, t)
  {
    assert (s + t)[..|s|] == s && (s + t)[|s|..] == t;
    assert src[off..off + |s + t|][..|s|] == src[off..off + |s|];
    assert src[off..off + |s + t|][|s|..] == src[off + |s|..off + |s + t|];
  }

  lemma ReadOne(src: seq<byte>, off: nat, block: seq<byte>)
    requires 0 < |block| < 256 && At(src, off, [|block|] + block)
    requires Chain(src, off + 1 + |block|)
    ensures Chain(src, off)
    ensures Payload(src, off) == block + Payload(src, off + 1 + |block|)
  {
    AtConcat(src, off, [|block|], block);
    assert src[off] == [|block|][0];
  }

  /** Reading what was written gives the data back, however it was divided into blocks. */
  lemma {:induction false} ReadWritten(src: seq<byte>, off: nat, blocks: seq<seq<byte>>)
    requires BlocksOk(blocks) && At(src, off, Write(blocks))
    requires Chain(src, off + |Write(blocks)|)
    ensures Chain(src, off)
    ensures Payload(src, off) == Flatten(blocks) + Payload(src, off + |Write(blocks)|)
  {
    hide At, Chain, Payload;
    if blocks != [] {
      var front, last := blocks[..|blocks| - 1], blocks[|blocks| - 1];
      assert Write(blocks) == Write(front) + ([|last|] + last);
      AtConcat(src, off, Write(front), [|last|] + last);
      ReadOne(src, off + |Write(front)|, last);
      ReadWritten(src, off, front);
    }
  }

  /** The packet accumulator: bytes are collected and written out 254 at a time. */
  class PacketWriter {
    const accum: array<byte>
    var count: nat
    var stream: seq<byte>
    ghost var blocks: seq<seq<byte>>

    ghost predicate Valid()
      reads this
    {
      && accum.Length == 256 && count <= 254
      && (forall i :: 0 <= i < |blocks| ==> 0 < |blocks[i]| <= 254)
      && stream == Write(blocks)
    }

    /** Every byte put so far, whether or not its packet has been written. */
    ghost function Bytes(): seq<byte>
      requires Valid()
      reads this, accum
    {
      Flatten(blocks) + accum[..count]
    }

    constructor ()
      ensures Valid() && Bytes() == [] && count == 0 && fresh(accum)
    {
      accum := new byte[256](_ => 0);
      count := 0;
      stream := [];
      blocks := [];
    }

    method FlushChar()
      requires Valid()
      modifies this
      ensures Valid() && count == 0 && Bytes() == old(Bytes())
      ensures old(count) == 0 ==> stream == old(stream)
      ensures old(count) > 0 ==> stream == old(stream) + [old(count)] + old(accum[..count])
    {
      if count > 0 {
        stream := stream + [count] + accum[..count];
        ghost var all := blocks + [accum[..count]];
        assert all[..|all| - 1] == blocks;
        blocks := all;
        count := 0;
      }
    }

    method CharOut(c: byte)
      requires Valid() && count < 254
      modifies this, accum
      ensures Valid() && count < 254 && Bytes() == old(Bytes()) + [c]
      ensures count == if old(count) == 253 then 0 else old(count) + 1
    {
      accum[count] := c;
      count := count + 1;
      assert Bytes() == old(Bytes()) + [c];
      if count >= 254 {
        FlushChar();
      }
    }
  }
}
