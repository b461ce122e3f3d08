/** The decoder's bit supply: fixed-width codes cut out of a buffer that is refilled one data
    sub-block at a time, carrying over only its last two bytes. */
module CodeSource {
  import opened BitStrings
  import opened SubBlocks

  /** Two carried bytes are enough: the unread bits of the old buffer, then the new block. */
  lemma CarryTwoBytes(buf: seq<byte>, cur: nat, last: nat, block: seq<byte>)
    requires |buf| >= 2 && cur <= last <= cur + 16 && last <= 8 * |buf|
    requires last == 8 * |buf| || last == cur
    ensures ByteBits(buf[|buf| - 2..] + block)[cur + 16 - last..] == ByteBits(buf)[cur..last] + ByteBits(block)
  {
    hide ByteBits;
    var n := |buf|;
    ByteBitsConcat(buf[n - 2..], block);
    ByteBitsSlice(buf, n - 2, n);
    assert buf[n - 2..n] == buf[n - 2..];
    if last != cur {
      assert ByteBits(buf)[8 * (n - 2)..8 * n][cur + 16 - last..] == ByteBits(buf)[cur..last];
    }
  }

  /** A refill keeps the unread bits. */
  lemma RefillKeeps(src: seq<byte>, off: nat, buf: seq<byte>, cur: nat, last: nat, filled: seq<byte>)
    requires off < |src| && src[off] > 0 && off + 1 + src[off] <= |src|
    requires |buf| >= 2 && cur <= last <= cur + 16 && last <= 8 * |buf|
    requires last == 8 * |buf| || last == cur
    requires filled == buf[|buf| - 2..] + src[off + 1..off + 1 + src[off]]
    ensures ByteBits(filled)[cur + 16 - last..8 * |filled|] + ByteBits(Payload(src, off + 1 + src[off])) ==
            ByteBits(buf)[cur..last] + ByteBits(Payload(src, off))
  {
    var next := off + 1 + src[off];
    var block := src[off + 1..next];
    assert Payload(src, off) == block + Payload(src, next);
    hide *;
    CarryTwoBytes(buf, cur, last, block);
    ByteBitsConcat(block, Payload(src, next));
    assert ByteBits(filled)[cur + 16 - last..8 * |filled|] == ByteBits(filled)[cur + 16 - last..];
  }

  lemma Advance(bits: seq<bool>, cur: nat, last: nat, w: nat, rest: seq<bool>)
    requires cur + w <= last <= |bits|
    ensures (bits[cur..last] + rest)[..w] == bits[cur..cur + w]
    ensures (bits[cur..last] + rest)[w..] == bits[cur + w..last] + rest
  {
  }

  lemma SliceOfSlice(b: seq<bool>, lo: nat, hi: nat, k: nat, w: nat)
    requires lo <= hi <= |b| && k + w <= hi - lo
    ensures b[lo..hi][k..k + w] == b[lo + k..lo + k + w]
  {
    var s, t := b[lo..hi][k..k + w], b[lo + k..lo + k + w];
    assert forall i :: 0 <= i < w ==> s[i] == t[i];
  }

  /** The three bytes around the cursor, shifted and masked, are the next `w` bits. */
  lemma CutCode(full: seq<byte>, n: nat, cur: nat, w: nat)
    requires n <= |full| && w <= 16 && cur + w <= 8 * n && cur / 8 + 2 < |full|
    ensures var o := cur / 8;
            Mask(Shr(Assemble(full[o], full[o + 1], full[o + 2]), cur % 8), w) == Value(ByteBits(full[..n])[cur..cur + w])
  {
    hide ByteBits, Mask, Shr, Value;
    var o, k := cur / 8, cur % 8;
    var three := full[o..o + 3];
    assert three == [full[o], full[o + 1], full[o + 2]];
    ValueThreeBytes(full[o], full[o + 1], full[o + 2]);
    ValueSlice(ByteBits(three), k, w);
    ByteBitsSlice(full, o, o + 3);
    ByteBitsSlice(full, 0, n);
    assert full[0..n] == full[..n];
    SliceOfSlice(ByteBits(full), 8 * o, 8 * (o + 3), k, w);
    SliceOfSlice(ByteBits(full), 0, 8 * n, cur, w);
  }

  lemma HeldNone(src: seq<byte>, first: nat)
    ensures Held(src, first, 0) == 0
  {
  }

  /** What is still read after an End, of the bits behind it: those of the block that held it, unless the blocks were
      over before. */
  function Remaining(src: seq<byte>, first: nat, over: bool, rest: seq<bool>): seq<bool> {
    var total := 8 * |Payload(src, first)|;
    if over || |rest| > total then rest
    else
      var k := Held(src, first, total - |rest|);
      if k > |rest| then rest else rest[..k]
  }

  /** Where reading the data has led: nowhere yet, to the library's error exit, or to a byte outside the data. */
  datatype Status = Fine | ErrorExit | Outside

  function Ending(f: Fate): Status {
    match f
    case Terminated => Fine
    case CutShort => ErrorExit
    case PastEnd => Outside
  }

  class BitSource {
    const src: seq<byte>

    /** Where the series of blocks starts, and where the block loaded last does. */
    ghost const first: nat
    ghost var prev: nat

    var status: Status
    var offset: nat
    const codeBuf: array<byte>
    var lastByte: nat
    var lastBit: nat
    var curBit: nat
    var outOfBlocks: bool

    ghost predicate Shaped()
      reads this
    {
      && codeBuf.Length == 260
      && 2 <= lastByte <= 257
      && curBit <= lastBit <= 8 * lastByte
      && (lastBit == 8 * lastByte || lastBit == curBit)
      && status.Fine?
    }

    /** No block is loaded before it is needed: what is left in the buffer, but for `slack` bits, is less than the block
        loaded last. */
    ghost predicate Paced(slack: nat)
      reads this
    {
      || outOfBlocks
      || (offset == first && lastBit == curBit)
      || (Reach(src, first, prev) && Whole(src, prev) && offset == prev + 1 + src[prev] &&
          lastBit - curBit < BlockBits(src, prev) + slack)
    }

    ghost predicate Valid()
      reads this
    {
      Shaped() && Paced(0)
    }

    /** How the series of blocks being read will end. */
    ghost function Fate(): Fate
      reads this
    {
      if outOfBlocks then Terminated else FateOf(src, offset)
    }

    ghost function Buffered(): seq<bool>
      requires Shaped()
      reads this, codeBuf
    {
      ByteBits(codeBuf[..lastByte])[curBit..lastBit]
    }

    ghost function Unloaded(): seq<bool>
      requires Shaped()
      reads this
    {
      if outOfBlocks then [] else ByteBits(Payload(src, offset))
    }

    /** Every bit not yet read. */
    ghost function Input(): seq<bool>
      requires Shaped()
      reads this, codeBuf
    {
      Buffered() + Unloaded()
    }

    /** The GetCode part of InitLZWCode. */
    constructor (data: seq<byte>, start: nat)
      ensures Valid() && fresh(codeBuf) && !outOfBlocks && src == data && first == start
      ensures Input() == ByteBits(Payload(data, start)) && Fate() == FateOf(data, start)
    {
      src := data;
      first := start;
      prev := start;
      status := Fine;
      offset := start;
      codeBuf := new byte[260](_ => 0);
      lastByte := 2;
      lastBit := 0;
      curBit := 0;
      outOfBlocks := false;
    }

    /** ReadByte, which does not ask whether the data is over, and ReadOK, which does. */
    method NextBlock() returns (count: nat)
      requires status.Fine?
      modifies this`offset, this`status
      ensures count < 256
      ensures status.Fine? ==> old(offset) < |src| && count == src[old(offset)] && offset == old(offset) + 1 + count <= |src|
      ensures status.Fine? && count > 0 ==> FateOf(src, offset) == FateOf(src, old(offset))
      ensures status.Fine? && count == 0 ==> FateOf(src, old(offset)) == Terminated && Payload(src, old(offset)) == []
      ensures !status.Fine? ==> status == Ending(FateOf(src, old(offset))) && Payload(src, old(offset)) == []
    {
      if offset >= |src| {
        status := Outside;
        return 0;
      }
      count := src[offset];
      offset := offset + 1;
      if count > 0 {
        if count + offset > |src| {
          status := ErrorExit;
          return;
        }
        offset := offset + count;
      }
    }

    /** Copies the next sub-block to `codeBuf[2..]`; zero marks the end of the series. */
    method GetDataBlock() returns (count: nat)
      requires Shaped()
      modifies this`offset, this`status, codeBuf
      ensures count < 256
      ensures status.Fine? ==> old(offset) < |src| && count == src[old(offset)] && offset == old(offset) + 1 + count <= |src|
      ensures status.Fine? ==> codeBuf[..2 + count] == old(codeBuf[..2]) + src[old(offset) + 1..offset]
      ensures status.Fine? && count > 0 ==> FateOf(src, offset) == FateOf(src, old(offset))
      ensures status.Fine? && count == 0 ==> FateOf(src, old(offset)) == Terminated && Payload(src, old(offset)) == []
      ensures !status.Fine? ==> status == Ending(FateOf(src, old(offset))) && Payload(src, old(offset)) == []
    {
      hide FateOf, Payload;
      count := NextBlock();
      if status.Fine? {
        var from := offset - count;
        for i := 0 to count
          modifies codeBuf
          invariant codeBuf[..2 + i] == old(codeBuf[..2]) + src[from..from + i]
        {
          ghost var done := codeBuf[..2 + i];
          codeBuf[2 + i] := src[from + i];
          assert codeBuf[..2 + (i + 1)] == done + [src[from + i]];
          assert src[from..from + (i + 1)] == src[from..from + i] + [src[from + i]];
        }
      }
    }

    /** Skips the rest of the series: stops just behind its terminator, if it has one. */
    method SkipDataBlocks()
      requires status.Fine?
      modifies this`offset, this`status
      ensures status == Ending(FateOf(src, old(offset)))
      ensures status.Fine? ==> 0 < offset <= |src| && src[offset - 1] == 0
    {
      hide FateOf, Payload;
      var count := NextBlock();
      while status.Fine? && count > 0
        invariant status.Fine? && count > 0 ==> FateOf(src, offset) == FateOf(src, old(offset))
        invariant status.Fine? ==> 0 < offset <= |src|
        invariant status.Fine? && count == 0 ==> src[offset - 1] == 0 && FateOf(src, old(offset)) == Terminated
        invariant !status.Fine? ==> status == Ending(FateOf(src, old(offset)))
        decreases status.Fine?, |src| - offset
      {
        count := NextBlock();
      }
    }

    /** The next sub-block, behind the last two bytes of what there was. */
    method Load() returns (count: nat)
      requires Shaped()
      modifies this`offset, this`status, codeBuf
      ensures count < 256
      ensures status.Fine? && count > 0 ==>
        && old(offset) < |src| && count == src[old(offset)] && offset == old(offset) + 1 + count <= |src|
        && codeBuf[..2 + count] == old(codeBuf[lastByte - 2..lastByte]) + src[old(offset) + 1..offset]
        && FateOf(src, offset) == FateOf(src, old(offset))
      ensures status.Fine? && count == 0 ==> FateOf(src, old(offset)) == Terminated && Payload(src, old(offset)) == []
      ensures !status.Fine? ==> status == Ending(FateOf(src, old(offset))) && Payload(src, old(offset)) == []
    {
      hide Payload, FateOf;
      codeBuf[0], codeBuf[1] := codeBuf[lastByte - 2], codeBuf[lastByte - 1];
      assert codeBuf[..2] == old(codeBuf[lastByte - 2..lastByte]);
      count := GetDataBlock();
    }

    /** One refill.  Nothing unread is lost unless the series has ended. */
    method Reload() returns (more: bool)
      requires Shaped() && !outOfBlocks && lastBit - curBit <= 16
      modifies this, codeBuf
      ensures status == if more then Fine else Ending(old(Fate()))
      ensures status.Fine? ==> Shaped()
      ensures more ==> prev == old(offset) && Whole(src, prev) && offset == prev + 1 + src[prev]
      ensures more ==> lastBit - curBit == old(lastBit - curBit) + BlockBits(src, prev)
      ensures more ==> Input() == old(Input()) && !outOfBlocks && old(offset) < offset <= |src| && Fate() == old(Fate())
      ensures !more ==> |old(Input())| == old(lastBit - curBit)
      ensures !more && status.Fine? ==> outOfBlocks && |Input()| == |old(Input())|
    {
      hide ByteBits, Payload, FateOf;
      ghost var buf := codeBuf[..lastByte];
      assert codeBuf[lastByte - 2..lastByte] == buf[|buf| - 2..];
      var count := Load();
      if !status.Fine? || count == 0 {
        outOfBlocks := status.Fine?;
        return false;
      }
      RefillKeeps(src, old(offset), buf, curBit, lastBit, codeBuf[..2 + count]);
      prev := old(offset);
      curBit := curBit + 16 - lastBit;
      lastByte := 2 + count;
      lastBit := lastByte * 8;
      return true;
    }

    lemma ReachesNext()
      requires Paced(12) && !outOfBlocks
      ensures Reach(src, first, offset)
    {
      if offset != first {
        ReachNext(src, first, prev);
      }
    }

    /** What is in the buffer, told from the number of bits not yet read. */
    lemma BufferHolds()
      requires Valid() && !outOfBlocks
      ensures var t := 8 * |Payload(src, first)| - |Input()|;
              t >= 0 && |Buffered()| == Held(src, first, t) && Buffered() == Input()[..|Buffered()|]
    {
      hide ByteBits, Payload, Reach, Held;
      if offset == first && lastBit == curBit {
        HeldNone(src, first);
      } else {
        HeldAt(src, first, prev, lastBit - curBit);
      }
    }

    /** Skips the remaining blocks unless they are over; what is in the buffer is still there. */
    method Finish()
      requires Valid()
      modifies this
      ensures status == Ending(old(Fate()))
      ensures status.Fine? ==> Valid() && outOfBlocks && Input() == Remaining(src, first, old(outOfBlocks), old(Input()))
    {
      hide FateOf, ByteBits, Payload, Held, Reach;
      if !outOfBlocks {
        BufferHolds();
        SkipDataBlocks();
        outOfBlocks := status.Fine?;
      }
    }

    /** The next `codeSize` bits.  Once too few are left: `endCode` if the series of blocks is terminated, and otherwise
        what the end of the data leads to. */
    method GetCode(codeSize: nat, endCode: nat) returns (code: nat)
      requires Valid() && 0 < codeSize <= 12
      modifies this, codeBuf
      ensures status.Fine? ==> Valid()
      ensures codeSize <= |old(Input())| ==>
        && status.Fine? && code == Value(old(Input())[..codeSize])
        && Input() == old(Input())[codeSize..]
        && outOfBlocks == old(outOfBlocks) && Fate() == old(Fate())
      ensures codeSize > |old(Input())| ==> status == Ending(old(Fate()))
      ensures codeSize > |old(Input())| && status.Fine? ==> code == endCode && outOfBlocks && |Input()| < codeSize
    {
      hide ByteBits, FateOf, Payload, Mask, Shr, Value, Assemble, Reach;
      while curBit + codeSize > lastBit
        invariant Shaped() && Paced(codeSize) && Input() == old(Input()) && outOfBlocks == old(outOfBlocks) && Fate() == old(Fate())
        decreases |src| - offset
      {
        if outOfBlocks {
          return endCode;
        }
        ReachesNext();
        var more := Reload();
        if !more {
          return endCode;
        }
      }
      var offs := curBit / 8;
      var accum := Assemble(codeBuf[offs], codeBuf[offs + 1], codeBuf[offs + 2]);
      code := Mask(Shr(accum, curBit % 8), codeSize);
      CutCode(codeBuf[..], lastByte, curBit, codeSize);
      assert codeBuf[..][..lastByte] == codeBuf[..lastByte];
      Advance(ByteBits(codeBuf[..lastByte]), curBit, lastBit, codeSize, Unloaded());
      curBit := curBit + codeSize;
    }
  }
}
