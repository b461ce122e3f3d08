/** MD5 over a stream (sections 3.1 to 3.5 of RFC 1321): a context fed in pieces of any size gives the digest of
    the whole message. */
module Md5 {
  import opened Md5Rounds

  type octet = bv8

  const WORD: nat := 0x1_0000_0000

  // ----- words and octets -----

  function Join(b0: octet, b1: octet, b2: octet, b3: octet): word {
    (((b3 as word) << 24) | ((b2 as word) << 16)) | (((b1 as word) << 8) | (b0 as word))
  }

  function Split(w: word): seq<octet> {
    [(w & 0xFF) as octet, ((w >> 8) & 0xFF) as octet, ((w >> 16) & 0xFF) as octet, ((w >> 24) & 0xFF) as octet]
  }

  lemma JoinSplit(w: word)
    ensures Join(Split(w)[0], Split(w)[1], Split(w)[2], Split(w)[3]) == w
  {
  }

  /** Four octets as a word, low-order octet first. */
  function WordAt(bs: seq<octet>, i: nat): word
    requires 4 * i + 4 <= |bs|
  {
    Join(bs[4 * i], bs[4 * i + 1], bs[4 * i + 2], bs[4 * i + 3])
  }

  function Words(bs: seq<octet>): (ws: seq<word>)
    requires |bs| == 64
    ensures |ws| == 16
  {
    seq(16, i requires 0 <= i < 16 => WordAt(bs, i))
  }

  // ----- the digest of a message -----

  const START := Quad(0x67452301, 0xefcdab89, 0x98badcfe, 0x10325476)

  /** The state after n blocks. */
  function Chain(n: nat, bs: seq<octet>): Quad
    requires 64 * n <= |bs|
  {
    if n == 0 then START
    else Compress(Chain(n - 1, bs), Words(bs[64 * n - 64..64 * n]))
  }

  /** The 64-bit length in bits, low-order word first. */
  function LengthOctets(n: nat): (bs: seq<octet>)
    ensures |bs| == 8
  {
    Split((8 * n % WORD) as word) + Split((8 * n / WORD % WORD) as word)
  }

  /** How many octets take n up to 56 modulo 64, at least one. */
  function FillerLength(n: nat): (k: nat)
    ensures 1 <= k <= 64 && (n + k) % 64 == 56
  {
    if n % 64 < 56 then 56 - n % 64 else 120 - n % 64
  }

  /** A one bit, then zero bits. */
  function Filler(k: nat): (bs: seq<octet>)
    requires k >= 1
    ensures |bs| == k
  {
    [0x80] + seq(k - 1, _ => 0)
  }

  function Padded(m: seq<octet>): (bs: seq<octet>)
    ensures |bs| == |m| + FillerLength(|m|) + 8
  {
    m + Filler(FillerLength(|m|)) + LengthOctets(|m|)
  }

  function Digest(m: seq<octet>): (bs: seq<octet>)
    ensures |bs| == 16
  {
    var all := Padded(m);
    var q := Chain(|all| / 64, all);
    Split(q.a) + Split(q.b) + Split(q.c) + Split(q.d)
  }

  // ----- the context -----

  lemma {:induction false} ChainPrefix(n: nat, a: seq<octet>, b: seq<octet>)
    requires 64 * n <= |a|
    ensures Chain(n, a + b) == Chain(n, a)
  {
    hide Compress, Words;
    if n > 0 {
      ChainPrefix(n - 1, a, b);
      assert (a + b)[64 * n - 64..64 * n] == a[64 * n - 64..64 * n];
    }
  }

  /** The chaining state of the whole blocks of m, and the rest of m at the front of the buffer. */
  ghost predicate Holds(m: seq<octet>, q: Quad, block: seq<octet>) {
    var n, k := |m| / 64, |m| % 64;
    |block| == 64 && q == Chain(n, m) && block[..k] == m[64 * n..]
  }

  lemma HoldsMore(m: seq<octet>, q: Quad, block: seq<octet>, c: octet)
    requires Holds(m, q, block) && |m| % 64 < 63
    ensures Holds(m + [c], q, block[|m| % 64 := c])
  {
    hide Chain;
    var n, k := |m| / 64, |m| % 64;
    assert |m + [c]| / 64 == n && |m + [c]| % 64 == k + 1;
    ChainPrefix(n, m, [c]);
    assert block[k := c][..k + 1] == block[..k] + [c];
    assert (m + [c])[64 * n..] == m[64 * n..] + [c];
  }

  lemma ChainStep(n: nat, bs: seq<octet>)
    requires 64 * n + 64 <= |bs|
    ensures Chain(n + 1, bs) == Compress(Chain(n, bs), Words(bs[64 * n..64 * n + 64]))
  {
    hide Compress, Words;
  }

  lemma LastBlock(m: seq<octet>, n: nat, block: seq<octet>, c: octet)
    requires |block| == 64 && |m| == 64 * n + 63 && block[..63] == m[64 * n..]
    ensures (m + [c])[64 * n..64 * n + 64] == block[63 := c]
  {
    assert (m + [c])[64 * n..64 * n + 64] == m[64 * n..] + [c];
    assert block[63 := c] == block[..63] + [c];
  }

  lemma HoldsBlock(m: seq<octet>, q: Quad, block: seq<octet>, c: octet)
    requires Holds(m, q, block) && |m| % 64 == 63
    ensures Holds(m + [c], Compress(q, Words(block[63 := c])), block[63 := c])
  {
    hide Compress, Words, Chain;
    var n, all := |m| / 64, m + [c];
    LastBlock(m, n, block, c);
    ChainPrefix(n, m, [c]);
    ChainStep(n, all);
    assert |all| / 64 == n + 1 && |all| % 64 == 0;
  }

  predicate Counts(n: nat, low: nat, high: nat) {
    low == 8 * n % WORD && high == 8 * n / WORD % WORD
  }

  lemma DivMod(x: nat, q: nat, r: nat)
    requires x == WORD * q + r && r < WORD
    ensures x / WORD == q && x % WORD == r
  {
  }

  /** The two counter words with their carry keep the bit count modulo 2 to the 64th. */
  lemma CountMore(n: nat, low: nat, high: nat, len: nat)
    requires Counts(n, low, high) && len < WORD
    ensures var added := 8 * len % WORD;
            var carry := if (low + added) % WORD < low then 1 else 0;
            Counts(n + len, (low + added) % WORD, (high + carry + len / 0x2000_0000) % WORD)
  {
    var a, b := 8 * n / WORD, len / 0x2000_0000;
    var added := 8 * len % WORD;
    var carry := if low + added < WORD then 0 else 1;
    var c := a / WORD;
    assert 8 * len == WORD * b + added;
    DivMod(low + added, carry, low + added - WORD * carry);
    DivMod(8 * (n + len), a + b + carry, low + added - WORD * carry);
    hide Counts;
    var sum := high + b + carry;
    assert a + b + carry == WORD * c + sum;
    DivMod(sum, sum / WORD, sum % WORD);
    DivMod(a + b + carry, c + sum / WORD, sum % WORD);
    CountIs(n + len, (low + added) % WORD, sum % WORD, a + b + carry);
  }

  lemma CountIs(n: nat, low: nat, high: nat, top: nat)
    requires 8 * n % WORD == low && 8 * n / WORD == top && top % WORD == high
    ensures Counts(n, low, high)
  {
  }

  lemma CountOffset(n: nat, low: nat, high: nat)
    requires Counts(n, low, high)
    ensures low / 8 % 64 == n % 64
  {
    var a := 8 * n / WORD;
    assert 8 * n == WORD * a + low;
    assert low == 8 * (n - 0x2000_0000 * a);
    assert low / 8 == n - 0x2000_0000 * a;
    assert n == 64 * (0x80_0000 * a) + low / 8;
  }

  // ----- the last block -----

  lemma LengthWords(n: nat)
    ensures WordAt(LengthOctets(n), 0) == (8 * n % WORD) as word
    ensures WordAt(LengthOctets(n), 1) == (8 * n / WORD % WORD) as word
  {
    JoinSplit((8 * n % WORD) as word);
    JoinSplit((8 * n / WORD % WORD) as word);
    hide Join;
  }

  lemma WordsOfSum(a: seq<octet>, b: seq<octet>)
    requires |a| == 56 && |b| == 8
    ensures forall i :: 0 <= i < 14 ==> Words(a + b)[i] == WordAt(a, i)
    ensures Words(a + b)[14] == WordAt(b, 0) && Words(a + b)[15] == WordAt(b, 1)
  {
    hide Join;
  }

  lemma SameWord(block: seq<octet>, i: nat)
    requires |block| == 64 && i < 14
    ensures WordAt(block[..56], i) == WordAt(block, i)
  {
  }

  lemma ClosingOctets(filled: seq<octet>, tail: seq<octet>, n: nat, block: seq<octet>)
    requires |filled| == 64 * n + 56 && |tail| == 8 && |block| == 64 && block[..56] == filled[64 * n..]
    ensures (filled + tail)[64 * n..64 * n + 64] == block[..56] + tail
  {
  }

  lemma ClosingWords(block: seq<octet>, n: nat, ws: seq<word>)
    requires |block| == 64 && |ws| == 16 && forall i :: 0 <= i < 14 ==> ws[i] == WordAt(block, i)
    requires ws[14] == (8 * n % WORD) as word && ws[15] == (8 * n / WORD % WORD) as word
    ensures ws == Words(block[..56] + LengthOctets(n))
  {
    hide Words, LengthOctets, Join;
    WordsOfSum(block[..56], LengthOctets(n));
    LengthWords(n);
    hide WordAt;
    forall i | 0 <= i < 14
      ensures ws[i] == Words(block[..56] + LengthOctets(n))[i]
    {
      SameWord(block, i);
    }
  }

  /** The block that closes a padded message. */
  lemma ClosingBlock(m: seq<octet>, q: Quad, block: seq<octet>, ws: seq<word>)
    requires Holds(m + Filler(FillerLength(|m|)), q, block)
    requires |ws| == 16 && forall i :: 0 <= i < 14 ==> ws[i] == WordAt(block, i)
    requires ws[14] == (8 * |m| % WORD) as word && ws[15] == (8 * |m| / WORD % WORD) as word
    ensures Compress(q, ws) == Chain(|Padded(m)| / 64, Padded(m))
  {
    hide Compress, Words, Chain, WordAt, Filler, LengthOctets;
    ClosingWords(block, |m|, ws);
    var filled, tail := m + Filler(FillerLength(|m|)), LengthOctets(|m|);
    var n := |filled| / 64;
    assert |filled| == 64 * n + 56;
    ClosingOctets(filled, tail, n, block);
    ChainPrefix(n, filled, tail);
    ChainStep(n, filled + tail);
  }

  /** The buffer starts with the last 56 octets of the message. */
  predicate Tail56(m: seq<octet>, block: seq<octet>) {
    |m| >= 56 && |block| == 64 && block[..56] == m[|m| - 56..]
  }

  lemma HoldsTail(m: seq<octet>, q: Quad, block: seq<octet>)
    requires Holds(m, q, block) && |m| % 64 == 56
    ensures Tail56(m, block)
  {
    hide Chain;
  }

  lemma TwiceAdded(x: nat, y: nat, z: nat)
    ensures ((x + y) % WORD + z) % WORD == (x + y + z) % WORD
  {
    var q, r := (x + y) / WORD, (x + y) % WORD;
    DivMod(r + z, (r + z) / WORD, (r + z) % WORD);
    DivMod(x + y + z, q + (r + z) / WORD, (r + z) % WORD);
  }

  class Context {
    var low: nat
    var high: nat
    const buf: array<word>
    const block: array<octet>
    const digest: array<octet>

    /** Everything the context has been given. */
    ghost var message: seq<octet>

    ghost predicate Shaped() {
      buf.Length == 4 && block.Length == 64 && digest.Length == 16 && block != digest
    }

    ghost predicate Valid()
      reads this, buf, block
    {
      Shaped() && Counts(|message|, low, high) && Holds(message, AsQuad(buf[..]), block[..])
    }

    constructor ()
      ensures Valid() && message == []
      ensures fresh(buf) && fresh(block) && fresh(digest)
    {
      low, high := 0, 0;
      buf := new word[4];
      block := new octet[64];
      digest := new octet[16];
      message := [];
      new;
      buf[0], buf[1], buf[2], buf[3] := 0x67452301, 0xefcdab89, 0x98badcfe, 0x10325476;
    }

    /** The first words of the buffer. */
    method Gather(n: nat) returns (ws: seq<word>)
      requires Shaped() && n <= 16
      ensures |ws| == n && forall i :: 0 <= i < n ==> ws[i] == WordAt(block[..], i)
    {
      hide Join;
      ws := [];
      var ii := 0;
      for i := 0 to n
        invariant ii == 4 * i && |ws| == i
        invariant forall j :: 0 <= j < i ==> ws[j] == WordAt(block[..], j)
      {
        ws := ws + [Join(block[ii], block[ii + 1], block[ii + 2], block[ii + 3])];
        ii := ii + 4;
      }
    }

    /** One more octet into the buffer, which is compressed when full. */
    method Absorb(c: octet, at: nat, ghost m: seq<octet>) returns (next: nat)
      requires Shaped() && Holds(m, AsQuad(buf[..]), block[..]) && at == |m| % 64
      modifies buf, block
      ensures Holds(m + [c], AsQuad(buf[..]), block[..]) && next == |m + [c]| % 64
    {
      hide Compress, Chain, Join;
      ghost var q, was := AsQuad(buf[..]), block[..];
      block[at] := c;
      assert block[..] == was[at := c];
      next := at + 1;
      if next == 64 {
        HoldsBlock(m, q, was, c);
        var ws := Gather(16);
        assert ws == Words(block[..]);
        hide Holds;
        Transform(buf, ws);
        next := 0;
      } else {
        HoldsMore(m, q, was, c);
      }
    }

    /** The bit count after len more octets. */
    method Count(len: nat, ghost n: nat)
      requires Counts(n, low, high) && len < WORD
      modifies this`low, this`high
      ensures Counts(n + len, low, high)
    {
      CountMore(n, low, high, len);
      var added := 8 * len % WORD;
      if (low + added) % WORD < low {
        TwiceAdded(high, 1, len / 0x2000_0000);
        high := (high + 1) % WORD;
      }
      low := (low + added) % WORD;
      high := (high + len / 0x2000_0000) % WORD;
    }

    method AbsorbAll(data: seq<octet>, first: nat)
      requires Shaped() && Holds(message, AsQuad(buf[..]), block[..]) && first == |message| % 64
      modifies buf, block
      ensures Holds(message + data, AsQuad(buf[..]), block[..])
    {
      hide Holds;
      var at := first;
      assert message + data[..0] == message;
      for i := 0 to |data|
        invariant Holds(message + data[..i], AsQuad(buf[..]), block[..])
        invariant at == |message + data[..i]| % 64
      {
        at := Absorb(data[i], at, message + data[..i]);
        assert message + data[..i] + [data[i]] == message + data[..i + 1];
      }
      assert data[..|data|] == data;
    }

    /** Any number of octets added to the message. */
    method Update(data: seq<octet>)
      requires Valid() && |data| < WORD
      modifies this, buf, block
      ensures Valid() && message == old(message) + data
    {
      hide Holds, Counts;
      CountOffset(|message|, low, high);
      var at := low / 8 % 64;
      Count(|data|, |message|);
      AbsorbAll(data, at);
      message := message + data;
    }

    /** Pads the message up to its last eight octets, and gives the counters from before. */
    method Pad() returns (w14: word, w15: word)
      requires Valid()
      modifies this, buf, block
      ensures Valid() && message == old(message) + Filler(FillerLength(|old(message)|))
      ensures w14 == (8 * |old(message)| % WORD) as word && w15 == (8 * |old(message)| / WORD % WORD) as word
    {
      hide Holds, Filler;
      w14, w15 := low as word, high as word;
      CountOffset(|message|, low, high);
      var at := low / 8 % 64;
      var pad := if at < 56 then 56 - at else 120 - at;
      assert pad == FillerLength(|message|);
      hide FillerLength, Counts;
      Update(Filler(pad));
    }

    /** Pads and closes the message: the digest of everything given. */
    method Final()
      requires Valid()
      modifies this, buf, block, digest
      ensures digest[..] == Digest(old(message))
      ensures message == old(message) + Filler(FillerLength(|old(message)|)) && Counts(|message|, low, high)
      ensures AsQuad(buf[..]) == Chain(|Padded(old(message))| / 64, Padded(old(message)))
      ensures Tail56(message, block[..])
    {
      hide Holds, Compress, Chain, Words, Join, Split, Filler, Tail56, FillerLength, Counts;
      ghost var m := message;
      var w14, w15 := Pad();
      var ws := Gather(14);
      ws := ws + [w14, w15];
      ClosingBlock(m, AsQuad(buf[..]), block[..], ws);
      HoldsTail(message, AsQuad(buf[..]), block[..]);
      Transform(buf, ws);
      Store();
    }

    method Store()
      requires Shaped()
      modifies digest
      ensures var q := AsQuad(buf[..]); digest[..] == Split(q.a) + Split(q.b) + Split(q.c) + Split(q.d)
    {
      var ii := 0;
      for i := 0 to 4
        invariant ii == 4 * i && buf[..] == old(buf[..])
        invariant forall j :: 0 <= j < i ==> digest[4 * j..4 * j + 4] == Split(buf[j])
      {
        var w := Split(buf[i]);
        digest[ii], digest[ii + 1], digest[ii + 2], digest[ii + 3] := w[0], w[1], w[2], w[3];
        ii := ii + 4;
      }
    }
  }

  function Concat(pieces: seq<seq<octet>>): seq<octet> {
    if pieces == [] then [] else Concat(pieces[..|pieces| - 1]) + pieces[|pieces| - 1]
  }

  /** However a message is cut into pieces, feeding them one after the other gives its digest. */
  method DigestOfPieces(pieces: seq<seq<octet>>) returns (r: seq<octet>)
    requires forall p <- pieces :: |p| < WORD
    ensures r == Digest(Concat(pieces))
  {
    hide Digest, Holds, Counts, Context.Shaped;
    var ctx := new Context();
    for i := 0 to |pieces|
      invariant ctx.Valid() && fresh(ctx) && fresh(ctx.buf) && fresh(ctx.block) && fresh(ctx.digest)
      invariant ctx.message == Concat(pieces[..i])
    {
      ctx.Update(pieces[i]);
      assert pieces[..i + 1][..i] == pieces[..i];
    }
    assert pieces[..|pieces|] == pieces;
    ctx.Final();
    r := ctx.digest[..];
  }
}
