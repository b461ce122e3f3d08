/** Splitting a response into headers and content, and giving the headers one line ending (Appendix B of RFC 1945
    asks receivers to accept a bare CR or LF where a line ends). */
module Headers {
  import opened BitStrings
  import opened Options

  const CR: byte := 13
  const LF: byte := 10

  predicate Break(b: byte) { b == CR || b == LF }

  // ----- where the headers end -----

  predicate CrCr(d: seq<byte>, i: nat) { i + 2 <= |d| && d[i] == CR && d[i + 1] == CR }

  predicate LfLf(d: seq<byte>, i: nat) { i + 2 <= |d| && d[i] == LF && d[i + 1] == LF }

  predicate CrLfCrLf(d: seq<byte>, i: nat) {
    i + 4 <= |d| && d[i] == CR && d[i + 1] == LF && d[i + 2] == CR && d[i + 3] == LF
  }

  /** A place where an empty line ends. */
  predicate BlankEndsAt(d: seq<byte>, e: nat) {
    (e >= 2 && (CrCr(d, e - 2) || LfLf(d, e - 2))) || (e >= 4 && CrLfCrLf(d, e - 4))
  }

  /** The first occurrence of a byte at or after a place, or the length. */
  method Find(d: seq<byte>, from: nat, b: byte) returns (i: nat)
    requires from <= |d|
    ensures from <= i <= |d| && (i < |d| ==> d[i] == b) && forall k :: from <= k < i ==> d[k] != b
  {
    i := from;
    while i < |d| && d[i] != b
      invariant from <= i <= |d| && forall k :: from <= k < i ==> d[k] != b
    {
      i := i + 1;
    }
  }

  /** The end of the first CRCR or CRLFCRLF. */
  method CrSplit(d: seq<byte>) returns (r: Option<nat>)
    ensures r.Some? ==> (r.value >= 2 && CrCr(d, r.value - 2)) || (r.value >= 4 && CrLfCrLf(d, r.value - 4))
    ensures forall i :: 0 <= i && CrCr(d, i) ==> r.Some? && r.value <= i + 2
    ensures forall i :: 0 <= i && CrLfCrLf(d, i) ==> r.Some? && r.value <= i + 4
  {
    var at := 0;
    r := None;
    while at < |d|
      invariant at <= |d| && r.None?
      invariant forall i :: 0 <= i < at ==> !CrCr(d, i) && !CrLfCrLf(d, i)
      decreases |d| - at
    {
      var cr := Find(d, at, CR);
      if cr == |d| {
        return;
      }
      var left := |d| - cr - 1;
      at := cr + 1;
      if left == 0 {
        return;
      }
      if d[cr + 1] == CR {
        return Some(cr + 2);
      }
      if left < 3 {
        return;
      }
      if d[cr + 1] == LF && d[cr + 2] == CR && d[cr + 3] == LF {
        return Some(cr + 4);
      }
    }
  }

  /** The end of the first LFLF. */
  method LfSplit(d: seq<byte>) returns (r: Option<nat>)
    ensures r.Some? ==> r.value >= 2 && LfLf(d, r.value - 2)
    ensures forall i :: 0 <= i && LfLf(d, i) ==> r.Some? && r.value <= i + 2
  {
    var at := 0;
    r := None;
    while at < |d|
      invariant at <= |d| && r.None?
      invariant forall i :: 0 <= i < at ==> !LfLf(d, i)
      decreases |d| - at
    {
      var lf := Find(d, at, LF);
      if lf == |d| {
        return;
      }
      at := lf + 1;
      if lf + 1 == |d| {
        return;
      }
      if d[lf + 1] == LF {
        return Some(lf + 2);
      }
    }
  }

  // ----- one line ending -----

  /** Every run of breaks as one CRLF; after says that a run is under way. */
  function Canon(h: seq<byte>, after: bool): seq<byte> {
    if h == [] then []
    else if !Break(h[0]) then [h[0]] + Canon(h[1..], false)
    else if after then Canon(h[1..], true)
    else [CR, LF] + Canon(h[1..], true)
  }

  function Canonical(h: seq<byte>): seq<byte> { Canon(h, false) + [CR, LF] }

  predicate EndsInBreak(h: seq<byte>, after: bool) { if h == [] then after else Break(h[|h| - 1]) }

  lemma {:induction false} CanonJoin(x: seq<byte>, y: seq<byte>, after: bool)
    ensures Canon(x + y, after) == Canon(x, after) + Canon(y, EndsInBreak(x, after))
  {
    if x == [] {
      assert x + y == y;
    } else {
      assert (x + y)[1..] == x[1..] + y;
      CanonJoin(x[1..], y, Break(x[0]));
    }
  }

  lemma {:induction false} CanonEnds(h: seq<byte>, after: bool)
    ensures EndsInBreak(Canon(h, after), after) == EndsInBreak(h, after)
  {
    if h != [] {
      CanonEnds(h[1..], Break(h[0]));
    }
  }

  lemma CanonOfBreak(rest: seq<byte>)
    ensures Canon([CR, LF] + rest, false) == [CR, LF] + Canon(rest, true)
  {
    assert ([CR, LF] + rest)[1..] == [LF] + rest;
    assert ([LF] + rest)[1..] == rest;
    assert Canon([LF] + rest, true) == Canon(rest, true);
  }

  lemma CanonOfOther(x: byte, rest: seq<byte>, after: bool)
    requires !Break(x)
    ensures Canon([x] + rest, after) == [x] + Canon(rest, false)
  {
    assert ([x] + rest)[1..] == rest;
  }

  lemma {:induction false} CanonTwice(h: seq<byte>, after: bool)
    ensures Canon(Canon(h, after), after) == Canon(h, after)
  {
    if h != [] {
      var rest := Canon(h[1..], Break(h[0]));
      CanonTwice(h[1..], Break(h[0]));
      if !Break(h[0]) {
        CanonOfOther(h[0], rest, after);
      } else if !after {
        CanonOfBreak(rest);
      }
    }
  }

  lemma LineEnd()
    ensures Canon([CR, LF], true) == [] && Canon([CR, LF], false) == [CR, LF]
  {
    assert [CR, LF][1..] == [LF] && [LF][1..] == [];
    assert Canon([LF], true) == [];
  }

  /** Canonical headers stay as they are exactly when the headers ended in a line break, as split headers do. */
  lemma CanonicalStable(h: seq<byte>)
    ensures Canonical(Canonical(h)) == Canonical(h) <==> EndsInBreak(h, false)
  {
    var c := Canon(h, false);
    CanonJoin(c, [CR, LF], false);
    CanonTwice(h, false);
    CanonEnds(h, false);
    LineEnd();
  }

  predicate Paired(s: seq<byte>, i: nat)
    requires i < |s|
  {
    (s[i] == CR ==> i + 1 < |s| && s[i + 1] == LF) && (s[i] == LF ==> i > 0 && s[i - 1] == CR)
  }

  /** No CR without its LF, no LF without its CR. */
  predicate NoBare(s: seq<byte>) {
    forall i :: 0 <= i < |s| ==> Paired(s, i)
  }

  lemma NoBareJoin(a: seq<byte>, b: seq<byte>)
    requires NoBare(a) && NoBare(b)
    ensures NoBare(a + b)
  {
    var s := a + b;
    forall i | 0 <= i < |s|
      ensures Paired(s, i)
    {
      if i < |a| {
        assert Paired(a, i);
      } else {
        assert Paired(b, i - |a|);
      }
    }
  }

  lemma {:induction false} CanonNoBare(h: seq<byte>, after: bool)
    ensures NoBare(Canon(h, after))
  {
    if h != [] {
      CanonNoBare(h[1..], Break(h[0]));
      if !Break(h[0]) {
        NoBareJoin([h[0]], Canon(h[1..], false));
      } else if !after {
        NoBareJoin([CR, LF], Canon(h[1..], true));
      }
    }
  }

  /** Canonical headers have no bare CR or LF, and end in an empty line when the headers ended in a break. */
  lemma CanonicalForm(h: seq<byte>)
    ensures NoBare(Canonical(h))
    ensures var c := Canonical(h);
            EndsInBreak(h, false) ==> |c| >= 4 && c[|c| - 4..] == [CR, LF, CR, LF]
  {
    CanonNoBare(h, false);
    NoBareJoin(Canon(h, false), [CR, LF]);
    CanonEnds(h, false);
    var c := Canon(h, false);
    if EndsInBreak(h, false) {
      var last := |c| - 1;
      assert Paired(c, last);
      assert c[last] == LF && c[last - 1] == CR;
    }
  }

  /** The bytes of the lines themselves. */
  function Visible(h: seq<byte>): seq<byte> {
    if h == [] then [] else (if Break(h[0]) then [] else [h[0]]) + Visible(h[1..])
  }

  lemma {:induction false} VisibleJoin(a: seq<byte>, b: seq<byte>)
    ensures Visible(a + b) == Visible(a) + Visible(b)
  {
    if a == [] {
      assert a + b == b;
    } else {
      assert (a + b)[1..] == a[1..] + b;
      VisibleJoin(a[1..], b);
    }
  }

  lemma VisibleBreak()
    ensures Visible([CR, LF]) == []
  {
    assert [CR, LF][1..] == [LF] && [LF][1..] == [];
    assert Visible([LF]) == [];
  }

  /** Only line endings change. */
  lemma {:induction false} CanonVisible(h: seq<byte>, after: bool)
    ensures Visible(Canon(h, after)) == Visible(h)
  {
    if h != [] {
      CanonVisible(h[1..], Break(h[0]));
      var rest := Canon(h[1..], Break(h[0]));
      if !Break(h[0]) {
        assert Canon(h, after)[1..] == rest;
      } else if !after {
        VisibleJoin([CR, LF], rest);
        VisibleBreak();
      }
    }
  }

  /** The lines that are not empty, after `line` has been read of the first. */
  function Lines(h: seq<byte>, line: seq<byte>): seq<seq<byte>> {
    if h == [] then (if line == [] then [] else [line])
    else if Break(h[0]) then (if line == [] then [] else [line]) + Lines(h[1..], [])
    else Lines(h[1..], line + [h[0]])
  }

  lemma LinesOfBreak(rest: seq<byte>, line: seq<byte>)
    ensures Lines([CR, LF] + rest, line) == (if line == [] then [] else [line]) + Lines(rest, [])
  {
    assert ([CR, LF] + rest)[1..] == [LF] + rest && ([LF] + rest)[1..] == rest;
    assert Lines([LF] + rest, []) == [] + Lines(rest, []) == Lines(rest, []);
  }

  lemma {:induction false} CanonLines(h: seq<byte>, after: bool, line: seq<byte>)
    requires after ==> line == []
    ensures Lines(Canon(h, after), line) == Lines(h, line)
  {
    if h != [] {
      var rest := Canon(h[1..], Break(h[0]));
      if !Break(h[0]) {
        CanonLines(h[1..], false, line + [h[0]]);
        assert Canon(h, after)[1..] == rest;
      } else {
        CanonLines(h[1..], true, []);
        if after {
          assert [] + Lines(h[1..], []) == Lines(h[1..], []);
        } else {
          LinesOfBreak(rest, line);
        }
      }
    }
  }

  lemma {:induction false} LinesClosed(h: seq<byte>, line: seq<byte>)
    ensures Lines(h + [CR, LF], line) == Lines(h, line)
  {
    if h == [] {
      assert h + [CR, LF] == [CR, LF] + [];
      LinesOfBreak([], line);
    } else {
      assert (h + [CR, LF])[1..] == h[1..] + [CR, LF];
      LinesClosed(h[1..], if Break(h[0]) then [] else line + [h[0]]);
    }
  }

  /** Giving the headers one line ending keeps every byte of the lines, and the non-empty lines, in order. */
  lemma CanonicalKeeps(h: seq<byte>)
    ensures Visible(Canonical(h)) == Visible(h) && Lines(Canonical(h), []) == Lines(h, [])
  {
    CanonVisible(h, false);
    VisibleJoin(Canon(h, false), [CR, LF]);
    VisibleBreak();
    CanonLines(h, false, []);
    LinesClosed(Canon(h, false), []);
  }

  lemma {:induction false} CanonLength(h: seq<byte>, after: bool)
    ensures |Canon(h, after)| <= 2 * |h|
  {
    if h != [] {
      CanonLength(h[1..], Break(h[0]));
    }
  }

  lemma TwoBreaks(two: seq<byte>, after: bool)
    requires |two| == 2 && Break(two[0]) && Break(two[1])
    ensures |Canon(two, after)| <= 2
  {
    assert two[1..] == [two[1]] && [two[1]][1..] == [];
    assert Canon([two[1]], true) == [];
  }

  /** Headers that end in two breaks fit a buffer of twice their length, with the closing zero. */
  lemma CanonicalFits(h: seq<byte>)
    requires |h| >= 2 && Break(h[|h| - 1]) && Break(h[|h| - 2])
    ensures |Canonical(h)| <= 2 * |h|
  {
    var n := |h|;
    var front, two := h[..n - 2], h[n - 2..];
    assert h == front + two;
    CanonJoin(front, two, false);
    CanonLength(front, false);
    TwoBreaks(two, EndsInBreak(front, false));
  }

  lemma SkipRun(h: seq<byte>, cur: nat, after: bool)
    requires cur < |h| && Break(h[cur])
    ensures Canon(h[cur..], after) == (if after then [] else [CR, LF]) + Canon(h[cur + 1..], true)
  {
    assert h[cur..][1..] == h[cur + 1..];
    assert [] + Canon(h[cur + 1..], true) == Canon(h[cur + 1..], true);
  }

  lemma CopyOne(h: seq<byte>, cur: nat, after: bool)
    requires cur < |h| && !Break(h[cur])
    ensures Canon(h[cur..], after) == [h[cur]] + Canon(h[cur + 1..], false)
  {
    assert h[cur..][1..] == h[cur + 1..];
  }

  /** The end of a run of breaks. */
  method SkipBreaks(h: seq<byte>, start: nat) returns (cur: nat)
    requires start < |h| && Break(h[start])
    ensures start < cur <= |h|
    ensures Canon(h[start..], false) == [CR, LF] + Canon(h[cur..], true)
    ensures cur < |h| ==> !Break(h[cur])
  {
    hide Canon;
    SkipRun(h, start, false);
    cur := start + 1;
    while cur < |h| && Break(h[cur])
      invariant start < cur <= |h|
      invariant Canon(h[start..], false) == [CR, LF] + Canon(h[cur..], true)
    {
      SkipRun(h, cur, true);
      cur := cur + 1;
    }
  }

  lemma Associate(a: seq<byte>, b: seq<byte>, c: seq<byte>)
    ensures a + (b + c) == a + b + c && |a + (b + c)| == |a| + |b| + |c|
  {
  }

  method PutByte(buf: array<byte>, at: nat, b: byte) returns (len: nat)
    requires at < buf.Length
    modifies buf
    ensures len == at + 1 && buf[..len] == old(buf[..at]) + [b]
  {
    buf[at] := b;
    len := at + 1;
  }

  method PutBreak(buf: array<byte>, at: nat) returns (len: nat)
    requires at + 2 <= buf.Length
    modifies buf
    ensures len == at + 2 && buf[..len] == old(buf[..at]) + [CR, LF]
  {
    buf[at] := CR;
    buf[at + 1] := LF;
    len := at + 2;
  }

  /** Copies the headers into a buffer of 2n + 1 bytes, giving every line one ending. */
  method Canonicalize(h: seq<byte>) returns (buf: array<byte>, len: nat)
    requires |Canonical(h)| <= 2 * |h|
    ensures fresh(buf) && len < buf.Length == 2 * |h| + 1
    ensures buf[..len] == Canonical(h) && buf[len] == 0
  {
    buf := new byte[2 * |h| + 1];
    var cur := 0;
    len := 0;
    var after := false;
    assert h[0..] == h;
    assert Canon([], after) == [];
    hide Canon;
    while cur < |h|
      invariant cur <= |h| && len <= buf.Length
      invariant Canon(h, false) == buf[..len] + Canon(h[cur..], after)
      invariant after && cur < |h| ==> !Break(h[cur])
    {
      if Break(h[cur]) {
        cur := SkipBreaks(h, cur);
        Associate(buf[..len], [CR, LF], Canon(h[cur..], true));
        len := PutBreak(buf, len);
        after := true;
      } else {
        CopyOne(h, cur, after);
        Associate(buf[..len], [h[cur]], Canon(h[cur + 1..], false));
        len := PutByte(buf, len, h[cur]);
        cur := cur + 1;
        after := false;
      }
    }
    CanonNothing(h[cur..], after);
    assert Canon(h, false) == buf[..len];
    len := PutBreak(buf, len);
    buf[len] := 0;
  }

  lemma CanonNothing(h: seq<byte>, after: bool)
    requires h == []
    ensures Canon(h, after) == []
  {
  }

  // ----- a response -----

  /** Canonical headers, their size up to the first zero byte, and the content. */
  datatype Response = Response(headers: seq<byte>, size: nat, content: seq<byte>)

  function StringLength(s: seq<byte>): (n: nat)
    ensures n <= |s| && (n < |s| ==> s[n] == 0) && forall k :: 0 <= k < n ==> s[k] != 0
  {
    if s == [] || s[0] == 0 then 0 else 1 + StringLength(s[1..])
  }

  lemma CutFits(d: seq<byte>, e: nat)
    requires BlankEndsAt(d, e)
    ensures e <= |d| && |Canonical(d[..e])| <= 2 * e && EndsInBreak(d[..e], false)
  {
    CanonicalFits(d[..e]);
  }

  /** Cuts at the end of the first empty line, if there is one: the headers up to there with one line ending, and all
      the bytes after it. */
  method GetHeaderContent(d: seq<byte>) returns (r: Option<Response>)
    ensures r.None? <==> forall e :: 0 <= e <= |d| ==> !BlankEndsAt(d, e)
    ensures r.Some? ==> exists e :: 0 <= e <= |d| && BlankEndsAt(d, e) &&
                          (forall k :: 0 <= k < e ==> !BlankEndsAt(d, k)) &&
                          r.value == Response(Canonical(d[..e]), StringLength(Canonical(d[..e])), d[e..])
  {
    hide Canonical;
    var cr := CrSplit(d);
    var lf := LfSplit(d);
    if cr.None? && lf.None? {
      return None;
    }
    var e := if cr.None? then lf.value else if lf.None? then cr.value else if lf.value > cr.value then cr.value else lf.value;
    assert BlankEndsAt(d, e);
    CutFits(d, e);
    var buf, len := Canonicalize(d[..e]);
    r := Some(Response(buf[..len], StringLength(buf[..len]), d[e..]));
  }
}
