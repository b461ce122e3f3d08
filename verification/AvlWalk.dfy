/** Ordered iteration and deletion on trees with parent links, balanced or not. */
module AvlWalk {
  import Spec = AvlSpec
  import opened AvlTree

  /** The nodes from left to right. */
  function Line(s: Shape): seq<Node> {
    if s.Nil? then [] else Line(s.left) + [s.node] + Line(s.right)
  }

  /** The leftmost node. */
  function First(s: Shape): (n: Node)
    requires s.Bin?
    ensures n in Nodes(s)
  {
    if s.left.Nil? then s.node else First(s.left)
  }

  /** The node that follows `x`, where `after` follows the whole tree. */
  function Succ(s: Shape, x: Node, after: Node?): Node?
    requires x in Nodes(s)
  {
    if x == s.node then if s.right.Bin? then First(s.right) else after
    else if x in Nodes(s.left) then Succ(s.left, x, s.node)
    else Succ(s.right, x, after)
  }

  /** The node that follows everything below `y`. */
  function After(s: Shape, y: Node, after: Node?): Node?
    requires y in Nodes(s)
  {
    if y == s.node then after
    else if y in Nodes(s.left) then After(s.left, y, s.node)
    else After(s.right, y, after)
  }

  function Sub(s: Shape, x: Node): (r: Shape)
    requires x in Nodes(s)
    ensures r.Bin? && r.node == x && Nodes(r) <= Nodes(s)
  {
    if x == s.node then s else if x in Nodes(s.left) then Sub(s.left, x) else Sub(s.right, x)
  }

  function Depth(s: Shape, x: Node): nat
    requires x in Nodes(s)
  {
    if x == s.node then 0 else 1 + if x in Nodes(s.left) then Depth(s.left, x) else Depth(s.right, x)
  }

  function Pos(s: Shape, x: Node): nat
    requires x in Nodes(s)
  {
    if x == s.node then |Line(s.left)|
    else if x in Nodes(s.left) then Pos(s.left, x)
    else |Line(s.left)| + 1 + Pos(s.right, x)
  }

  lemma {:induction false} LineFirst(s: Shape)
    requires s.Bin?
    ensures |Line(s)| > 0 && Line(s)[0] == First(s)
  {
    if s.left.Bin? { LineFirst(s.left); }
  }

  lemma {:induction false} LineNodes(s: Shape)
    ensures forall x :: x in Line(s) <==> x in Nodes(s)
  {
    if s.Bin? {
      LineNodes(s.left);
      LineNodes(s.right);
    }
  }

  /** Succ is the next entry of the line. */
  lemma {:induction false} SuccIsNext(s: Shape, x: Node, after: Node?)
    requires x in Nodes(s)
    ensures Pos(s, x) < |Line(s)| && Line(s)[Pos(s, x)] == x
    ensures Succ(s, x, after) == if Pos(s, x) + 1 < |Line(s)| then Line(s)[Pos(s, x) + 1] else after
  {
    if x == s.node {
      if s.right.Bin? { LineFirst(s.right); }
    } else if x in Nodes(s.left) {
      SuccIsNext(s.left, x, s.node);
    } else {
      SuccIsNext(s.right, x, after);
    }
  }

  lemma {:induction false} SuccCases(s: Shape, x: Node, after: Node?)
    requires x in Nodes(s)
    ensures Succ(s, x, after) == if Sub(s, x).right.Bin? then First(Sub(s, x).right) else After(s, x, after)
  {
    if x != s.node {
      if x in Nodes(s.left) { SuccCases(s.left, x, s.node); } else { SuccCases(s.right, x, after); }
    }
  }

  lemma {:induction false} SubLinked(h: Heap, s: Shape, up: Node?, x: Node)
    requires x in Nodes(s) && Nodes(s) <= h.Keys && Distinct(s) && Linked(h, s, up)
    ensures Distinct(Sub(s, x)) && Linked(h, Sub(s, x), h[x].parent)
  {
    if x != s.node {
      if x in Nodes(s.left) { SubLinked(h, s.left, s.node, x); } else { SubLinked(h, s.right, s.node, x); }
    }
  }

  /** One step up the parent links. */
  lemma {:induction false} ParentStep(h: Heap, s: Shape, up: Node?, y: Node, after: Node?)
    requires y in Nodes(s) && Nodes(s) <= h.Keys && Distinct(s) && Linked(h, s, up)
    ensures y == s.node ==> h[y].parent == up
    ensures y != s.node ==>
      var p := h[y].parent;
      && p != null && p in Nodes(s) && Depth(s, p) < Depth(s, y)
      && (h[p].right == y ==> After(s, y, after) == After(s, p, after))
      && (h[p].right != y ==> After(s, y, after) == p)
  {
    if y != s.node {
      var left := y in Nodes(s.left);
      var c := if left then s.left else s.right;
      ParentStep(h, c, s.node, y, if left then s.node else after);
      if y != c.node {
        assert h[y].parent in Nodes(c);
      }
    }
  }

  method TreeFirst(n: Node?, ghost ns: set<Node>, ghost s: Shape, ghost up: Node?) returns (r: Node?)
    requires n == Root(s) && Nodes(s) <= ns && Distinct(s) && Linked(Snap(ns), s, up)
    ensures r == if s.Nil? then null else First(s)
  {
    r := n;
    if r == null {
      return;
    }
    ghost var c, above := s, up;
    while r.left != null
      invariant c.Bin? && r == c.node && Nodes(c) <= ns && Linked(Snap(ns), c, above) && First(c) == First(s)
      decreases c
    {
      above := r;
      r := r.left;
      c := c.left;
    }
  }

  /** The next node in order, found through the parent links; after the last, what the root's parent link names. */
  method TreeNext(x: Node, ghost ns: set<Node>, ghost s: Shape, ghost up: Node?) returns (r: Node?)
    requires x in Nodes(s) && Nodes(s) <= ns && Distinct(s) && Linked(Snap(ns), s, up)
    requires up != null && up.right == Root(s) ==> x.right != null
    ensures r == Succ(s, x, up)
  {
    ghost var h := Snap(ns);
    SuccCases(s, x, up);
    SubLinked(h, s, up, x);
    if x.right != null {
      r := TreeFirst(x.right, ns, Sub(s, x).right, x);
      return;
    }
    hide Linked, Distinct, Nodes;
    var y := x;
    r := y.parent;
    ParentStep(h, s, up, y, up);
    while r != null && y == r.right
      invariant y in Nodes(s) && r == y.parent && After(s, y, up) == After(s, x, up)
      decreases Depth(s, y)
    {
      ParentStep(h, s, up, y, up);
      y := r;
      r := r.parent;
    }
    ParentStep(h, s, up, y, up);
  }

  /** The keys stored along a line of nodes. */
  ghost function Data(h: Heap, line: seq<Node>): (keys: seq<int>)
    requires forall n :: n in line ==> n in h
    ensures |keys| == |line|
  {
    seq(|line|, i requires 0 <= i < |line| => assert line[i] in line; h[line[i]].data)
  }

  lemma DataConcat(h: Heap, l: seq<Node>, x: Node, r: seq<Node>)
    requires x in h && (forall n :: n in l ==> n in h) && (forall n :: n in r ==> n in h)
    ensures forall n :: n in l + [x] + r ==> n in h
    ensures Data(h, l + [x] + r) == Data(h, l) + [h[x].data] + Data(h, r)
  {
  }

  lemma {:induction false} LineData(h: Heap, s: Shape)
    requires Nodes(s) <= h.Keys
    ensures forall n :: n in Line(s) ==> n in h
    ensures Data(h, Line(s)) == Spec.InOrder(Abs(h, s))
  {
    hide Data;
    if s.Bin? {
      LineData(h, s.left);
      LineData(h, s.right);
      DataConcat(h, Line(s.left), s.node, Line(s.right));
    } else {
      assert Line(s) == [];
    }
  }

  /** Tree_First, then Tree_Next until null: every key once, in order. */
  method Walk(n: Node?, ghost ns: set<Node>, ghost s: Shape) returns (keys: seq<int>)
    requires n == Root(s) && Nodes(s) <= ns && Distinct(s) && Linked(Snap(ns), s, null)
    ensures keys == Spec.InOrder(Abs(Snap(ns), s))
  {
    ghost var h := Snap(ns);
    LineData(h, s);
    keys := [];
    var x := TreeFirst(n, ns, s, null);
    if s.Bin? { LineFirst(s); }
    hide Linked, Distinct, Nodes, Line, First, Abs, Pos;
    ghost var i := 0;
    while x != null
      invariant i <= |Line(s)|
      invariant x == if i < |Line(s)| then Line(s)[i] else null
      invariant keys == Data(h, Line(s))[..i]
      decreases |Line(s)| - i
    {
      keys := keys + [x.data];
      LinePos(s, i);
      SuccIsNext(s, x, null);
      x := TreeNext(x, ns, s, null);
      i := i + 1;
    }
  }

  lemma {:induction false} LinePos(s: Shape, i: nat)
    requires i < |Line(s)| && Distinct(s)
    ensures Line(s)[i] in Nodes(s) && Pos(s, Line(s)[i]) == i
  {
    LineNodes(s.left);
    LineNodes(s.right);
    var l := |Line(s.left)|;
    if i < l {
      LinePos(s.left, i);
      assert Line(s)[i] == Line(s.left)[i];
    } else if i > l {
      LinePos(s.right, i - l - 1);
      assert Line(s)[i] == Line(s.right)[i - l - 1];
    }
  }

  /** The shape with `y` taken out and its one subtree, if any, moved up. */
  function Cut(s: Shape, y: Node): Shape
    requires y in Nodes(s)
  {
    if y == s.node then if s.left.Bin? then s.left else s.right
    else if y in Nodes(s.left) then Bin(Cut(s.left, y), s.node, s.right)
    else Bin(s.left, s.node, Cut(s.right, y))
  }

  predicate OneChild(s: Shape, y: Node)
    requires y in Nodes(s)
  {
    Sub(s, y).left.Nil? || Sub(s, y).right.Nil?
  }

  lemma {:induction false} CutNodes(s: Shape, y: Node)
    requires y in Nodes(s) && Distinct(s) && OneChild(s, y)
    ensures Nodes(Cut(s, y)) == Nodes(s) - {y} && Distinct(Cut(s, y))
  {
    if y != s.node {
      if y in Nodes(s.left) { CutNodes(s.left, y); } else { CutNodes(s.right, y); }
    }
  }

  /** `s` without its `i`-th entry. */
  function Without<T>(s: seq<T>, i: nat): seq<T>
    requires i < |s|
  {
    s[..i] + s[i + 1..]
  }

  lemma WithoutParts<T>(l: seq<T>, x: T, r: seq<T>, i: nat)
    ensures Without(l + [x] + r, |l|) == l + r
    ensures i < |l| ==> Without(l + [x] + r, i) == Without(l, i) + [x] + r
    ensures i < |r| ==> Without(l + [x] + r, |l| + 1 + i) == l + [x] + Without(r, i)
  {
  }

  lemma {:induction false} CutLine(s: Shape, y: Node)
    requires y in Nodes(s) && Distinct(s) && OneChild(s, y)
    ensures Pos(s, y) < |Line(s)| && Line(Cut(s, y)) == Without(Line(s), Pos(s, y))
  {
    hide Without;
    var l, r := Line(s.left), Line(s.right);
    if y == s.node {
      WithoutParts(l, y, r, 0);
      assert [] + r == r && l + [] == l;
    } else if y in Nodes(s.left) {
      CutLine(s.left, y);
      WithoutParts(l, s.node, r, Pos(s.left, y));
    } else {
      CutLine(s.right, y);
      WithoutParts(l, s.node, r, Pos(s.right, y));
    }
  }

  /** The heap after the links around `y` have been redirected to its only child `x`. */
  ghost predicate Spliced(h: Heap, h': Heap, y: Node, x: Node?, p: Node?)
    requires y in h
  {
    && h'.Keys == h.Keys
    && (forall n :: n in h && n != x && n != p ==> h'[n] == h[n])
    && (x != null && x in h && x != p ==> h'[x] == h[x].(parent := p))
    && (p != null && p in h && x != p ==> h'[p] == if h[p].left == y then h[p].(left := x) else h[p].(right := x))
  }

  /** A subtree that touches neither the parent nor the child is as it was. */
  lemma SplicedKeeps(h: Heap, h': Heap, s: Shape, up: Node?, y: Node, x: Node?, p: Node?)
    requires y in h && Spliced(h, h', y, x, p) && Nodes(s) <= h.Keys && Linked(h, s, up)
    requires x !in Nodes(s) && p !in Nodes(s)
    ensures Linked(h', s, up)
  {
    Frame(h, h', s, up);
  }

  lemma CutRoot(h: Heap, h': Heap, s: Shape, up: Node?, x: Node?)
    requires s.Bin? && Nodes(s) <= h.Keys && Distinct(s) && Linked(h, s, up) && up !in Nodes(s)
    requires s.left.Nil? || s.right.Nil?
    requires x == Root(Cut(s, s.node)) && Spliced(h, h', s.node, x, up)
    ensures Nodes(Cut(s, s.node)) <= h.Keys && Linked(h', Cut(s, s.node), up)
  {
    var c := Cut(s, s.node);
    var ch := set n | n in h && (n == x || n == up);
    assert Linked(h, c, s.node);
    Reparented(h, h', ch, c, s.node, up);
  }

  /** Where the parent and the child of a spliced node lie. */
  lemma SpliceInside(h: Heap, s: Shape, up: Node?, y: Node)
    requires y in Nodes(s) && Nodes(s) <= h.Keys && Distinct(s) && Linked(h, s, up) && OneChild(s, y)
    ensures var x := Root(Cut(Sub(s, y), y)); x != null ==> x in Nodes(s) && x != s.node
    ensures y == s.node ==> h[y].parent == up
    ensures y != s.node ==> h[y].parent != null && h[y].parent in Nodes(s)
  {
    ParentStep(h, s, up, y, null);
    SubLinked(h, s, up, y);
    var t := Sub(s, y);
    var x := Root(Cut(t, y));
    if x != null {
      assert x in Nodes(t) && x != y;
      SubProper(s, y, x);
    }
  }

  lemma {:induction false} SubProper(s: Shape, y: Node, x: Node)
    requires y in Nodes(s) && Distinct(s) && x in Nodes(Sub(s, y)) && x != y
    ensures x != s.node
  {
    if y != s.node {
      if y in Nodes(s.left) { assert Sub(s, y) == Sub(s.left, y); } else { assert Sub(s, y) == Sub(s.right, y); }
    }
  }

  lemma {:induction false} CutLinked(h: Heap, h': Heap, s: Shape, up: Node?, y: Node, x: Node?, p: Node?)
    requires y in Nodes(s) && Nodes(s) <= h.Keys && Distinct(s) && Linked(h, s, up) && OneChild(s, y)
    requires up !in Nodes(s)
    requires x == Root(Cut(Sub(s, y), y)) && p == h[y].parent && Spliced(h, h', y, x, p)
    ensures Nodes(Cut(s, y)) <= h.Keys && Linked(h', Cut(s, y), up)
    decreases s
  {
    if y == s.node {
      CutRoot(h, h', s, up, x);
    } else if y in Nodes(s.left) {
      CutLeft(h, h', s, up, y, x, p);
    } else {
      CutRight(h, h', s, up, y, x, p);
    }
  }

  lemma {:induction false} CutLeft(h: Heap, h': Heap, s: Shape, up: Node?, y: Node, x: Node?, p: Node?)
    requires y in Nodes(s) && Nodes(s) <= h.Keys && Distinct(s) && Linked(h, s, up) && OneChild(s, y)
    requires up !in Nodes(s) && y != s.node && y in Nodes(s.left)
    requires x == Root(Cut(Sub(s, y), y)) && p == h[y].parent && Spliced(h, h', y, x, p)
    ensures Nodes(Cut(s, y)) <= h.Keys && Linked(h', Cut(s, y), up)
    decreases s, 0
  {
    OneLevel(h, s, up);
    CutNodes(s.left, y);
    CutLinked(h, h', s.left, s.node, y, x, p);
    SpliceInside(h, s.left, s.node, y);
    RootOfCut(s.left, y);
    assert Cut(s, y) == Bin(Cut(s.left, y), s.node, s.right);
    hide Distinct, Nodes, Cut, Sub, Linked;
    SplicedKeeps(h, h', s.right, s.node, y, x, p);
    Joined(h', Cut(s.left, y), s.node, s.right, up);
  }

  lemma {:induction false} CutRight(h: Heap, h': Heap, s: Shape, up: Node?, y: Node, x: Node?, p: Node?)
    requires y in Nodes(s) && Nodes(s) <= h.Keys && Distinct(s) && Linked(h, s, up) && OneChild(s, y)
    requires up !in Nodes(s) && y != s.node && y !in Nodes(s.left)
    requires x == Root(Cut(Sub(s, y), y)) && p == h[y].parent && Spliced(h, h', y, x, p)
    ensures Nodes(Cut(s, y)) <= h.Keys && Linked(h', Cut(s, y), up)
    decreases s, 0
  {
    OneLevel(h, s, up);
    CutNodes(s.right, y);
    CutLinked(h, h', s.right, s.node, y, x, p);
    SpliceInside(h, s.right, s.node, y);
    RootOfCut(s.right, y);
    assert Cut(s, y) == Bin(s.left, s.node, Cut(s.right, y));
    hide Distinct, Nodes, Cut, Sub, Linked;
    SplicedKeeps(h, h', s.left, s.node, y, x, p);
    Joined(h', s.left, s.node, Cut(s.right, y), up);
  }

  lemma RootOfCut(s: Shape, y: Node)
    requires y in Nodes(s)
    ensures Root(Cut(s, y)) == if y == s.node then Root(Cut(Sub(s, y), y)) else s.node
  {
  }

  /** Tree_Search, and the descent of Tree_Delete. */
  method TreeSearch(n: Node?, k: int, ghost ns: set<Node>, ghost s: Shape, ghost up: Node?) returns (r: Node?)
    requires n == Root(s) && Nodes(s) <= ns && Distinct(s) && Linked(Snap(ns), s, up)
    requires Spec.Ordered(Abs(Snap(ns), s))
    ensures r == null <==> k !in Spec.InOrder(Abs(Snap(ns), s))
    ensures r != null ==> r in Nodes(s) && r.data == k
    ensures r != null ==> n != null && (n.data == k <==> r == n)
    decreases s
  {
    if n == null {
      return null;
    }
    ghost var h := Snap(ns);
    OneLevel(h, s, up);
    Spec.OrderedParts(Abs(h, s));
    hide Linked, Distinct, Nodes, Abs;
    if n.data > k {
      r := TreeSearch(n.left, k, ns, s.left, n);
    } else if n.data < k {
      r := TreeSearch(n.right, k, ns, s.right, n);
    } else {
      r := n;
    }
  }

  /** What the splice needs to know about `y`. */
  lemma SpliceFacts(h: Heap, s: Shape, up: Node?, y: Node)
    requires y in Nodes(s) && Nodes(s) <= h.Keys && Distinct(s) && Linked(h, s, up) && up !in Nodes(s) && OneChild(s, y)
    ensures var x := if h[y].left != null then h[y].left else h[y].right;
            && x == Root(Cut(Sub(s, y), y)) && (x != null ==> x in Nodes(s) && x != s.node)
            && (x != null ==> x != h[y].parent)
    ensures if y == s.node then h[y].parent == up else h[y].parent != null && h[y].parent in Nodes(s)
    ensures s.Bin? && Root(Cut(s, y)) == if y == s.node then Root(Cut(Sub(s, y), y)) else s.node
    ensures Nodes(Cut(s, y)) == Nodes(s) - {y} && Distinct(Cut(s, y))
  {
    SubLinked(h, s, up, y);
    OneLevel(h, Sub(s, y), h[y].parent);
    SpliceInside(h, s, up, y);
    CutNodes(s, y);
    RootOfCut(s, y);
    ParentStep(h, s, up, y, null);
    var x := if h[y].left != null then h[y].left else h[y].right;
    if x != null && h[y].parent != null && y != s.node { SubDeeper(s, y, x); }
  }

  lemma {:induction false} SubDeeper(s: Shape, y: Node, x: Node)
    requires y in Nodes(s) && Distinct(s) && x in Nodes(Sub(s, y))
    ensures Depth(s, x) >= Depth(s, y)
  {
    if y != s.node {
      if y in Nodes(s.left) { SubDeeper(s.left, y, x); } else { SubDeeper(s.right, y, x); }
    }
  }

  method Redirect(y: Node, x: Node?, p: Node?)
    requires x != p || x == null
    modifies if x == null then {} else {x}`parent, if p == null then {} else {p}`left, if p == null then {} else {p}`right
    ensures x != null ==> x.parent == p
    ensures p != null ==> if old(p.left) == y then p.left == x && p.right == old(p.right) else p.right == x && p.left == old(p.left)
  {
    if x != null {
      x.parent := p;
    }
    if p != null {
      if y == p.left {
        p.left := x;
      } else {
        p.right := x;
      }
    }
  }

  /** What redirecting a link to `y` does to a node that may not have had one. */
  twostate predicate Relinked(p: Node, y: Node, x: Node?)
    reads p
  {
    if old(p.left) == y then p.left == x && p.right == old(p.right) else p.right == x && p.left == old(p.left)
  }

  /** Redirects the links around `y`, which has at most one child, to that child.  A root that hangs below some node is
      not replaced: a link of that node is. */
  method SpliceOut(root: Node?, y: Node, ghost ns: set<Node>, ghost s: Shape, ghost up: Node?) returns (root': Node?)
    requires root == Root(s) && Nodes(s) <= ns && Distinct(s) && Linked(Snap(ns), s, up) && up !in ns
    requires y in Nodes(s) && OneChild(s, y)
    modifies Nodes(s), if up == null then {} else {up}`left, if up == null then {} else {up}`right
    ensures Nodes(Cut(s, y)) == Nodes(s) - {y} && Distinct(Cut(s, y))
    ensures root' == if up == null || y != root then Root(Cut(s, y)) else root
    ensures up != null ==> if y == root then Relinked(up, y, Root(Cut(s, y))) else unchanged(up)
    ensures Linked(Snap(ns), Cut(s, y), up)
    ensures forall n :: n in ns ==> n.data == old(n.data)
  {
    hide Linked, Distinct, Nodes, Cut, Sub, OneChild;
    ghost var h := Snap(ns);
    SpliceFacts(h, s, up, y);
    var x := if y.left != null then y.left else y.right;
    var p := y.parent;
    Redirect(y, x, p);
    root' := if p == null then x else root;
    CutLinked(h, Snap(ns), s, up, y, x, p);
  }

  lemma {:induction false} FirstHasNoLeft(s: Shape)
    requires s.Bin? && Distinct(s)
    ensures Sub(s, First(s)).left.Nil?
  {
    if s.left.Bin? { FirstHasNoLeft(s.left); }
  }

  lemma {:induction false} SubOfSub(s: Shape, z: Node, w: Node)
    requires z in Nodes(s) && Distinct(s) && w in Nodes(Sub(s, z))
    ensures w in Nodes(s) && Sub(s, w) == Sub(Sub(s, z), w)
  {
    if z != s.node {
      if z in Nodes(s.left) { SubOfSub(s.left, z, w); } else { SubOfSub(s.right, z, w); }
    }
  }

  /** A node with two children is followed by one without a left child. */
  lemma SuccessorSpliceable(h: Heap, s: Shape, up: Node?, z: Node)
    requires z in Nodes(s) && Nodes(s) <= h.Keys && Distinct(s) && Linked(h, s, up)
    ensures h[z].left == null || h[z].right == null ==> OneChild(s, z)
    ensures h[z].right != null ==>
      var y := Succ(s, z, up);
      && y != null && y in Nodes(s) && y != z && y != s.node && OneChild(s, y)
      && Pos(s, z) + 1 < |Line(s)| && Pos(s, y) == Pos(s, z) + 1
  {
    SubLinked(h, s, up, z);
    var t := Sub(s, z);
    OneLevel(h, t, h[z].parent);
    if h[z].right != null {
      SuccCases(s, z, up);
      SuccCases(s, z, null);
      SubProper(s, z, First(t.right));
      var y := First(t.right);
      FirstHasNoLeft(t.right);
      SubOfSub(s, z, y);
      SuccIsNext(s, z, null);
      SuccFound(s, z, y);
    }
  }

  lemma SuccFound(s: Shape, z: Node, y: Node)
    requires z in Nodes(s) && Distinct(s) && Succ(s, z, null) == y
    ensures Pos(s, z) + 1 < |Line(s)| && y in Nodes(s) && Pos(s, y) == Pos(s, z) + 1
  {
    SuccIsNext(s, z, null);
    LinePos(s, Pos(s, z) + 1);
  }

  /** Removing a node's line entry removes its key; when the entry removed is the next one and its key
      has been copied down, the key removed is the node's own. */
  lemma DataWithout(h: Heap, h': Heap, line: seq<Node>, i: nat, j: nat)
    requires h'.Keys == h.Keys && forall n :: n in line ==> n in h
    requires i < |line| && (j == i || (j == i + 1 < |line| && h'[line[i]].data == h[line[j]].data))
    requires forall a, b :: 0 <= a < b < |line| ==> line[a] != line[b]
    requires forall n :: n in line && (j == i || n != line[i]) ==> h'[n].data == h[n].data
    ensures forall n :: n in Without(line, j) ==> n in h'
    ensures Data(h', Without(line, j)) == Without(Data(h, line), i)
  {
    var l' := Without(line, j);
    forall a | 0 <= a < |l'|
      ensures l'[a] in h' && h'[l'[a]].data == Without(Data(h, line), i)[a]
    {
      assert l'[a] == line[if a < j then a else a + 1];
      assert Without(Data(h, line), i)[a] == Data(h, line)[if a < i then a else a + 1];
    }
  }

  lemma {:induction false} LineDistinct(s: Shape)
    requires Distinct(s)
    ensures forall a, b :: 0 <= a < b < |Line(s)| ==> Line(s)[a] != Line(s)[b]
  {
    forall a, b | 0 <= a < b < |Line(s)|
      ensures Line(s)[a] != Line(s)[b]
    {
      LinePos(s, a);
      LinePos(s, b);
    }
  }

  lemma {:induction false} LinksOnly(h: Heap, h': Heap, s: Shape, up: Node?)
    requires Nodes(s) <= h.Keys && h'.Keys == h.Keys && Linked(h, s, up)
    requires forall n :: n in h ==> h'[n] == h[n].(data := h'[n].data)
    ensures Linked(h', s, up)
  {
    if s.Bin? {
      LinksOnly(h, h', s.left, s.node);
      LinksOnly(h, h', s.right, s.node);
    }
  }

  lemma SortedWithout(s: seq<int>, i: nat)
    requires Spec.Sorted(s) && i < |s|
    ensures Spec.Sorted(Without(s, i))
  {
  }

  /** Cutting `y` out, after its key has been copied to `z` if they differ, removes the key of `z`. */
  lemma DeletesKey(h: Heap, h': Heap, s: Shape, z: Node, y: Node)
    requires Nodes(s) <= h.Keys == h'.Keys && Distinct(s) && z in Nodes(s) && y in Nodes(s) && OneChild(s, y)
    requires Spec.Ordered(Abs(h, s))
    requires forall n :: n in h && n != z ==> h'[n].data == h[n].data
    requires h'[z].data == h[y].data
    requires y == z || (Pos(s, z) + 1 < |Line(s)| && Pos(s, y) == Pos(s, z) + 1)
    ensures Nodes(Cut(s, y)) <= h'.Keys
    ensures Spec.Ordered(Abs(h', Cut(s, y)))
    ensures Removed(Spec.InOrder(Abs(h, s)), h[z].data, Spec.InOrder(Abs(h', Cut(s, y))))
  {
    CutNodes(s, y);
    hide Distinct, Nodes, Cut, Sub, OneChild, Abs, Pos, Line, Spec.InOrder, Data;
    var line, i, j := Line(s), Pos(s, z), Pos(s, y);
    LineData(h, s);
    LineData(h', Cut(s, y));
    CutLine(s, y);
    LineDistinct(s);
    SuccIsNext(s, z, null);
    SuccIsNext(s, y, null);
    DataWithout(h, h', line, i, j);
    DataAt(h, line, i);
    SortedWithout(Data(h, line), i);
  }

  lemma DataAt(h: Heap, line: seq<Node>, i: nat)
    requires i < |line| && forall n :: n in line ==> n in h
    ensures Data(h, line)[i] == h[line[i]].data
  {
  }

  /** Tree_Delete: a plain binary-tree deletion.  The key leaves the line, everything else keeps its order, and the parent
      links stay right; balance factors are left as they are.  The caller's root is that of the new tree if and only if
      nothing hangs above the root or the root is not the node spliced out; otherwise it is still the node freed, and a
      link of the node above has been overwritten. */
  method TreeDelete(root: Node?, k: int, ghost ns: set<Node>, ghost s: Shape, ghost up: Node?)
    returns (rc: int, root': Node?, ghost s': Shape)
    requires root == Root(s) && Nodes(s) <= ns && Distinct(s) && Linked(Snap(ns), s, up) && up !in ns
    requires Spec.Ordered(Abs(Snap(ns), s))
    modifies Nodes(s), if up == null then {} else {up}`left, if up == null then {} else {up}`right
    ensures rc == -1 <==> k !in Spec.InOrder(old(Abs(Snap(ns), s)))
    ensures rc == -1 ==> root' == root && s' == s && Snap(ns) == old(Snap(ns)) && (up != null ==> unchanged(up))
    ensures rc != -1 ==>
      && rc == 0 && Nodes(s') < Nodes(s) && Distinct(s') && Linked(Snap(ns), s', up)
      && Spec.Ordered(Abs(Snap(ns), s'))
      && Removed(Spec.InOrder(old(Abs(Snap(ns), s))), k, Spec.InOrder(Abs(Snap(ns), s')))
    ensures rc != -1 ==> root != null
    ensures rc != -1 ==> (root' == Root(s') <==> up == null || !old(SplicesRoot(root, k)))
    ensures rc != -1 && up != null && old(SplicesRoot(root, k)) ==>
      root' == root && root !in Nodes(s') && Relinked(up, root, Root(s'))
    ensures rc != -1 && up != null && !old(SplicesRoot(root, k)) ==> unchanged(up)
  {
    hide Linked, Distinct, Nodes, Cut, Sub, OneChild, Abs, Pos, Line, Succ, Spec.InOrder, Spec.Ordered;
    ghost var h := Snap(ns);
    var z := TreeSearch(root, k, ns, s, up);
    if z == null {
      return -1, root, s;
    }
    var y;
    root', y := Unlink(root, z, ns, s, up);
    s' := Cut(s, y);
    rc := 0;
    DeletesKey(h, Snap(ns), s, z, y);
  }

  /** Takes a node out, or its successor after the node has got the successor's key. */
  method Unlink(root: Node, z: Node, ghost ns: set<Node>, ghost s: Shape, ghost up: Node?) returns (root': Node?, y: Node)
    requires root == Root(s) && Nodes(s) <= ns && Distinct(s) && Linked(Snap(ns), s, up) && up !in ns && z in Nodes(s)
    modifies Nodes(s), if up == null then {} else {up}`left, if up == null then {} else {up}`right
    ensures y in Nodes(s) && OneChild(s, y) && z.data == old(y.data)
    ensures y == z || (Pos(s, z) + 1 < |Line(s)| && Pos(s, y) == Pos(s, z) + 1)
    ensures y == root <==> z == root && (old(root.left) == null || old(root.right) == null)
    ensures forall n :: n in ns && n != z ==> n.data == old(n.data)
    ensures Nodes(Cut(s, y)) == Nodes(s) - {y} && Distinct(Cut(s, y)) && Linked(Snap(ns), Cut(s, y), up)
    ensures root' == if up == null || y != root then Root(Cut(s, y)) else root
    ensures up != null ==> if y == root then Relinked(up, y, Root(Cut(s, y))) else unchanged(up)
  {
    hide Linked, Distinct, Nodes, Cut, Sub, OneChild, Pos, Line, Succ;
    SuccessorSpliceable(Snap(ns), s, up, z);
    y := z;
    if z.left != null && z.right != null {
      var next := TreeNext(z, ns, s, up);
      y := next;
    }
    root' := SpliceOut(root, y, ns, s, up);
    ghost var h1 := Snap(ns);
    if y != z {
      z.data := y.data;
    }
    LinksOnly(h1, Snap(ns), Cut(s, y), up);
  }

  /** The node to be spliced out for a key is the root itself. */
  ghost predicate SplicesRoot(root: Node, k: int)
    reads root
  {
    root.data == k && (root.left == null || root.right == null)
  }

  /** `t` is `s` with its one occurrence of `k` taken out. */
  ghost predicate Removed(s: seq<int>, k: int, t: seq<int>) {
    exists i :: 0 <= i < |s| && s[i] == k && t == Without(s, i)
  }

  lemma SecondOfTwo(h: Heap, s: Shape, up: Node?, p: Node?)
    requires Nodes(s) <= h.Keys && Linked(h, s, up) && Distinct(s)
    requires Abs(h, s) == Spec.Node(Spec.Leaf, 1, 1, Spec.Node(Spec.Leaf, 2, 0, Spec.Leaf))
    ensures s.Bin? && Stale(p, h, s, 2) == s.node && h[s.node].right in Nodes(s)
  {
    assert s.right.Bin? && h[s.right.node].data == 2 && h[s.node].data == 1;
    assert Holder(h, s.right, 2) == s.right.node;
    assert Holder(h, s, 2) == s.right.node;
    assert Linked(h, s.right, s.node);
  }

  lemma AddsToEmpty(k: int)
    ensures Spec.Add(Spec.Leaf, k) == Spec.Added(Spec.Node(Spec.Leaf, k, 0, Spec.Leaf), true)
    ensures Spec.InOrder(Spec.Leaf) == [] && Spec.InOrder(Spec.Node(Spec.Leaf, k, 0, Spec.Leaf)) == [k]
  {
  }

  lemma EvenGrowsRight(t: Spec.Tree, o: Spec.Outcome)
    requires t.Node? && Spec.Balanced(t) && t.bal == 0 && o.Added? && o.grew && Spec.Fixed(t.right, o)
    ensures Spec.AddRight(t, o) == Spec.Added(t.(right := o.tree, bal := 1), true)
  {
    hide Spec.Balanced, Spec.Height, Spec.Fixed;
  }

  lemma EvenSingle(k: int)
    ensures Spec.Balanced(Spec.Node(Spec.Leaf, k, 0, Spec.Leaf))
  {
  }

  lemma AddsAbove(t: Spec.Tree, k: int)
    requires t.Node? && Spec.Balanced(t) && t.bal == 0 && t.right.Leaf? && t.key < k
    ensures Spec.Add(t, k) == Spec.Added(t.(right := Spec.Node(Spec.Leaf, k, 0, Spec.Leaf), bal := 1), true)
  {
    AddsToEmpty(k);
    assert Spec.Add(t, k) == Spec.AddRight(t, Spec.Add(t.right, k));
    hide Spec.Balanced, Spec.Height, Spec.Add, Spec.AddRight, Spec.InOrder;
    EvenGrowsRight(t, Spec.Add(t.right, k));
  }

  lemma KeysOfTwo()
    ensures Spec.InOrder(Spec.Node(Spec.Leaf, 1, 1, Spec.Node(Spec.Leaf, 2, 0, Spec.Leaf))) == [1, 2]
  {
    AddsToEmpty(2);
    assert Spec.InOrder(Spec.Node(Spec.Leaf, 2, 0, Spec.Leaf)) == [2];
  }

  lemma AloneInTree(h: Heap, s: Shape, k: int, after: Node?)
    requires Nodes(s) <= h.Keys && Abs(h, s) == Spec.Node(Spec.Leaf, k, 0, Spec.Leaf)
    ensures s.Bin? && s.node in Nodes(s) && Succ(s, s.node, after) == after
  {
    assert s.right.Nil?;
  }

  /** Adds 1 and 2 to a new tree. */
  method TwoAdded(lib: Library) returns (a: Tree, r1: int, r2: int)
    requires lib.parent == null
    modifies lib
    ensures a.Valid() && fresh(a) && fresh(Nodes(a.shape)) && a.up == null && r1 == r2 == 0 && lib.parent == null
    ensures a.Model() == Spec.Node(Spec.Leaf, 1, 1, Spec.Node(Spec.Leaf, 2, 0, Spec.Leaf))
  {
    hide Spec.Add, Spec.InOrder, Spec.Inserted, Linked, Distinct, Abs, Nodes, Stale, Holder, Spec.IsAvl, Spec.Balanced;
    AddsToEmpty(1);
    EvenSingle(1);
    AddsAbove(Spec.Node(Spec.Leaf, 1, 0, Spec.Leaf), 2);
    a := new Tree();
    r1 := a.Add(lib, 1);
    ghost var ns := Nodes(a.shape);
    assert ns == ns - {};
    r2 := a.Add(lib, 2);
    assert Nodes(a.shape) <= ns + (Nodes(a.shape) - ns);
  }

  /** Adds 1, 2 and 2 to a new tree: the last is refused and leaves the root in the static parent. */
  method RefusedKey(lib: Library) returns (a: Tree, r1: int, r2: int, r3: int)
    requires lib.parent == null
    modifies lib
    ensures a.Valid() && fresh(a) && fresh(Nodes(a.shape)) && a.up == null && a.root != null
    ensures r1 == r2 == 0 && r3 == -1 && Spec.InOrder(a.Model()) == [1, 2] && lib.parent == a.root
    ensures a.root.right != null
  {
    KeysOfTwo();
    hide Spec.Add, Spec.InOrder, Spec.Inserted, Linked, Distinct, Abs, Nodes, Stale, Holder, Spec.IsAvl;
    a, r1, r2 := TwoAdded(lib);
    SecondOfTwo(Snap(Nodes(a.shape)), a.shape, null, null);
    r3 := a.Add(lib, 2);
    SecondOfTwo(Snap(Nodes(a.shape)), a.shape, null, null);
  }

  /** A tree begun while the static parent names a node: its first node hangs below that one, and iteration over the
      tree goes on there. */
  method BegunStale(lib: Library, k: int) returns (b: Tree, rc: int, next: Node?)
    requires lib.parent != null
    modifies lib
    ensures b.Valid() && fresh(b) && fresh(Nodes(b.shape)) && rc == 0 && Spec.InOrder(b.Model()) == [k]
    ensures b.root != null && b.root.parent == b.up == old(lib.parent) && next == old(lib.parent)
  {
    AddsToEmpty(k);
    hide Spec.Add, Spec.InOrder, Spec.Inserted, Linked, Distinct, Abs, Nodes, Stale, Holder, Succ, Spec.IsAvl;
    b := new Tree();
    rc := b.Add(lib, k);
    ghost var ns := Nodes(b.shape);
    assert ns == ns - {};
    AloneInTree(Snap(ns), b.shape, k, b.up);
    next := TreeNext(b.root, ns, b.shape, b.up);
  }

  /** The stale static parent at work: a duplicate key refused by one tree, and the next tree begun hangs below a node
      of that one, into which its iteration then walks. */
  method TwoTrees() returns (a: Tree, b: Tree, r1: int, r2: int, r3: int, r4: int, next: Node?)
    ensures a.Valid() && b.Valid() && r1 == r2 == 0 && r3 == -1 && r4 == 0
    ensures Spec.InOrder(a.Model()) == [1, 2] && Spec.InOrder(b.Model()) == [5]
    ensures a.up == null && a.root != null && b.root != null && b.root.parent == a.root && next == a.root
    ensures b.up == a.root && Nodes(a.shape) !! Nodes(b.shape) && fresh(Nodes(a.shape)) && fresh(Nodes(b.shape))
    ensures a.root.right != null
  {
    hide Spec.InOrder, Spec.Balanced, Linked, Distinct, Abs, Spec.IsAvl, Nodes, Stale, Holder;
    var lib := new Library();
    a, r1, r2, r3 := RefusedKey(lib);
    ghost var ns := Nodes(a.shape);
    ghost var h := Snap(ns);
    b, r4, next := BegunStale(lib, 5);
    assert Nodes(a.shape) == ns && Snap(ns) == h;
  }

  lemma OneNode(h: Heap, s: Shape, up: Node?)
    requires s.Bin? && Nodes(s) <= h.Keys && Linked(h, s, up) && Spec.InOrder(Abs(h, s)) == [5]
    ensures s.left.Nil? && s.right.Nil? && Nodes(s) == {s.node} && h[s.node].data == 5
    ensures h[s.node].left == null && h[s.node].right == null
  {
    assert |Spec.InOrder(Abs(h, s))| == |Spec.InOrder(Abs(h, s.left))| + 1 + |Spec.InOrder(Abs(h, s.right))|;
    InOrderEmpty(h, s.left, s.node);
    InOrderEmpty(h, s.right, s.node);
    assert Spec.InOrder(Abs(h, s))[0] == h[s.node].data;
  }

  lemma ChildrenInside(h: Heap, s: Shape, up: Node?)
    requires s.Bin? && Nodes(s) <= h.Keys && Linked(h, s, up)
    ensures h[s.node].left == null || h[s.node].left in Nodes(s)
  {
  }

  lemma NoNodes(s: Shape, n: Node)
    requires Nodes(s) < {n}
    ensures s.Nil?
  {
  }

  lemma InOrderEmpty(h: Heap, s: Shape, up: Node?)
    requires Nodes(s) <= h.Keys && Linked(h, s, up)
    ensures Spec.InOrder(Abs(h, s)) == [] ==> s.Nil?
  {
  }

  /** And on: deleting 5 from the second tree leaves its root where it was, a node freed, and cuts the first tree's 2 off. */
  method DeletesForeign() returns (a: Tree, b: Tree, rc: int, root': Node?, ghost cut: Node?)
    ensures rc == 0 && a.root != null && b.root != null && root' == b.root && cut != null && a.root.right == null
  {
    hide Spec.Balanced, Linked, Distinct, Abs, Spec.IsAvl, Nodes;
    var r1, r2, r3, r4, next;
    a, b, r1, r2, r3, r4, next := TwoTrees();
    ghost var ns := Nodes(b.shape);
    OneNode(Snap(ns), b.shape, b.up);
    ChildrenInside(Snap(Nodes(a.shape)), a.shape, null);
    cut := a.root.right;
    ghost var s';
    rc, root', s' := TreeDelete(b.root, 5, ns, b.shape, b.up);
    NoNodes(s', b.root);
  }
}
