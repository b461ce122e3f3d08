/** The client library's AVL tree on the heap: nodes with parent links, rebalanced in place. */
module AvlTree {
  import Spec = AvlSpec

  class Node {
    var data: int
    var bal: int
    var left: Node?
    var right: Node?
    var parent: Node?

    constructor (data: int, parent: Node?)
      ensures this.data == data && bal == 0 && left == null && right == null && this.parent == parent
    {
      this.data := data;
      bal := 0;
      left := null;
      right := null;
      this.parent := parent;
    }
  }

  /** Which nodes form a tree, and how they hang together. */
  datatype Shape = Nil | Bin(left: Shape, node: Node, right: Shape)

  function Root(s: Shape): Node? {
    if s.Nil? then null else s.node
  }

  function Nodes(s: Shape): (ns: set<Node>)
    ensures Root(s) != null ==> Root(s) in ns
  {
    if s.Nil? then {} else Nodes(s.left) + {s.node} + Nodes(s.right)
  }

  /** No node occurs twice. */
  predicate Distinct(s: Shape) {
    s.Bin? ==>
      && Distinct(s.left) && Distinct(s.right)
      && s.node !in Nodes(s.left) && s.node !in Nodes(s.right) && Nodes(s.left) !! Nodes(s.right)
  }

  /** The fields of one node, and of many: a picture of part of the heap. */
  datatype Cell = Cell(data: int, bal: int, left: Node?, right: Node?, parent: Node?)

  type Heap = map<Node, Cell>

  ghost function Snap(ns: set<Node>): (h: Heap)
    reads ns
    ensures h.Keys == ns
  {
    map n | n in ns :: Cell(n.data, n.bal, n.left, n.right, n.parent)
  }

  /** Child and parent links agree with the shape, below parent `up`. */
  ghost predicate Linked(h: Heap, s: Shape, up: Node?)
    requires Nodes(s) <= h.Keys
  {
    s.Bin? ==>
      && h[s.node].left == Root(s.left) && h[s.node].right == Root(s.right) && h[s.node].parent == up
      && Linked(h, s.left, s.node) && Linked(h, s.right, s.node)
  }

  /** The keys and balance factors stored in the nodes. */
  ghost function Abs(h: Heap, s: Shape): (t: Spec.Tree)
    requires Nodes(s) <= h.Keys
    ensures t.Node? <==> s.Bin?
  {
    if s.Nil? then Spec.Leaf else Spec.Node(Abs(h, s.left), h[s.node].data, h[s.node].bal, Abs(h, s.right))
  }

  ghost predicate Agree(h: Heap, h': Heap, ns: set<Node>) {
    ns <= h.Keys && ns <= h'.Keys && forall n :: n in ns ==> h'[n] == h[n]
  }

  /** A tree depends on its own nodes only. */
  lemma {:induction false} Frame(h: Heap, h': Heap, s: Shape, up: Node?)
    requires Agree(h, h', Nodes(s))
    ensures Linked(h', s, up) == Linked(h, s, up) && Abs(h', s) == Abs(h, s)
  {
    if s.Bin? {
      Frame(h, h', s.left, s.node);
      Frame(h, h', s.right, s.node);
    }
  }

  /** Only nodes in `ch` have changed. */
  ghost predicate Touches(h: Heap, h': Heap, ch: set<Node>) {
    h'.Keys == h.Keys && forall n :: n in h && n !in ch ==> h'[n] == h[n]
  }

  lemma Kept(h: Heap, h': Heap, ch: set<Node>, s: Shape, up: Node?)
    requires Touches(h, h', ch) && Nodes(s) <= h.Keys && Nodes(s) !! ch && Linked(h, s, up)
    ensures Linked(h', s, up) && Abs(h', s) == Abs(h, s)
  {
    Frame(h, h', s, up);
  }

  function RootSet(s: Shape): set<Node> {
    if s.Nil? then {} else {s.node}
  }

  /** A subtree whose root has been given a new parent. */
  ghost predicate Rehung(h: Heap, h': Heap, s: Shape, p: Node?) {
    s.Bin? ==> s.node in h && s.node in h' && h'[s.node] == h[s.node].(parent := p)
  }

  lemma Reparented(h: Heap, h': Heap, ch: set<Node>, s: Shape, up: Node?, p: Node?)
    requires Touches(h, h', ch) && Nodes(s) <= h.Keys && Distinct(s) && Linked(h, s, up)
    requires Nodes(s) !! (ch - RootSet(s)) && Rehung(h, h', s, p)
    ensures Linked(h', s, p) && Abs(h', s) == Abs(h, s)
  {
    if s.Bin? {
      Kept(h, h', ch, s.left, s.node);
      Kept(h, h', ch, s.right, s.node);
    }
  }

  /** Five pairwise disjoint parts: subtrees `a`, `b`, `c` and nodes `p`, `q`. */
  predicate Parts(a: Shape, b: Shape, c: Shape, p: Node, q: Node) {
    && Distinct(a) && Distinct(b) && Distinct(c) && p != q
    && p !in Nodes(a) && p !in Nodes(b) && p !in Nodes(c)
    && q !in Nodes(a) && q !in Nodes(b) && q !in Nodes(c)
    && Nodes(a) !! Nodes(b) && Nodes(a) !! Nodes(c) && Nodes(b) !! Nodes(c)
  }

  /** The two ways of arranging the parts with `p` before `q`. */
  lemma Arranged(a: Shape, p: Node, b: Shape, q: Node, c: Shape)
    ensures Distinct(Bin(Bin(a, p, b), q, c)) <==> Parts(a, b, c, p, q)
    ensures Distinct(Bin(a, p, Bin(b, q, c))) <==> Parts(a, b, c, p, q)
    ensures Nodes(Bin(Bin(a, p, b), q, c)) == Nodes(Bin(a, p, Bin(b, q, c))) == Nodes(a) + Nodes(b) + Nodes(c) + {p, q}
  {
  }

  ghost predicate Fields(h: Heap, n: Node, left: Node?, right: Node?, parent: Node?)
    requires n in h
  {
    h[n].left == left && h[n].right == right && h[n].parent == parent
  }

  /** What being linked means for a tree seen as `p` under `q`. */
  lemma LeftForm(h: Heap, a: Shape, p: Node, b: Shape, q: Node, c: Shape, up: Node?)
    requires Nodes(a) + Nodes(b) + Nodes(c) + {p, q} <= h.Keys
    ensures Linked(h, Bin(Bin(a, p, b), q, c), up) <==>
      && Fields(h, q, p, Root(c), up) && Fields(h, p, Root(a), Root(b), q)
      && Linked(h, a, p) && Linked(h, b, p) && Linked(h, c, q)
    ensures Abs(h, Bin(Bin(a, p, b), q, c)) ==
      Spec.Node(Spec.Node(Abs(h, a), h[p].data, h[p].bal, Abs(h, b)), h[q].data, h[q].bal, Abs(h, c))
  {
  }

  /** The same for `q` under `p`. */
  lemma RightForm(h: Heap, a: Shape, p: Node, b: Shape, q: Node, c: Shape, up: Node?)
    requires Nodes(a) + Nodes(b) + Nodes(c) + {p, q} <= h.Keys
    ensures Linked(h, Bin(a, p, Bin(b, q, c)), up) <==>
      && Fields(h, p, Root(a), q, up) && Fields(h, q, Root(b), Root(c), p)
      && Linked(h, a, p) && Linked(h, b, q) && Linked(h, c, q)
    ensures Abs(h, Bin(a, p, Bin(b, q, c))) ==
      Spec.Node(Abs(h, a), h[p].data, h[p].bal, Spec.Node(Abs(h, b), h[q].data, h[q].bal, Abs(h, c)))
  {
  }

  /** Subtree `b` moved from under `from` to under `to`, while `p` and `q` are rewritten: the three
      subtrees are still linked and hold what they held. */
  lemma Moved(h: Heap, a: Shape, b: Shape, c: Shape, p: Node, q: Node, from: Node, to: Node, h': Heap)
    requires Parts(a, b, c, p, q) && Nodes(a) + Nodes(b) + Nodes(c) + {p, q} <= h.Keys
    requires Linked(h, a, p) && Linked(h, b, from) && Linked(h, c, q)
    requires Touches(h, h', {p, q} + RootSet(b)) && Rehung(h, h', b, to)
    ensures Linked(h', a, p) && Linked(h', b, to) && Linked(h', c, q)
    ensures Abs(h', a) == Abs(h, a) && Abs(h', b) == Abs(h, b) && Abs(h', c) == Abs(h, c)
  {
    hide Linked, Distinct, Nodes, Abs, Touches, Rehung;
    var ch := {p, q} + RootSet(b);
    Kept(h, h', ch, a, p);
    Reparented(h, h', ch, b, from, to);
    Kept(h, h', ch, c, q);
  }

  /** The pointer writes of the LL case, `p` the left child of `q`. */
  method RelinkLL(q: Node, p: Node, r: Node?)
    requires q != p && q.left == p && p.right == r && r !in {p, q}
    modifies q, p, if r == null then {} else {r}`parent
    ensures p.left == old(p.left) && p.right == q && p.parent == old(q.parent) && p.bal == 0 && p.data == old(p.data)
    ensures q.left == r && q.right == old(q.right) && q.parent == p && q.bal == 0 && q.data == old(q.data)
    ensures r != null ==> r.parent == q
  {
    p.parent := q.parent;
    p.right := q;
    q.parent := p;
    q.left := r;
    if r != null {
      r.parent := q;
    }
    p.bal := 0;
    q.bal := 0;
  }

  /** The pointer writes of the RR case, `p` the right child of `q`. */
  method RelinkRR(q: Node, p: Node, r: Node?)
    requires q != p && q.right == p && p.left == r && r !in {p, q}
    modifies q, p, if r == null then {} else {r}`parent
    ensures p.right == old(p.right) && p.left == q && p.parent == old(q.parent) && p.bal == 0 && p.data == old(p.data)
    ensures q.right == r && q.left == old(q.left) && q.parent == p && q.bal == 0 && q.data == old(q.data)
    ensures r != null ==> r.parent == q
  {
    p.parent := q.parent;
    q.parent := p;
    if r != null {
      r.parent := q;
    }
    p.left := q;
    q.right := r;
    p.bal := 0;
    q.bal := 0;
  }

  method RotateLL(q: Node, ghost ns: set<Node>, ghost s: Shape, ghost up: Node?) returns (p: Node, ghost s': Shape)
    requires s.Bin? && s.node == q && s.left.Bin? && Distinct(s) && Nodes(s) <= ns && Linked(Snap(ns), s, up)
    modifies Nodes(s)
    ensures p == Root(s') && Nodes(s') == Nodes(s) && Distinct(s') && Linked(Snap(ns), s', up)
    ensures var t := old(Abs(Snap(ns), s)); t.Node? && t.left.Node? && Abs(Snap(ns), s') == Spec.RotateLL(t)
  {
    hide Linked, Distinct, Nodes, Abs;
    ghost var h, a, b, c := Snap(ns), s.left.left, s.left.right, s.right;
    Arranged(a, s.left.node, b, q, c);
    LeftForm(h, a, s.left.node, b, q, c, up);
    p := q.left;
    RelinkLL(q, p, p.right);
    ghost var h' := Snap(ns);
    Moved(h, a, b, c, p, q, p, q, h');
    RightForm(h', a, p, b, q, c, up);
    s' := Bin(a, p, Bin(b, q, c));
  }

  method RotateRR(q: Node, ghost ns: set<Node>, ghost s: Shape, ghost up: Node?) returns (p: Node, ghost s': Shape)
    requires s.Bin? && s.node == q && s.right.Bin? && Distinct(s) && Nodes(s) <= ns && Linked(Snap(ns), s, up)
    modifies Nodes(s)
    ensures p == Root(s') && Nodes(s') == Nodes(s) && Distinct(s') && Linked(Snap(ns), s', up)
    ensures var t := old(Abs(Snap(ns), s)); t.Node? && t.right.Node? && Abs(Snap(ns), s') == Spec.RotateRR(t)
  {
    hide Linked, Distinct, Nodes, Abs;
    ghost var h, a, b, c := Snap(ns), s.left, s.right.left, s.right.right;
    Arranged(a, q, b, s.right.node, c);
    RightForm(h, a, q, b, s.right.node, c, up);
    p := q.right;
    RelinkRR(q, p, p.left);
    ghost var h' := Snap(ns);
    Moved(h, a, b, c, q, p, p, q, h');
    LeftForm(h', a, q, b, p, c, up);
    s' := Bin(Bin(a, q, b), p, c);
  }

  /** Four subtrees and three nodes, in order a x b y c z d, pairwise disjoint. */
  predicate Parts3(a: Shape, x: Node, b: Shape, y: Node, c: Shape, z: Node, d: Shape) {
    && Parts(a, b, c, x, y) && Parts(b, c, d, y, z) && Parts(a, b, d, x, z)
    && x !in Nodes(c) && z !in Nodes(c) && Nodes(a) !! Nodes(d)
  }

  function AllNodes(a: Shape, x: Node, b: Shape, y: Node, c: Shape, z: Node, d: Shape): set<Node> {
    Nodes(a) + Nodes(b) + Nodes(c) + Nodes(d) + {x, y, z}
  }

  /** The three arrangements double rotations deal with have the same nodes. */
  lemma Arranged3(a: Shape, x: Node, b: Shape, y: Node, c: Shape, z: Node, d: Shape)
    ensures Distinct(Bin(Bin(a, x, Bin(b, y, c)), z, d)) ==> Parts3(a, x, b, y, c, z, d)
    ensures Distinct(Bin(a, x, Bin(Bin(b, y, c), z, d))) ==> Parts3(a, x, b, y, c, z, d)
    ensures Parts3(a, x, b, y, c, z, d) ==> Distinct(Bin(Bin(a, x, b), y, Bin(c, z, d)))
    ensures Nodes(Bin(Bin(a, x, Bin(b, y, c)), z, d)) == AllNodes(a, x, b, y, c, z, d)
    ensures Nodes(Bin(a, x, Bin(Bin(b, y, c), z, d))) == AllNodes(a, x, b, y, c, z, d)
    ensures Nodes(Bin(Bin(a, x, b), y, Bin(c, z, d))) == AllNodes(a, x, b, y, c, z, d)
  {
    hide Distinct, Nodes;
    Arranged(a, x, b, y, c);
    Arranged(b, y, c, z, d);
    Arranged(a, x, Bin(b, y, c), z, d);
    Arranged(Bin(a, x, b), y, c, z, d);
    BinNodes(a, x, b);
    BinNodes(b, y, c);
    BinNodes(c, z, d);
  }

  lemma BinNodes(l: Shape, n: Node, r: Shape)
    ensures Nodes(Bin(l, n, r)) == Nodes(l) + {n} + Nodes(r)
    ensures Distinct(Bin(l, n, r)) <==>
      Distinct(l) && Distinct(r) && n !in Nodes(l) && n !in Nodes(r) && Nodes(l) !! Nodes(r)
  {
  }

  /** The nodes a double rotation writes to. */
  function Written3(x: Node, b: Shape, y: Node, c: Shape, z: Node): set<Node> {
    {x, y, z} + RootSet(b) + RootSet(c)
  }

  lemma Parts3Apart(a: Shape, x: Node, b: Shape, y: Node, c: Shape, z: Node, d: Shape)
    requires Parts3(a, x, b, y, c, z, d)
    ensures var ch := Written3(x, b, y, c, z);
            && Nodes(a) !! ch && Nodes(d) !! ch
            && Nodes(b) !! (ch - RootSet(b)) && Nodes(c) !! (ch - RootSet(c))
    ensures Distinct(b) && Distinct(c)
    ensures Root(b) != null ==> Root(b) != Root(c) && Root(b) !in {x, y, z}
    ensures Root(c) != null ==> Root(c) !in {x, y, z}
  {
    hide Distinct, Nodes;
  }

  /** A double rotation hands `b` to `x` and `c` to `z`; `a` and `d` stay where they are. */
  lemma Moved3(h: Heap, a: Shape, x: Node, b: Shape, y: Node, c: Shape, z: Node, d: Shape, h': Heap)
    requires Parts3(a, x, b, y, c, z, d) && AllNodes(a, x, b, y, c, z, d) <= h.Keys
    requires Linked(h, a, x) && Linked(h, b, y) && Linked(h, c, y) && Linked(h, d, z)
    requires Touches(h, h', Written3(x, b, y, c, z)) && Rehung(h, h', b, x) && Rehung(h, h', c, z)
    ensures Linked(h', a, x) && Linked(h', b, x) && Linked(h', c, z) && Linked(h', d, z)
    ensures Abs(h', a) == Abs(h, a) && Abs(h', b) == Abs(h, b) && Abs(h', c) == Abs(h, c) && Abs(h', d) == Abs(h, d)
  {
    Parts3Apart(a, x, b, y, c, z, d);
    hide Linked, Distinct, Nodes, Abs, Touches, Rehung, Parts, Parts3, RootSet, Written3;
    var ch := Written3(x, b, y, c, z);
    Kept(h, h', ch, a, x);
    Reparented(h, h', ch, b, y, x);
    Reparented(h, h', ch, c, y, z);
    Kept(h, h', ch, d, z);
  }

  lemma DoubleForm(h: Heap, a: Shape, x: Node, b: Shape, y: Node, c: Shape, z: Node, d: Shape, up: Node?)
    requires AllNodes(a, x, b, y, c, z, d) <= h.Keys
    requires Fields(h, y, x, z, up) && Fields(h, x, Root(a), Root(b), y) && Fields(h, z, Root(c), Root(d), y)
    requires Linked(h, a, x) && Linked(h, b, x) && Linked(h, c, z) && Linked(h, d, z)
    ensures Linked(h, Bin(Bin(a, x, b), y, Bin(c, z, d)), up)
    ensures Abs(h, Bin(Bin(a, x, b), y, Bin(c, z, d))) ==
      Spec.Node(Spec.Node(Abs(h, a), h[x].data, h[x].bal, Abs(h, b)), h[y].data, h[y].bal,
                Spec.Node(Abs(h, c), h[z].data, h[z].bal, Abs(h, d)))
  {
  }

  lemma LRForm(h: Heap, a: Shape, x: Node, b: Shape, y: Node, c: Shape, z: Node, d: Shape, up: Node?)
    requires AllNodes(a, x, b, y, c, z, d) <= h.Keys
    requires Nodes(Bin(Bin(a, x, Bin(b, y, c)), z, d)) <= h.Keys && Linked(h, Bin(Bin(a, x, Bin(b, y, c)), z, d), up)
    ensures Fields(h, z, x, Root(d), up) && Fields(h, x, Root(a), y, z) && Fields(h, y, Root(b), Root(c), x)
    ensures Linked(h, a, x) && Linked(h, b, y) && Linked(h, c, y) && Linked(h, d, z)
    ensures Abs(h, Bin(Bin(a, x, Bin(b, y, c)), z, d)) ==
      Spec.Node(Spec.Node(Abs(h, a), h[x].data, h[x].bal,
                          Spec.Node(Abs(h, b), h[y].data, h[y].bal, Abs(h, c))),
                h[z].data, h[z].bal, Abs(h, d))
  {
    LeftForm(h, a, x, Bin(b, y, c), z, d, up);
  }

  lemma RLForm(h: Heap, a: Shape, x: Node, b: Shape, y: Node, c: Shape, z: Node, d: Shape, up: Node?)
    requires AllNodes(a, x, b, y, c, z, d) <= h.Keys
    requires Nodes(Bin(a, x, Bin(Bin(b, y, c), z, d))) <= h.Keys && Linked(h, Bin(a, x, Bin(Bin(b, y, c), z, d)), up)
    ensures Fields(h, x, Root(a), z, up) && Fields(h, z, y, Root(d), x) && Fields(h, y, Root(b), Root(c), z)
    ensures Linked(h, a, x) && Linked(h, b, y) && Linked(h, c, y) && Linked(h, d, z)
    ensures Abs(h, Bin(a, x, Bin(Bin(b, y, c), z, d))) ==
      Spec.Node(Abs(h, a), h[x].data, h[x].bal,
                Spec.Node(Spec.Node(Abs(h, b), h[y].data, h[y].bal, Abs(h, c)), h[z].data, h[z].bal, Abs(h, d)))
  {
    RightForm(h, a, x, Bin(b, y, c), z, d, up);
  }

  /** The pointer writes of the LR case, `p` the left child of `m` and `q` its right child. */
  method RelinkLR(m: Node, p: Node, q: Node, s: Node?, u: Node?)
    requires m != p && m != q && p != q && m.left == p && p.right == q && q.left == s && q.right == u
    requires s !in {m, p, q} && u !in {m, p, q} && (s == null || s != u)
    requires -1 <= q.bal <= 1
    modifies m, p, q, if s == null then {} else {s}`parent, if u == null then {} else {u}`parent
    ensures q.left == p && q.right == m && q.parent == old(m.parent) && q.bal == 0 && q.data == old(q.data)
    ensures p.left == old(p.left) && p.right == s && p.parent == q && p.data == old(p.data)
    ensures m.left == u && m.right == old(m.right) && m.parent == q && m.data == old(m.data)
    ensures p.bal == (if old(q.bal) == 1 then -1 else 0) && m.bal == (if old(q.bal) == -1 then 1 else 0)
    ensures (s != null ==> s.parent == p) && (u != null ==> u.parent == m)
  {
    q.parent := m.parent;
    m.parent := q;
    p.parent := q;
    if s != null {
      s.parent := p;
    }
    if u != null {
      u.parent := m;
    }
    p.right := s;
    q.left := p;
    q.right := m;
    m.left := u;
    if q.bal == 0 {
      q.bal, p.bal, m.bal := 0, 0, 0;
    } else if q.bal == -1 {
      q.bal, p.bal, m.bal := 0, 0, 1;
    } else if q.bal == 1 {
      q.bal, p.bal, m.bal := 0, -1, 0;
    }
  }

  method RotateLR(m: Node, ghost ns: set<Node>, ghost t: Shape, ghost up: Node?) returns (q: Node, ghost t': Shape)
    requires t.Bin? && t.node == m && t.left.Bin? && t.left.right.Bin?
    requires Distinct(t) && Nodes(t) <= ns && Linked(Snap(ns), t, up)
    requires -1 <= t.left.right.node.bal <= 1
    modifies Nodes(t)
    ensures q == Root(t') && Nodes(t') == Nodes(t) && Distinct(t') && Linked(Snap(ns), t', up)
    ensures var v := old(Abs(Snap(ns), t));
            v.Node? && v.left.Node? && v.left.right.Node? && Abs(Snap(ns), t') == Spec.RotateLR(v)
  {
    hide Linked, Distinct, Nodes, Abs, Parts, Parts3;
    ghost var h, a, b, c, d := Snap(ns), t.left.left, t.left.right.left, t.left.right.right, t.right;
    ghost var x, y := t.left.node, t.left.right.node;
    Arranged3(a, x, b, y, c, m, d);
    Parts3Apart(a, x, b, y, c, m, d);
    LRForm(h, a, x, b, y, c, m, d, up);
    var p := m.left;
    q := p.right;
    RelinkLR(m, p, q, q.left, q.right);
    ghost var h' := Snap(ns);
    Moved3(h, a, p, b, q, c, m, d, h');
    DoubleForm(h', a, p, b, q, c, m, d, up);
    t' := Bin(Bin(a, p, b), q, Bin(c, m, d));
  }

  /** The pointer writes of the RL case, `p` the right child of `m` and `q` its left child. */
  method RelinkRL(m: Node, p: Node, q: Node, s: Node?, r: Node?)
    requires m != p && m != q && p != q && m.right == p && p.left == q && q.left == s && q.right == r
    requires s !in {m, p, q} && r !in {m, p, q} && (s == null || s != r)
    requires -1 <= q.bal <= 1
    modifies m, p, q, if s == null then {} else {s}`parent, if r == null then {} else {r}`parent
    ensures q.left == m && q.right == p && q.parent == old(m.parent) && q.bal == 0 && q.data == old(q.data)
    ensures m.left == old(m.left) && m.right == s && m.parent == q && m.data == old(m.data)
    ensures p.left == r && p.right == old(p.right) && p.parent == q && p.data == old(p.data)
    ensures m.bal == (if old(q.bal) == 1 then -1 else 0) && p.bal == (if old(q.bal) == -1 then 1 else 0)
    ensures (s != null ==> s.parent == m) && (r != null ==> r.parent == p)
  {
    q.parent := m.parent;
    m.parent := q;
    p.parent := q;
    if s != null {
      s.parent := m;
    }
    if r != null {
      r.parent := p;
    }
    m.right := s;
    q.left := m;
    q.right := p;
    p.left := r;
    if q.bal == 0 {
      q.bal, p.bal, m.bal := 0, 0, 0;
    } else if q.bal == -1 {
      q.bal, p.bal, m.bal := 0, 1, 0;
    } else if q.bal == 1 {
      q.bal, p.bal, m.bal := 0, 0, -1;
    }
  }

  method RotateRL(m: Node, ghost ns: set<Node>, ghost t: Shape, ghost up: Node?) returns (q: Node, ghost t': Shape)
    requires t.Bin? && t.node == m && t.right.Bin? && t.right.left.Bin?
    requires Distinct(t) && Nodes(t) <= ns && Linked(Snap(ns), t, up)
    requires -1 <= t.right.left.node.bal <= 1
    modifies Nodes(t)
    ensures q == Root(t') && Nodes(t') == Nodes(t) && Distinct(t') && Linked(Snap(ns), t', up)
    ensures var v := old(Abs(Snap(ns), t));
            v.Node? && v.right.Node? && v.right.left.Node? && Abs(Snap(ns), t') == Spec.RotateRL(v)
  {
    hide Linked, Distinct, Nodes, Abs, Parts, Parts3;
    ghost var h, a, b, c, d := Snap(ns), t.left, t.right.left.left, t.right.left.right, t.right.right;
    ghost var y, z := t.right.left.node, t.right.node;
    Arranged3(a, m, b, y, c, z, d);
    Parts3Apart(a, m, b, y, c, z, d);
    RLForm(h, a, m, b, y, c, z, d, up);
    var p := m.right;
    q := p.left;
    RelinkRL(m, p, q, q.left, q.right);
    ghost var h' := Snap(ns);
    Moved3(h, a, m, b, q, c, p, d, h');
    DoubleForm(h', a, m, b, q, c, p, d, up);
    t' := Bin(Bin(a, m, b), q, Bin(c, p, d));
  }

  /** One level of a linked shape. */
  lemma OneLevel(h: Heap, s: Shape, up: Node?)
    requires Nodes(s) <= h.Keys && s.Bin? && Distinct(s) && Linked(h, s, up)
    ensures Nodes(s) == Nodes(s.left) + {s.node} + Nodes(s.right)
    ensures Fields(h, s.node, Root(s.left), Root(s.right), up)
    ensures Linked(h, s.left, s.node) && Linked(h, s.right, s.node)
    ensures Distinct(s.left) && Distinct(s.right)
    ensures s.node !in Nodes(s.left) && s.node !in Nodes(s.right) && Nodes(s.left) !! Nodes(s.right)
    ensures Abs(h, s) == Spec.Node(Abs(h, s.left), h[s.node].data, h[s.node].bal, Abs(h, s.right))
  {
  }

  lemma Joined(h: Heap, l: Shape, n: Node, r: Shape, up: Node?)
    requires Nodes(l) <= h.Keys && Nodes(r) <= h.Keys && n in h
    requires Linked(h, l, n) && Linked(h, r, n) && Fields(h, n, Root(l), Root(r), up)
    requires Distinct(l) && Distinct(r) && n !in Nodes(l) && n !in Nodes(r) && Nodes(l) !! Nodes(r)
    ensures Nodes(Bin(l, n, r)) == Nodes(l) + {n} + Nodes(r) && Distinct(Bin(l, n, r))
    ensures Linked(h, Bin(l, n, r), up)
    ensures Abs(h, Bin(l, n, r)) == Spec.Node(Abs(h, l), h[n].data, h[n].bal, Abs(h, r))
  {
  }

  /** A change to a node's balance factor alone. */
  lemma Rebalanced(h: Heap, h': Heap, s: Shape, up: Node?, bal: int)
    requires Nodes(s) <= h.Keys && s.Bin? && Distinct(s) && Linked(h, s, up)
    requires Touches(h, h', {s.node}) && h'[s.node] == h[s.node].(bal := bal)
    ensures Linked(h', s, up) && Abs(h, s).Node? && Abs(h', s) == Abs(h, s).(bal := bal)
  {
    Kept(h, h', {s.node}, s.left, s.node);
    Kept(h, h', {s.node}, s.right, s.node);
  }

  /** A node whose left subtree has been replaced by one holding more nodes. */
  lemma AttachLeft(h0: Heap, h1: Heap, h2: Heap, s: Shape, l: Shape, up: Node?, added: set<Node>)
    requires s.Bin? && Distinct(s) && Nodes(s) <= h0.Keys && Linked(h0, s, up)
    requires Distinct(l) && Nodes(l) == Nodes(s.left) + added && added !! h0.Keys
    requires h1.Keys == h0.Keys + added && Linked(h1, l, s.node)
    requires forall x :: x in h0 && x !in Nodes(s.left) ==> h1[x] == h0[x]
    requires Touches(h1, h2, {s.node}) && h2[s.node] == h1[s.node].(left := Root(l))
    ensures var s2 := Bin(l, s.node, s.right);
            && Nodes(s2) == Nodes(s) + added && Distinct(s2) && Linked(h2, s2, up)
            && Abs(h2, s2) == Spec.Node(Abs(h1, l), h0[s.node].data, h0[s.node].bal, Abs(h0, s.right))
  {
    hide Linked, Distinct, Abs, Nodes;
    OneLevel(h0, s, up);
    Kept(h1, h2, {s.node}, l, s.node);
    Frame(h0, h2, s.right, s.node);
    Joined(h2, l, s.node, s.right, up);
  }

  lemma AttachRight(h0: Heap, h1: Heap, h2: Heap, s: Shape, r: Shape, up: Node?, added: set<Node>)
    requires s.Bin? && Distinct(s) && Nodes(s) <= h0.Keys && Linked(h0, s, up)
    requires Distinct(r) && Nodes(r) == Nodes(s.right) + added && added !! h0.Keys
    requires h1.Keys == h0.Keys + added && Linked(h1, r, s.node)
    requires forall x :: x in h0 && x !in Nodes(s.right) ==> h1[x] == h0[x]
    requires Touches(h1, h2, {s.node}) && h2[s.node] == h1[s.node].(right := Root(r))
    ensures var s2 := Bin(s.left, s.node, r);
            && Nodes(s2) == Nodes(s) + added && Distinct(s2) && Linked(h2, s2, up)
            && Abs(h2, s2) == Spec.Node(Abs(h0, s.left), h0[s.node].data, h0[s.node].bal, Abs(h1, r))
  {
    hide Linked, Distinct, Abs, Nodes;
    OneLevel(h0, s, up);
    Kept(h1, h2, {s.node}, r, s.node);
    Frame(h0, h2, s.left, s.node);
    Joined(h2, s.left, s.node, r, up);
  }

  /** Where the left-insertion cases find their nodes. */
  lemma LeftCase(h: Heap, s: Shape, up: Node?)
    requires Nodes(s) <= h.Keys && s.Bin? && Distinct(s) && Linked(h, s, up) && Spec.FixLeft.requires(Abs(h, s))
    ensures h[s.node].bal == Abs(h, s).bal
    ensures Abs(h, s).bal == -1 ==>
      && s.left.Bin? && h[s.node].left == s.left.node && s.left.node in h
      && h[s.left.node].bal == Abs(h, s).left.bal && (h[s.left.node].bal == 1 ==> s.left.right.Bin?)
  {
  }

  lemma RightCase(h: Heap, s: Shape, up: Node?)
    requires Nodes(s) <= h.Keys && s.Bin? && Distinct(s) && Linked(h, s, up) && Spec.FixRight.requires(Abs(h, s))
    ensures h[s.node].bal == Abs(h, s).bal
    ensures Abs(h, s).bal == 1 ==>
      && s.right.Bin? && h[s.node].right == s.right.node && s.right.node in h
      && h[s.right.node].bal == Abs(h, s).right.bal && (h[s.right.node].bal == -1 ==> s.right.left.Bin?)
  {
  }

  method SetBal(n: Node, bal: int, ghost ns: set<Node>, ghost s: Shape, ghost up: Node?)
    requires n == Root(s) && Distinct(s) && Nodes(s) <= ns && Linked(Snap(ns), s, up)
    modifies n`bal
    ensures Linked(Snap(ns), s, up)
    ensures var t := old(Abs(Snap(ns), s)); t.Node? && Abs(Snap(ns), s) == t.(bal := bal)
  {
    hide Linked, Distinct, Abs;
    ghost var h := Snap(ns);
    n.bal := bal;
    Rebalanced(h, Snap(ns), s, up, bal);
  }

  /** What an insertion below `up`, specified to give `o`, does to the heap `h`. */
  ghost predicate Outcome(rc: int, o: Spec.Outcome, h: Heap, h': Heap, s: Shape, up: Node?, s': Shape, added: set<Node>) {
    && Nodes(s) <= h.Keys && h'.Keys == h.Keys + added
    && (forall x :: x in h && x !in Nodes(s) ==> h'[x] == h[x])
    && (o.Duplicate? ==> rc == -1 && s' == s && added == {} && h' == h)
    && (o.Added? ==>
          && rc == 0 && |added| == 1 && added !! h.Keys
          && Nodes(s') == Nodes(s) + added && Distinct(s')
          && Linked(h', s', up) && Abs(h', s') == o.tree)
  }

  lemma OutcomeMeans(rc: int, o: Spec.Outcome, h: Heap, h': Heap, s: Shape, up: Node?, s': Shape, added: set<Node>)
    requires Outcome(rc, o, h, h', s, up, s', added)
    ensures o.Duplicate? ==> rc == -1 && s' == s && added == {} && h' == h
    ensures o.Added? ==>
      && rc == 0 && s'.Bin? && Nodes(s') == Nodes(s) + added && Nodes(s') <= h'.Keys && Distinct(s')
      && Linked(h', s', up) && Abs(h', s') == o.tree
  {
  }

  /** The left insertion, to be rebalanced. */
  ghost function WithLeft(t: Spec.Tree, k: int): Spec.Outcome
    requires t.Node? && Spec.Balanced(t)
  {
    var o := Spec.Add(t.left, k);
    if o.Added? then o.(tree := t.(left := o.tree)) else o
  }

  lemma DuplicateLeft(rc: int, k: int, h0: Heap, h1: Heap, s: Shape, up: Node?, l: Shape, added: set<Node>)
    requires s.Bin? && Distinct(s) && Nodes(s) <= h0.Keys && Linked(h0, s, up) && Spec.Balanced(Abs(h0, s))
    requires rc != 0 && Outcome(rc, Spec.Add(Abs(h0, s.left), k), h0, h1, s.left, s.node, l, added)
    ensures Spec.Add(Abs(h0, s.left), k).Duplicate? && WithLeft(Abs(h0, s), k).Duplicate? && added == {}
    ensures Outcome(-1, WithLeft(Abs(h0, s), k), h0, h1, s, up, s, {})
  {
    hide Spec.Add, Linked;
  }

  lemma OutcomeLeft(rc: int, k: int, h0: Heap, h1: Heap, h2: Heap, s: Shape, up: Node?, l: Shape, added: set<Node>)
    requires s.Bin? && Distinct(s) && Nodes(s) <= h0.Keys && Linked(h0, s, up) && Spec.Balanced(Abs(h0, s))
    requires rc == 0 && Outcome(rc, Spec.Add(Abs(h0, s.left), k), h0, h1, s.left, s.node, l, added)
    requires Touches(h1, h2, {s.node}) && h2[s.node] == h1[s.node].(left := Root(l))
    ensures Outcome(rc, WithLeft(Abs(h0, s), k), h0, h2, s, up, Bin(l, s.node, s.right), added)
    ensures var o, o' := Spec.Add(Abs(h0, s.left), k), WithLeft(Abs(h0, s), k);
            o.Added? && o'.Added? && o'.grew == o.grew
  {
    OneLevel(h0, s, up);
    hide Spec.Add, Linked, Abs, Distinct, Nodes;
    AttachLeft(h0, h1, h2, s, l, up, added);
  }

  /** The right insertion, to be rebalanced. */
  ghost function WithRight(t: Spec.Tree, k: int): Spec.Outcome
    requires t.Node? && Spec.Balanced(t)
  {
    var o := Spec.Add(t.right, k);
    if o.Added? then o.(tree := t.(right := o.tree)) else o
  }

  lemma DuplicateRight(rc: int, k: int, h0: Heap, h1: Heap, s: Shape, up: Node?, l: Shape, added: set<Node>)
    requires s.Bin? && Distinct(s) && Nodes(s) <= h0.Keys && Linked(h0, s, up) && Spec.Balanced(Abs(h0, s))
    requires rc != 0 && Outcome(rc, Spec.Add(Abs(h0, s.right), k), h0, h1, s.right, s.node, l, added)
    ensures Spec.Add(Abs(h0, s.right), k).Duplicate? && WithRight(Abs(h0, s), k).Duplicate? && added == {}
    ensures Outcome(-1, WithRight(Abs(h0, s), k), h0, h1, s, up, s, {})
  {
    hide Spec.Add, Linked;
  }

  lemma OutcomeRight(rc: int, k: int, h0: Heap, h1: Heap, h2: Heap, s: Shape, up: Node?, l: Shape, added: set<Node>)
    requires s.Bin? && Distinct(s) && Nodes(s) <= h0.Keys && Linked(h0, s, up) && Spec.Balanced(Abs(h0, s))
    requires rc == 0 && Outcome(rc, Spec.Add(Abs(h0, s.right), k), h0, h1, s.right, s.node, l, added)
    requires Touches(h1, h2, {s.node}) && h2[s.node] == h1[s.node].(right := Root(l))
    ensures Outcome(rc, WithRight(Abs(h0, s), k), h0, h2, s, up, Bin(s.left, s.node, l), added)
    ensures var o, o' := Spec.Add(Abs(h0, s.right), k), WithRight(Abs(h0, s), k);
            o.Added? && o'.Added? && o'.grew == o.grew
  {
    OneLevel(h0, s, up);
    hide Spec.Add, Linked, Abs, Distinct, Nodes;
    AttachRight(h0, h1, h2, s, l, up, added);
  }

  /** What a left insertion that needs rebalancing finds. */
  lemma ReadyLeft(h: Heap, s: Shape, up: Node?, t: Spec.Tree, k: int)
    requires t.Node? && Spec.Balanced(t) && k < t.key
    requires var o := WithLeft(t, k);
             o.Added? && o.grew && Nodes(s) <= h.Keys && s.Bin? && Distinct(s) && Linked(h, s, up) && Abs(h, s) == o.tree
    ensures Spec.FixLeft.requires(Abs(h, s))
    ensures s.left.Bin? && s.left.right.Bin? ==> s.left.right.node in h && -1 <= h[s.left.right.node].bal <= 1
    ensures Spec.Add(t, k) == Spec.FixLeft(Abs(h, s))
  {
    var o := Spec.Add(t.left, k);
    Spec.LeftGrew(t, o.tree);
    hide Spec.FixLeft;
    OneLevel(h, s, up);
    if s.left.Bin? {
      OneLevel(h, s.left, s.node);
      assert Spec.Balanced(Abs(h, s.left));
      if s.left.right.Bin? { assert Spec.Balanced(Abs(h, s.left.right)); }
    }
  }

  lemma SettledLeft(t: Spec.Tree, k: int)
    requires t.Node? && Spec.Balanced(t) && k < t.key
    ensures WithLeft(t, k).Duplicate? || !WithLeft(t, k).grew ==> Spec.Add(t, k) == WithLeft(t, k)
  {
  }

  /** What a right insertion that needs rebalancing finds. */
  lemma ReadyRight(h: Heap, s: Shape, up: Node?, t: Spec.Tree, k: int)
    requires t.Node? && Spec.Balanced(t) && k > t.key
    requires var o := WithRight(t, k);
             o.Added? && o.grew && Nodes(s) <= h.Keys && s.Bin? && Distinct(s) && Linked(h, s, up) && Abs(h, s) == o.tree
    ensures Spec.FixRight.requires(Abs(h, s))
    ensures s.right.Bin? && s.right.left.Bin? ==> s.right.left.node in h && -1 <= h[s.right.left.node].bal <= 1
    ensures Spec.Add(t, k) == Spec.FixRight(Abs(h, s))
  {
    var o := Spec.Add(t.right, k);
    Spec.RightGrew(t, o.tree);
    hide Spec.FixRight;
    OneLevel(h, s, up);
    if s.right.Bin? {
      OneLevel(h, s.right, s.node);
      assert Spec.Balanced(Abs(h, s.right));
      if s.right.left.Bin? { assert Spec.Balanced(Abs(h, s.right.left)); }
    }
  }

  lemma SettledRight(t: Spec.Tree, k: int)
    requires t.Node? && Spec.Balanced(t) && k > t.key
    ensures WithRight(t, k).Duplicate? || !WithRight(t, k).grew ==> Spec.Add(t, k) == WithRight(t, k)
  {
  }

  /** Rebalancing an insertion's result gives another outcome of the same insertion. */
  lemma FixedOutcome(o: Spec.Outcome, o': Spec.Outcome, h0: Heap, h1: Heap, h2: Heap, s: Shape, up: Node?,
                     s1: Shape, s2: Shape, added: set<Node>)
    requires Outcome(0, o, h0, h1, s, up, s1, added) && o.Added? && o'.Added?
    requires Nodes(s2) == Nodes(s1) && Distinct(s2) && Touches(h1, h2, Nodes(s1))
    requires Linked(h2, s2, up) && Abs(h2, s2) == o'.tree
    ensures Outcome(0, o', h0, h2, s, up, s2, added)
  {
    hide Linked, Abs, Distinct, Nodes;
  }

  /** The node the search for a key ends at; null if it falls off the tree. */
  ghost function Holder(h: Heap, s: Shape, k: int): (x: Node?)
    requires Nodes(s) <= h.Keys
    ensures x != null ==> x in Nodes(s) && x in h && h[x].data == k
  {
    if s.Nil? then null
    else if h[s.node].data > k then Holder(h, s.left, k)
    else if h[s.node].data < k then Holder(h, s.right, k)
    else s.node
  }

  /** What a refused addition leaves in the static parent, which held p: p itself if the root has the key, else the
      parent of the node that has it. */
  ghost function Stale(p: Node?, h: Heap, s: Shape, k: int): Node?
    requires Nodes(s) <= h.Keys
  {
    var x := Holder(h, s, k);
    if x == null || x == Root(s) then p else h[x].parent
  }

  lemma {:induction false} DuplicateHeld(h: Heap, s: Shape, k: int)
    requires Nodes(s) <= h.Keys && Spec.Balanced(Abs(h, s)) && Spec.Add(Abs(h, s), k).Duplicate?
    ensures Holder(h, s, k) != null
  {
    if s.Bin? {
      if h[s.node].data > k {
        DuplicateHeld(h, s.left, k);
      } else if h[s.node].data < k {
        DuplicateHeld(h, s.right, k);
      }
    }
  }

  /** In a subtree entered from its parent, the parent of the node that has the key. */
  lemma StaleBelow(h: Heap, s: Shape, up: Node?, k: int, p: Node?)
    requires s.Bin? && Nodes(s) <= h.Keys && Distinct(s) && Linked(h, s, up)
    ensures h[s.node].data > k && Holder(h, s.left, k) != null ==> Stale(s.node, h, s.left, k) == Stale(p, h, s, k)
    ensures h[s.node].data < k && Holder(h, s.right, k) != null ==> Stale(s.node, h, s.right, k) == Stale(p, h, s, k)
  {
  }

  /** The tree functions and the static variables they share between calls. */
  class Library {
    var checkBalance: bool
    var parent: Node?

    constructor ()
      ensures !checkBalance && parent == null
    {
      checkBalance := false;
      parent := null;
    }

    /** The left subtree has grown: adjust the balance factor or rotate. */
    method FixLeft(n: Node, ghost ns: set<Node>, ghost s: Shape, ghost up: Node?) returns (top: Node, ghost s': Shape)
      requires n == Root(s) && Distinct(s) && Nodes(s) <= ns && Linked(Snap(ns), s, up)
      requires Spec.FixLeft.requires(Abs(Snap(ns), s))
      requires s.left.Bin? && s.left.right.Bin? ==> -1 <= s.left.right.node.bal <= 1
      modifies this`checkBalance, Nodes(s)
      ensures top == Root(s') && Nodes(s') == Nodes(s) && Distinct(s') && Linked(Snap(ns), s', up)
      ensures var o := Spec.FixLeft(old(Abs(Snap(ns), s)));
              Abs(Snap(ns), s') == o.tree && checkBalance == o.grew
    {
      hide Linked, Distinct, Nodes, Abs, Spec.RotateLL, Spec.RotateLR;
      LeftCase(Snap(ns), s, up);
      top, s' := n, s;
      if n.bal == 1 {
        SetBal(n, 0, ns, s, up);
        checkBalance := false;
      } else if n.bal == 0 {
        SetBal(n, -1, ns, s, up);
        checkBalance := true;
      } else {
        var p := n.left;
        if p.bal == -1 {
          top, s' := RotateLL(n, ns, s, up);
        } else if p.bal == 1 {
          top, s' := RotateLR(n, ns, s, up);
        } else {
          assert false;
        }
        checkBalance := false;
      }
    }

    /** The right subtree has grown: adjust the balance factor or rotate. */
    method FixRight(n: Node, ghost ns: set<Node>, ghost s: Shape, ghost up: Node?) returns (top: Node, ghost s': Shape)
      requires n == Root(s) && Distinct(s) && Nodes(s) <= ns && Linked(Snap(ns), s, up)
      requires Spec.FixRight.requires(Abs(Snap(ns), s))
      requires s.right.Bin? && s.right.left.Bin? ==> -1 <= s.right.left.node.bal <= 1
      modifies this`checkBalance, Nodes(s)
      ensures top == Root(s') && Nodes(s') == Nodes(s) && Distinct(s') && Linked(Snap(ns), s', up)
      ensures var o := Spec.FixRight(old(Abs(Snap(ns), s)));
              Abs(Snap(ns), s') == o.tree && checkBalance == o.grew
    {
      hide Linked, Distinct, Nodes, Abs, Spec.RotateRR, Spec.RotateRL;
      RightCase(Snap(ns), s, up);
      top, s' := n, s;
      if n.bal == -1 {
        SetBal(n, 0, ns, s, up);
        checkBalance := false;
      } else if n.bal == 0 {
        SetBal(n, 1, ns, s, up);
        checkBalance := true;
      } else {
        var p := n.right;
        if p.bal == -1 {
          top, s' := RotateRL(n, ns, s, up);
        } else if p.bal == 1 {
          top, s' := RotateRR(n, ns, s, up);
        } else {
          assert false;
        }
        checkBalance := false;
      }
    }

    /** The static variables after an addition with outcome o. */
    ghost predicate Statics(o: Spec.Outcome, stale: Node?)
      reads this
    {
      checkBalance == (o.Added? && o.grew) && parent == if o.Added? then null else stale
    }

    /** Insertion into the left subtree, before any rebalancing. */
    method AddLeft(n: Node, k: int, ghost ns: set<Node>, ghost s: Shape, ghost up: Node?)
      returns (rc: int, ghost s': Shape, ghost added: set<Node>)
      requires n == Root(s) && Distinct(s) && Nodes(s) <= ns && Linked(Snap(ns), s, up)
      requires Spec.Balanced(Abs(Snap(ns), s)) && k < n.data
      modifies this, Nodes(s)
      ensures var o := WithLeft(old(Abs(Snap(ns), s)), k);
              Outcome(rc, o, old(Snap(ns)), Snap(ns + added), s, up, s', added) &&
              Statics(o, Stale(old(parent), old(Snap(ns)), s, k))
      ensures fresh(added)
      ensures rc == 0 ==> s'.Bin? && s'.node == n
      decreases s, 0
    {
      ghost var h0 := Snap(ns);
      OneLevel(h0, s, up);
      assert Spec.Balanced(Abs(h0, s.left));
      StaleBelow(h0, s, up, k, parent);
      if Spec.Add(Abs(h0, s.left), k).Duplicate? {
        DuplicateHeld(h0, s.left, k);
      }
      hide Linked, Distinct, Abs, Nodes, Outcome, WithLeft, Spec.Add, Spec.Balanced, Stale, Holder;
      parent := n;
      assert Snap(ns) == h0;
      var l;
      ghost var l';
      rc, l, l', added := TreeAdd(n.left, k, ns, s.left, n);
      if rc != 0 {
        checkBalance := false;
        DuplicateLeft(rc, k, h0, Snap(ns + added), s, up, l', added);
        return -1, s, {};
      }
      s' := HangLeft(n, l, rc, k, h0, ns, s, up, l', added);
    }

    /** Writes the new left subtree back. */
    method HangLeft(n: Node, l: Node?, ghost rc: int, ghost k: int, ghost h0: Heap, ghost ns: set<Node>,
                    ghost s: Shape, ghost up: Node?, ghost l': Shape, ghost added: set<Node>)
      returns (ghost s': Shape)
      requires n == Root(s) && Distinct(s) && Nodes(s) <= ns == h0.Keys && Linked(h0, s, up)
      requires Spec.Balanced(Abs(h0, s)) && Spec.Balanced(Abs(h0, s.left)) && l == Root(l') && n in ns + added
      requires rc == 0 && Outcome(rc, Spec.Add(Abs(h0, s.left), k), h0, Snap(ns + added), s.left, n, l', added)
      modifies n`left
      ensures Outcome(rc, WithLeft(Abs(h0, s), k), h0, Snap(ns + added), s, up, s', added)
      ensures s'.Bin? && s'.node == n
      ensures var o, o' := Spec.Add(Abs(h0, s.left), k), WithLeft(Abs(h0, s), k);
              o.Added? && o'.Added? && o'.grew == o.grew
    {
      hide Linked, Distinct, Abs, Nodes, Outcome, WithLeft, Spec.Add, Spec.Balanced;
      ghost var h1 := Snap(ns + added);
      n.left := l;
      OutcomeLeft(rc, k, h0, h1, Snap(ns + added), s, up, l', added);
      s' := Bin(l', n, s.right);
    }

    /** Insertion into the right subtree, before any rebalancing. */
    method AddRight(n: Node, k: int, ghost ns: set<Node>, ghost s: Shape, ghost up: Node?)
      returns (rc: int, ghost s': Shape, ghost added: set<Node>)
      requires n == Root(s) && Distinct(s) && Nodes(s) <= ns && Linked(Snap(ns), s, up)
      requires Spec.Balanced(Abs(Snap(ns), s)) && k > n.data
      modifies this, Nodes(s)
      ensures var o := WithRight(old(Abs(Snap(ns), s)), k);
              Outcome(rc, o, old(Snap(ns)), Snap(ns + added), s, up, s', added) &&
              Statics(o, Stale(old(parent), old(Snap(ns)), s, k))
      ensures fresh(added)
      ensures rc == 0 ==> s'.Bin? && s'.node == n
      decreases s, 0
    {
      ghost var h0 := Snap(ns);
      OneLevel(h0, s, up);
      assert Spec.Balanced(Abs(h0, s.right));
      StaleBelow(h0, s, up, k, parent);
      if Spec.Add(Abs(h0, s.right), k).Duplicate? {
        DuplicateHeld(h0, s.right, k);
      }
      hide Linked, Distinct, Abs, Nodes, Outcome, WithRight, Spec.Add, Spec.Balanced, Stale, Holder;
      parent := n;
      assert Snap(ns) == h0;
      var l;
      ghost var l';
      rc, l, l', added := TreeAdd(n.right, k, ns, s.right, n);
      if rc != 0 {
        checkBalance := false;
        DuplicateRight(rc, k, h0, Snap(ns + added), s, up, l', added);
        return -1, s, {};
      }
      s' := HangRight(n, l, rc, k, h0, ns, s, up, l', added);
    }

    /** Writes the new right subtree back. */
    method HangRight(n: Node, l: Node?, ghost rc: int, ghost k: int, ghost h0: Heap, ghost ns: set<Node>,
                    ghost s: Shape, ghost up: Node?, ghost l': Shape, ghost added: set<Node>)
      returns (ghost s': Shape)
      requires n == Root(s) && Distinct(s) && Nodes(s) <= ns == h0.Keys && Linked(h0, s, up)
      requires Spec.Balanced(Abs(h0, s)) && Spec.Balanced(Abs(h0, s.right)) && l == Root(l') && n in ns + added
      requires rc == 0 && Outcome(rc, Spec.Add(Abs(h0, s.right), k), h0, Snap(ns + added), s.right, n, l', added)
      modifies n`right
      ensures Outcome(rc, WithRight(Abs(h0, s), k), h0, Snap(ns + added), s, up, s', added)
      ensures s'.Bin? && s'.node == n
      ensures var o, o' := Spec.Add(Abs(h0, s.right), k), WithRight(Abs(h0, s), k);
              o.Added? && o'.Added? && o'.grew == o.grew
    {
      hide Linked, Distinct, Abs, Nodes, Outcome, WithRight, Spec.Add, Spec.Balanced;
      ghost var h1 := Snap(ns + added);
      n.right := l;
      OutcomeRight(rc, k, h0, h1, Snap(ns + added), s, up, l', added);
      s' := Bin(s.left, n, l');
    }

    /** A key below the node's: insert to the left, then rebalance if that side has grown. */
    method InsertLeft(n: Node, k: int, ghost ns: set<Node>, ghost s: Shape, ghost up: Node?)
      returns (rc: int, top: Node, ghost s': Shape, ghost added: set<Node>)
      requires n == Root(s) && Distinct(s) && Nodes(s) <= ns && Linked(Snap(ns), s, up)
      requires Spec.Balanced(Abs(Snap(ns), s)) && k < Abs(Snap(ns), s).key
      modifies this, Nodes(s)
      ensures var o := Spec.Add(old(Abs(Snap(ns), s)), k);
              Outcome(rc, o, old(Snap(ns)), Snap(ns + added), s, up, s', added) &&
              Statics(o, Stale(old(parent), old(Snap(ns)), s, k))
      ensures fresh(added) && top == Root(s')
      decreases s, 1
    {
      hide Linked, Distinct, Abs, Nodes, Outcome, WithLeft, Spec.Add, Spec.Balanced, Spec.FixLeft, Stale, Holder;
      KeyOf(Snap(ns), s, up, k);
      ghost var h0, t := Snap(ns), Abs(Snap(ns), s);
      SettledLeft(t, k);
      ghost var s1;
      rc, s1, added := AddLeft(n, k, ns, s, up);
      ghost var h1 := Snap(ns + added);
      OutcomeMeans(rc, WithLeft(t, k), h0, h1, s, up, s1, added);
      if rc != 0 {
        checkBalance := false;
        return -1, n, s, {};
      }
      if !checkBalance {
        return 0, n, s1, added;
      }
      ReadyLeft(h1, s1, up, t, k);
      top, s' := FixLeft(n, ns + added, s1, up);
      FixedOutcome(WithLeft(t, k), Spec.Add(t, k), h0, h1, Snap(ns + added), s, up, s1, s', added);
    }

    /** A key above the node's: insert to the right, then rebalance if that side has grown. */
    method InsertRight(n: Node, k: int, ghost ns: set<Node>, ghost s: Shape, ghost up: Node?)
      returns (rc: int, top: Node, ghost s': Shape, ghost added: set<Node>)
      requires n == Root(s) && Distinct(s) && Nodes(s) <= ns && Linked(Snap(ns), s, up)
      requires Spec.Balanced(Abs(Snap(ns), s)) && k > Abs(Snap(ns), s).key
      modifies this, Nodes(s)
      ensures var o := Spec.Add(old(Abs(Snap(ns), s)), k);
              Outcome(rc, o, old(Snap(ns)), Snap(ns + added), s, up, s', added) &&
              Statics(o, Stale(old(parent), old(Snap(ns)), s, k))
      ensures fresh(added) && top == Root(s')
      decreases s, 1
    {
      hide Linked, Distinct, Abs, Nodes, Outcome, WithRight, Spec.Add, Spec.Balanced, Spec.FixRight, Stale, Holder;
      KeyOf(Snap(ns), s, up, k);
      ghost var h0, t := Snap(ns), Abs(Snap(ns), s);
      SettledRight(t, k);
      ghost var s1;
      rc, s1, added := AddRight(n, k, ns, s, up);
      ghost var h1 := Snap(ns + added);
      OutcomeMeans(rc, WithRight(t, k), h0, h1, s, up, s1, added);
      if rc != 0 {
        checkBalance := false;
        return -1, n, s, {};
      }
      if !checkBalance {
        return 0, n, s1, added;
      }
      ReadyRight(h1, s1, up, t, k);
      top, s' := FixRight(n, ns + added, s1, up);
      FixedOutcome(WithRight(t, k), Spec.Add(t, k), h0, h1, Snap(ns + added), s, up, s1, s', added);
    }

    /** Adds `k` to the tree rooted at `n`: the heap then holds the tree the specification gives, or
        is untouched if the key was there.  `top` is written back where `n` came from. */
    method TreeAdd(n: Node?, k: int, ghost ns: set<Node>, ghost s: Shape, ghost up: Node?)
      returns (rc: int, top: Node?, ghost s': Shape, ghost added: set<Node>)
      requires n == Root(s) && Distinct(s) && Nodes(s) <= ns && Linked(Snap(ns), s, up)
      requires Spec.Balanced(Abs(Snap(ns), s))
      requires n == null ==> parent == up
      modifies this, Nodes(s)
      ensures var o := Spec.Add(old(Abs(Snap(ns), s)), k);
              Outcome(rc, o, old(Snap(ns)), Snap(ns + added), s, up, s', added) &&
              Statics(o, Stale(old(parent), old(Snap(ns)), s, k))
      ensures fresh(added) && top == Root(s')
      decreases s, 2
    {
      hide Linked, Distinct, Abs, Nodes, Outcome, Spec.Add, Spec.Balanced;
      if n == null {
        rc, top, s', added := AddLeaf(k, ns, up);
        return;
      }
      KeyOf(Snap(ns), s, up, k);
      if n.data > k {
        rc, top, s', added := InsertLeft(n, k, ns, s, up);
      } else if n.data < k {
        rc, top, s', added := InsertRight(n, k, ns, s, up);
      } else {
        checkBalance := false;
        assert ns + {} == ns;
        rc, top, s', added := -1, n, s, {};
      }
    }

    /** The new leaf hangs below the static `parent`, which is then forgotten. */
    method AddLeaf(k: int, ghost ns: set<Node>, ghost up: Node?)
      returns (rc: int, leaf: Node, ghost s: Shape, ghost added: set<Node>)
      requires parent == up
      modifies this
      ensures var o := Spec.Add(Spec.Leaf, k);
              Outcome(rc, o, old(Snap(ns)), Snap(ns + added), Nil, up, s, added) && o.Added? && Statics(o, null)
      ensures fresh(added) && leaf == Root(s)
    {
      hide Outcome, Linked, Abs, Nodes, Distinct;
      leaf := new Node(k, parent);
      checkBalance := true;
      parent := null;
      rc, s, added := 0, Bin(Nil, leaf, Nil), {leaf};
      assert Snap(ns) == old(Snap(ns));
      LeafOutcome(Snap(ns), Snap(ns + added), leaf, up, k);
    }
  }

  lemma LeafOutcome(h: Heap, h': Heap, leaf: Node, up: Node?, k: int)
    requires leaf !in h && h'.Keys == h.Keys + {leaf} && (forall x :: x in h ==> h'[x] == h[x])
    requires h'[leaf] == Cell(k, 0, null, null, up)
    ensures Outcome(0, Spec.Add(Spec.Leaf, k), h, h', Nil, up, Bin(Nil, leaf, Nil), {leaf})
  {
  }

  lemma KeyOf(h: Heap, s: Shape, up: Node?, k: int)
    requires Nodes(s) <= h.Keys && s.Bin? && Distinct(s) && Linked(h, s, up) && Spec.Balanced(Abs(h, s))
    ensures Abs(h, s).key == h[s.node].data
    ensures k == Abs(h, s).key ==> Spec.Add(Abs(h, s), k).Duplicate? && Outcome(-1, Spec.Add(Abs(h, s), k), h, h, s, up, s, {})
  {
  }

  lemma LeafHoldsNothing(k: int)
    ensures k !in Spec.InOrder(Spec.Leaf)
  {
  }

  /** A caller's tree variable. */
  class Tree {
    var root: Node?
    ghost var shape: Shape

    /** Where the parent link of the root leads: nowhere, unless the tree was begun with a stale static parent. */
    ghost var up: Node?

    ghost predicate Valid()
      reads this, Nodes(shape)
    {
      root == Root(shape) && Distinct(shape) && Linked(Snap(Nodes(shape)), shape, up) && Spec.IsAvl(Model())
    }

    ghost function Model(): Spec.Tree
      reads this, Nodes(shape)
    {
      Abs(Snap(Nodes(shape)), shape)
    }

    constructor ()
      ensures Valid() && Model() == Spec.Leaf && root == null && up == null && Nodes(shape) == {}
    {
      root := null;
      shape := Nil;
      up := null;
    }

    /** Tree_Add(&root, key).  Keys, order and balance come out right whatever the static parent holds.  Parent
        links end at the root exactly if the tree had nodes or the static parent was null; else the first node hangs
        below the foreign node found there. */
    method Add(lib: Library, k: int) returns (rc: int)
      requires Valid()
      modifies this, lib, Nodes(shape)
      ensures Valid() && root != null && root.parent == up
      ensures rc == -1 <==> k in Spec.InOrder(old(Model()))
      ensures rc == -1 ==> Model() == old(Model()) && shape == old(shape) && root == old(root)
      ensures rc == -1 ==> lib.parent == Stale(old(lib.parent), old(Snap(Nodes(shape))), old(shape), k)
      ensures rc != -1 ==> rc == 0 && lib.parent == null
      ensures rc != -1 ==> var o := Spec.Add(old(Model()), k); o.Added? && Model() == o.tree
      ensures Spec.InOrder(Model()) ==
              if rc == -1 then Spec.InOrder(old(Model())) else Spec.Inserted(Spec.InOrder(old(Model())), k)
      ensures up == if old(root) == null then old(lib.parent) else old(up)
      ensures old(up) == null ==> (up == null <==> old(root) != null || old(lib.parent) == null)
      ensures fresh(Nodes(shape) - old(Nodes(shape)))
    {
      hide Linked, Distinct, Abs, Nodes, Outcome, Spec.Add, Spec.Balanced, Spec.InOrder, Spec.Inserted, Stale, Holder;
      ghost var ns, h, t := Nodes(shape), Snap(Nodes(shape)), Model();
      if root == null {
        EmptyLinked(h, shape, lib.parent);
        up := lib.parent;
      }
      Spec.AddCorrect(t, k);
      Spec.AddInOrder(t, k);
      assert t.Leaf? ==> k !in Spec.InOrder(t) by { LeafHoldsNothing(k); }
      ghost var s', added;
      rc, root, s', added := lib.TreeAdd(root, k, ns, shape, up);
      OutcomeMeans(rc, Spec.Add(t, k), h, Snap(ns + added), shape, up, s', added);
      assert added == {} ==> ns + added == ns;
      shape := s';
      assert Nodes(shape) == ns + added;
      RootLinked(Snap(Nodes(shape)), shape, up);
    }
  }

  lemma EmptyLinked(h: Heap, s: Shape, up: Node?)
    requires Root(s) == null && Nodes(s) <= h.Keys
    ensures Linked(h, s, up)
  {
  }

  lemma RootLinked(h: Heap, s: Shape, up: Node?)
    requires Nodes(s) <= h.Keys && Linked(h, s, up)
    ensures s.Bin? ==> s.node in h && h[s.node].parent == up
  {
  }

  /** The keys left in order by adding a sequence of keys to an empty tree. */
  function Built(keys: seq<int>): seq<int> {
    if keys == [] then []
    else
      var s, k := Built(keys[..|keys| - 1]), keys[|keys| - 1];
      if k in s then s else Spec.Inserted(s, k)
  }

  /** They are the distinct keys, ascending. */
  lemma {:induction false} BuiltIsSortedSet(keys: seq<int>)
    ensures Spec.Sorted(Built(keys))
    ensures forall k :: k in Built(keys) <==> k in keys
  {
    if keys != [] {
      var front, k := keys[..|keys| - 1], keys[|keys| - 1];
      BuiltIsSortedSet(front);
      assert keys == front + [k];
      if k !in Built(front) {
        Spec.InsertedSorted(Built(front), k);
        Spec.InsertedKeys(Built(front), k);
        assert forall x :: x in Built(keys) <==> x in multiset(Built(keys));
      }
    }
  }

  /** The return codes along the way: -1 for a key seen before. */
  function Codes(keys: seq<int>): seq<int> {
    if keys == [] then []
    else
      var front, k := keys[..|keys| - 1], keys[|keys| - 1];
      Codes(front) + [if k in front then -1 else 0]
  }

  /** Any sequence of additions, duplicates included, to one new tree: every call meets a legal case,
      and the tree is a well-linked AVL tree of exactly the keys given. */
  method Build(keys: seq<int>) returns (t: Tree, lib: Library, codes: seq<int>)
    ensures t.Valid() && Spec.InOrder(t.Model()) == Built(keys) && codes == Codes(keys)
    ensures t.up == null && (t.root == null ==> lib.parent == null)
    ensures fresh(t) && fresh(lib) && fresh(Nodes(t.shape))
  {
    if keys == [] {
      lib := new Library();
      t := new Tree();
      return t, lib, [];
    }
    var front, k := keys[..|keys| - 1], keys[|keys| - 1];
    BuiltIsSortedSet(front);
    hide Tree.Valid, Tree.Model, Nodes, Spec.InOrder, Spec.Inserted;
    t, lib, codes := Build(front);
    ghost var before := Nodes(t.shape);
    var rc := t.Add(lib, k);
    assert Nodes(t.shape) <= before + (Nodes(t.shape) - before);
    codes := codes + [rc];
  }
}
