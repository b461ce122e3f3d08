/** AVL insertion as a function on trees: the client library's rebalancing rules, and what they
    guarantee. */
module AvlSpec {
  import opened BitStrings

  /** A binary tree whose nodes carry a key and the stored balance factor. */
  datatype Tree = Leaf | Node(left: Tree, key: int, bal: int, right: Tree)

  function Height(t: Tree): nat {
    match t
    case Leaf => 0
    case Node(l, _, _, r) => 1 + if Height(l) > Height(r) then Height(l) else Height(r)
  }

  /** The keys from left to right. */
  function InOrder(t: Tree): seq<int> {
    match t
    case Leaf => []
    case Node(l, k, _, r) => InOrder(l) + [k] + InOrder(r)
  }

  predicate Sorted(s: seq<int>) {
    forall i, j :: 0 <= i < j < |s| ==> s[i] < s[j]
  }

  /** Strict key order. */
  predicate Ordered(t: Tree) {
    Sorted(InOrder(t))
  }

  /** Every stored balance factor is the height difference, and at most one. */
  predicate Balanced(t: Tree) {
    match t
    case Leaf => true
    case Node(l, _, b, r) => Balanced(l) && Balanced(r) && b == Height(r) - Height(l) && -1 <= b <= 1
  }

  predicate IsAvl(t: Tree) { Ordered(t) && Balanced(t) }

  /** The outcome of an insertion: the new tree and whether its parent must check its balance, or
      a duplicate key. */
  datatype Outcome = Added(tree: Tree, grew: bool) | Duplicate

  function RotateLL(t: Tree): Tree
    requires t.Node? && t.left.Node?
  {
    var p := t.left;
    Node(p.left, p.key, 0, Node(p.right, t.key, 0, t.right))
  }

  function RotateRR(t: Tree): Tree
    requires t.Node? && t.right.Node?
  {
    var p := t.right;
    Node(Node(t.left, t.key, 0, p.left), p.key, 0, p.right)
  }

  function RotateLR(t: Tree): Tree
    requires t.Node? && t.left.Node? && t.left.right.Node?
  {
    var p, q := t.left, t.left.right;
    Node(Node(p.left, p.key, if q.bal == 1 then -1 else 0, q.left), q.key, 0,
         Node(q.right, t.key, if q.bal == -1 then 1 else 0, t.right))
  }

  function RotateRL(t: Tree): Tree
    requires t.Node? && t.right.Node? && t.right.left.Node?
  {
    var p, q := t.right, t.right.left;
    Node(Node(t.left, t.key, if q.bal == 1 then -1 else 0, q.left), q.key, 0,
         Node(q.right, p.key, if q.bal == -1 then 1 else 0, p.right))
  }

  /** After the left subtree of `t` (already replaced) has grown. */
  function FixLeft(t: Tree): (o: Outcome)
    requires t.Node? && -1 <= t.bal <= 1
    requires t.bal == -1 ==> t.left.Node? && (t.left.bal == -1 || (t.left.bal == 1 && t.left.right.Node?))
    ensures o.Added?
  {
    if t.bal == 1 then Added(t.(bal := 0), false)
    else if t.bal == 0 then Added(t.(bal := -1), true)
    else if t.left.bal == -1 then Added(RotateLL(t), false)
    else Added(RotateLR(t), false)
  }

  /** After the right subtree of `t` (already replaced) has grown. */
  function FixRight(t: Tree): (o: Outcome)
    requires t.Node? && -1 <= t.bal <= 1
    requires t.bal == 1 ==> t.right.Node? && (t.right.bal == 1 || (t.right.bal == -1 && t.right.left.Node?))
    ensures o.Added?
  {
    if t.bal == -1 then Added(t.(bal := 0), false)
    else if t.bal == 0 then Added(t.(bal := 1), true)
    else if t.right.bal == 1 then Added(RotateRR(t), false)
    else Added(RotateRL(t), false)
  }

  /** A subtree that grew by an insertion is never even (unless it is the new leaf), so the caller
      always finds one of the rotation cases. */
  ghost predicate GrownFrom(t: Tree, t': Tree) {
    && Balanced(t') && Height(t') == Height(t) + 1
    && t'.Node? && (t'.bal == 0 ==> t.Leaf?)
  }

  /** What a fixed-up tree promises, given the tree before the insertion. */
  ghost predicate Fixed(t: Tree, o: Outcome) {
    && o.Added?
    && Balanced(o.tree)
    && (!o.grew ==> Height(o.tree) == Height(t))
    && (o.grew ==> GrownFrom(t, o.tree))
  }

  /** Joining two balanced trees whose heights differ as the factor says. */
  lemma Join(l: Tree, k: int, b: int, r: Tree)
    requires Balanced(l) && Balanced(r) && b == Height(r) - Height(l) && -1 <= b <= 1
    ensures Balanced(Node(l, k, b, r))
    ensures Height(Node(l, k, b, r)) == 1 + if b < 0 then Height(l) else Height(r)
  {
  }

  lemma RotateLLBalanced(t: Tree)
    requires t.Node? && t.left.Node? && t.left.bal == -1
    requires Balanced(t.left) && Balanced(t.right) && Height(t.left) == Height(t.right) + 2
    ensures Balanced(RotateLL(t)) && Height(RotateLL(t)) == Height(t.left)
  {
    var p := t.left;
    Join(p.right, t.key, 0, t.right);
    Join(p.left, p.key, 0, Node(p.right, t.key, 0, t.right));
  }

  lemma RotateRRBalanced(t: Tree)
    requires t.Node? && t.right.Node? && t.right.bal == 1
    requires Balanced(t.left) && Balanced(t.right) && Height(t.right) == Height(t.left) + 2
    ensures Balanced(RotateRR(t)) && Height(RotateRR(t)) == Height(t.right)
  {
    var p := t.right;
    Join(t.left, t.key, 0, p.left);
    Join(Node(t.left, t.key, 0, p.left), p.key, 0, p.right);
  }

  lemma RotateLRBalanced(t: Tree)
    requires t.Node? && t.left.Node? && t.left.right.Node? && t.left.bal == 1
    requires Balanced(t.left) && Balanced(t.right) && Height(t.left) == Height(t.right) + 2
    ensures Balanced(RotateLR(t)) && Height(RotateLR(t)) == Height(t.left)
  {
    var p, q := t.left, t.left.right;
    var b1, b2 := if q.bal == 1 then -1 else 0, if q.bal == -1 then 1 else 0;
    assert Balanced(p.left) && Balanced(q) && Height(q) == Height(p) - 1 && Height(p.left) == Height(p) - 2;
    assert Balanced(q.left) && Balanced(q.right) && Height(q.right) - Height(q.left) == q.bal;
    Join(p.left, p.key, b1, q.left);
    Join(q.right, t.key, b2, t.right);
    Join(Node(p.left, p.key, b1, q.left), q.key, 0, Node(q.right, t.key, b2, t.right));
  }

  lemma RotateRLBalanced(t: Tree)
    requires t.Node? && t.right.Node? && t.right.left.Node? && t.right.bal == -1
    requires Balanced(t.left) && Balanced(t.right) && Height(t.right) == Height(t.left) + 2
    ensures Balanced(RotateRL(t)) && Height(RotateRL(t)) == Height(t.right)
  {
    var p, q := t.right, t.right.left;
    var b1, b2 := if q.bal == 1 then -1 else 0, if q.bal == -1 then 1 else 0;
    assert Balanced(p.right) && Balanced(q) && Height(q) == Height(p) - 1 && Height(p.right) == Height(p) - 2;
    assert Balanced(q.left) && Balanced(q.right) && Height(q.right) - Height(q.left) == q.bal;
    Join(t.left, t.key, b1, q.left);
    Join(q.right, p.key, b2, p.right);
    Join(Node(t.left, t.key, b1, q.left), q.key, 0, Node(q.right, p.key, b2, p.right));
  }

  /** The grown child is never even when its parent already leans its way, so the fall-through of
      the balance switch is never reached, and the fixed tree is balanced again. */
  lemma LeftGrew(t: Tree, left: Tree)
    requires t.Node? && Balanced(t) && GrownFrom(t.left, left)
    ensures t.bal == -1 ==> left.bal == -1 || (left.bal == 1 && left.right.Node?)
    ensures Fixed(t, FixLeft(t.(left := left)))
  {
    var t' := t.(left := left);
    if t.bal == -1 {
      assert t.left.Node?;
      assert Height(left) == Height(t) == Height(t.right) + 2;
      if left.bal == -1 { RotateLLBalanced(t'); } else { RotateLRBalanced(t'); }
    }
  }

  lemma RightGrew(t: Tree, right: Tree)
    requires t.Node? && Balanced(t) && GrownFrom(t.right, right)
    ensures t.bal == 1 ==> right.bal == 1 || (right.bal == -1 && right.left.Node?)
    ensures Fixed(t, FixRight(t.(right := right)))
  {
    var t' := t.(right := right);
    if t.bal == 1 {
      assert t.right.Node?;
      assert Height(right) == Height(t) == Height(t.left) + 2;
      if right.bal == 1 { RotateRRBalanced(t'); } else { RotateRLBalanced(t'); }
    }
  }

  /** The tree with `k` inserted. */
  function Add(t: Tree, k: int): (o: Outcome)
    requires Balanced(t)
    ensures o.Added? ==> Fixed(t, o)
  {
    if t.Leaf? then Added(Node(Leaf, k, 0, Leaf), true)
    else if t.key > k then AddLeft(t, Add(t.left, k))
    else if t.key < k then AddRight(t, Add(t.right, k))
    else Duplicate
  }

  function AddLeft(t: Tree, o: Outcome): (r: Outcome)
    requires t.Node? && Balanced(t) && (o.Added? ==> Fixed(t.left, o))
    ensures r.Added? ==> Fixed(t, r)
  {
    if o.Duplicate? then Duplicate
    else if !o.grew then Added(t.(left := o.tree), false)
    else LeftGrew(t, o.tree); FixLeft(t.(left := o.tree))
  }

  function AddRight(t: Tree, o: Outcome): (r: Outcome)
    requires t.Node? && Balanced(t) && (o.Added? ==> Fixed(t.right, o))
    ensures r.Added? ==> Fixed(t, r)
  {
    if o.Duplicate? then Duplicate
    else if !o.grew then Added(t.(right := o.tree), false)
    else RightGrew(t, o.tree); FixRight(t.(right := o.tree))
  }

  /** Rotations keep the keys in place. */
  lemma FixLeftInOrder(t: Tree)
    requires FixLeft.requires(t)
    ensures InOrder(FixLeft(t).tree) == InOrder(t)
  {
    if t.bal == -1 {
      var p := t.left;
      assert InOrder(t) == InOrder(p.left) + [p.key] + InOrder(p.right) + [t.key] + InOrder(t.right);
    }
  }

  lemma FixRightInOrder(t: Tree)
    requires FixRight.requires(t)
    ensures InOrder(FixRight(t).tree) == InOrder(t)
  {
    if t.bal == 1 {
      var p := t.right;
      assert InOrder(t) == InOrder(t.left) + [t.key] + (InOrder(p.left) + [p.key] + InOrder(p.right));
    }
  }

  /** `s` with `k` put in its place. */
  function Inserted(s: seq<int>, k: int): seq<int> {
    if s == [] then [k] else if s[0] > k then [k] + s else [s[0]] + Inserted(s[1..], k)
  }

  lemma {:induction false} InsertedKeys(s: seq<int>, k: int)
    ensures multiset(Inserted(s, k)) == multiset(s) + multiset{k}
  {
    if s != [] && s[0] <= k {
      assert s == [s[0]] + s[1..];
      InsertedKeys(s[1..], k);
    }
  }

  lemma SortedCons(x: int, s: seq<int>)
    requires Sorted(s) && (s != [] ==> x < s[0])
    ensures Sorted([x] + s)
  {
  }

  lemma {:induction false} InsertedSorted(s: seq<int>, k: int)
    requires Sorted(s) && k !in s
    ensures Sorted(Inserted(s, k))
  {
    if s == [] {
    } else if s[0] > k {
      SortedCons(k, s);
    } else {
      InsertedSorted(s[1..], k);
      SortedCons(s[0], Inserted(s[1..], k));
    }
  }

  lemma {:induction false} InsertedLeft(l: seq<int>, x: int, r: seq<int>, k: int)
    requires k < x
    ensures Inserted(l + [x] + r, k) == Inserted(l, k) + [x] + r
  {
    if l != [] && l[0] <= k {
      assert (l + [x] + r)[1..] == l[1..] + [x] + r;
      InsertedLeft(l[1..], x, r, k);
    }
  }

  lemma {:induction false} InsertedRight(l: seq<int>, x: int, r: seq<int>, k: int)
    requires Sorted(l + [x]) && x < k
    ensures Inserted(l + [x] + r, k) == l + [x] + Inserted(r, k)
  {
    var s := l + [x] + r;
    if l == [] {
      assert s[1..] == r;
    } else {
      assert (l + [x])[0] < (l + [x])[|l|];
      assert s[1..] == l[1..] + [x] + r;
      assert l[1..] + [x] == (l + [x])[1..];
      InsertedRight(l[1..], x, r, k);
    }
  }

  lemma OrderedParts(t: Tree)
    requires t.Node? && Ordered(t)
    ensures Ordered(t.left) && Ordered(t.right) && Sorted(InOrder(t.left) + [t.key])
    ensures forall x :: x in InOrder(t.left) ==> x < t.key
    ensures forall x :: x in InOrder(t.right) ==> x > t.key
  {
    var s, l, r := InOrder(t), InOrder(t.left), InOrder(t.right);
    assert s[..|l|] == l && s[|l|] == t.key && s[|l| + 1..] == r && s[..|l| + 1] == l + [t.key];
  }

  /** Insertion refuses exactly the keys already present; any other key is put in its place among
      the old ones. */
  lemma {:induction false} AddInOrder(t: Tree, k: int)
    requires Balanced(t) && Ordered(t)
    ensures Add(t, k).Duplicate? <==> k in InOrder(t)
    ensures Add(t, k).Added? ==> InOrder(Add(t, k).tree) == Inserted(InOrder(t), k)
  {
    if t.Node? {
      OrderedParts(t);
      if t.key > k {
        AddInOrder(t.left, k);
        InsertedLeft(InOrder(t.left), t.key, InOrder(t.right), k);
        var o := Add(t.left, k);
        if o.Added? && o.grew { LeftGrew(t, o.tree); FixLeftInOrder(t.(left := o.tree)); }
      } else if t.key < k {
        AddInOrder(t.right, k);
        InsertedRight(InOrder(t.left), t.key, InOrder(t.right), k);
        var o := Add(t.right, k);
        if o.Added? && o.grew { RightGrew(t, o.tree); FixRightInOrder(t.(right := o.tree)); }
      }
    }
  }

  /** Insertion keeps a tree an AVL tree, and adds exactly its key. */
  lemma AddCorrect(t: Tree, k: int)
    requires IsAvl(t)
    ensures Add(t, k).Duplicate? <==> k in InOrder(t)
    ensures Add(t, k).Added? ==>
      var t' := Add(t, k).tree;
      IsAvl(t') && multiset(InOrder(t')) == multiset(InOrder(t)) + multiset{k}
  {
    AddInOrder(t, k);
    if Add(t, k).Added? { InsertedSorted(InOrder(t), k); InsertedKeys(InOrder(t), k); }
  }

  /** Height is logarithmic in size: a balanced tree of height h has at least 2^(h/2) - 1 nodes. */
  lemma {:induction false} HeightLogarithmic(t: Tree)
    requires Balanced(t)
    ensures Pow2(Height(t) / 2) <= |InOrder(t)| + 1
  {
    if t.Node? {
      HeightLogarithmic(t.left);
      HeightLogarithmic(t.right);
      var h := Height(t);
      var low := if Height(t.left) < Height(t.right) then Height(t.left) else Height(t.right);
      if h >= 2 {
        assert low >= h - 2;
        assert Pow2(h / 2) == 2 * Pow2(h / 2 - 1);
        Pow2Monotone((h - 2) / 2, Height(t.left) / 2);
        Pow2Monotone((h - 2) / 2, Height(t.right) / 2);
      }
    }
  }
}
