/** The skew heap as the code has it: nodes linked by parent, left and right pointers that are rewritten in place. */
module SkewHeap {
  import opened SkewTree

  class Node {
    var parent: Node?
    var left: Node?
    var right: Node?

    /** skew_heap_init */
    method Init()
      modifies this
      ensures parent == null && left == null && right == null
    {
      left, right, parent := null, null, null;
    }
  }

  /** The pointers below `p` form `t`, and every child points back to its parent. */
  ghost predicate Linked(p: Node?, t: Tree<Node>)
    reads Nodes(t)
    decreases t
  {
    match t
    case Nil => p == null
    case Root(l, n, r) =>
      && p == n && Linked(n.left, l) && Linked(n.right, r)
      && (l.Root? ==> l.node.parent == n) && (r.Root? ==> r.node.parent == n)
  }

  /** Linked nodes exist. */
  lemma {:induction false} Exist(p: Node?, t: Tree<Node>)
    requires Linked(p, t)
    ensures forall n :: n in Nodes(t) ==> allocated(n)
    decreases t
  {
    if t.Root? {
      Exist(t.node.left, t.left);
      Exist(t.node.right, t.right);
    }
  }

  /** A whole heap: nobody is above the root. */
  ghost predicate Heap(p: Node?, t: Tree<Node>)
    reads Nodes(t)
  {
    Linked(p, t) && Distinct(t) && (t.Root? ==> t.node.parent == null)
  }

  /** The root keeps whatever parent it had. */
  method Merge(a: Node?, b: Node?, comp: (Node, Node) -> int, ghost ta: Tree<Node>, ghost tb: Tree<Node>)
    returns (r: Node?, ghost calls: nat)
    requires Linked(a, ta) && Linked(b, tb)
    requires Distinct(ta) && Distinct(tb) && Nodes(ta) !! Nodes(tb)
    modifies Nodes(ta) + Nodes(tb)
    ensures Linked(r, SkewTree.Merge(comp, ta, tb)) && Distinct(SkewTree.Merge(comp, ta, tb))
    ensures r != null ==> r.parent == old(r.parent)
    ensures calls == Calls(comp, ta, tb)
    decreases Size(ta) + Size(tb)
  {
    calls := 1;
    Exist(a, ta);
    Exist(b, tb);
    if a == null {
      r := b;
    } else if b == null {
      r := a;
    } else if comp(a, b) == -1 {
      ghost var m := SkewTree.Merge(comp, ta.right, tb);
      MergeKeepsDistinct(comp, ta.right, tb);
      var l;
      r := a.left;
      l, calls := Merge(a.right, b, comp, ta.right, tb);
      Hook(a, l, r, m, ta.left);
      r, calls := a, calls + 1;
    } else {
      ghost var m := SkewTree.Merge(comp, ta, tb.right);
      MergeKeepsDistinct(comp, ta, tb.right);
      var l;
      r := b.left;
      l, calls := Merge(a, b.right, comp, ta, tb.right);
      Hook(b, l, r, m, tb.left);
      r, calls := b, calls + 1;
    }
  }

  /** `n` gets two new subtrees; the left one, which may have moved, is pointed back to it. */
  method Hook(n: Node, l: Node?, r: Node?, ghost tl: Tree<Node>, ghost tr: Tree<Node>)
    requires Linked(l, tl) && Linked(r, tr) && (r != null ==> r.parent == n)
    requires Distinct(Root(tl, n, tr))
    modifies n, l
    ensures Linked(n, Root(tl, n, tr)) && n.parent == old(n.parent)
    ensures l != null ==> l.left == old(l.left) && l.right == old(l.right)
  {
    Exist(l, tl);
    Exist(r, tr);
    n.left := l;
    n.right := r;
    if l != null {
      l.parent := n;
    }
  }

  method Insert(a: Node?, b: Node, comp: (Node, Node) -> int, ghost t: Tree<Node>)
    returns (r: Node?, ghost calls: nat)
    requires Heap(a, t) && b !in Nodes(t)
    modifies Nodes(t) + {b}
    ensures Heap(r, SkewTree.Insert(comp, t, b)) && calls == Calls(comp, t, Single(b))
  {
    Exist(a, t);
    b.Init();
    assert Nodes(Single(b)) == {b};
    assert Linked(null, Nil) && Linked(b, Single(b));
    MergeKeepsDistinct(comp, t, Single(b));
    r, calls := Merge(a, b, comp, t, Single(b));
  }

  // ----- removal

  /** The subtree whose root is `b`. */
  ghost function Below(t: Tree<Node>, b: Node): (r: Tree<Node>)
    ensures b in Nodes(t) ==> r.Root? && r.node == b
  {
    match t
    case Nil => Nil
    case Root(l, n, r) => if n == b then t else if b in Nodes(l) then Below(l, b) else Below(r, b)
  }

  /** What lies around a subtree: the way up to the root, with the subtrees hanging off on the other side. */
  datatype Around = Top | Side(left: bool, node: Node, other: Tree<Node>, up: Around)

  ghost function Outside(c: Around): set<Node> {
    match c
    case Top => {}
    case Side(_, n, o, up) => {n} + Nodes(o) + Outside(up)
  }

  ghost function Plug(c: Around, t: Tree<Node>): Tree<Node> {
    match c
    case Top => t
    case Side(left, n, o, up) => Plug(up, if left then Root(t, n, o) else Root(o, n, t))
  }

  ghost function Parent(c: Around): Node? {
    if c.Top? then null else c.node
  }

  ghost function Apex(c: Around, p: Node?): Node? {
    if c.Top? then p else Apex(c.up, c.node)
  }

  /** The pointers around a subtree whose root is `p`. */
  ghost predicate Hung(c: Around, p: Node?)
    reads Outside(c)
  {
    match c
    case Top => true
    case Side(left, n, o, up) =>
      && (if left then n.left == p && Linked(n.right, o) else n.right == p && Linked(n.left, o))
      && (o.Root? ==> o.node.parent == n) && n.parent == Parent(up) && Hung(up, n)
  }

  ghost predicate Apart(c: Around) {
    c.Side? ==> c.node !in Nodes(c.other) && c.node !in Outside(c.up) && Nodes(c.other) !! Outside(c.up) && Apart(c.up)
  }

  /** What is around `b` in `t`, when `c` is around `t`. */
  ghost function Place(t: Tree<Node>, b: Node, c: Around): Around {
    match t
    case Nil => c
    case Root(l, n, r) =>
      if n == b then c
      else if b in Nodes(l) then Place(l, b, Side(true, n, r, c))
      else Place(r, b, Side(false, n, l, c))
  }

  /** One step down: what is around a subtree is around its child, with the other child hanging off. */
  lemma Descend(t: Tree<Node>, left: bool, c: Around)
    requires t.Root? && Linked(t.node, t) && Distinct(t) && Hung(c, t.node) && t.node.parent == Parent(c)
    requires Apart(c) && Nodes(t) !! Outside(c)
    ensures var (sub, p) := if left then (t.left, t.node.left) else (t.right, t.node.right);
      var d := Side(left, t.node, if left then t.right else t.left, c);
      && Linked(p, sub) && Distinct(sub) && Hung(d, p) && (sub.Root? ==> sub.node.parent == Parent(d))
      && Apart(d) && Nodes(sub) !! Outside(d) && Outside(d) + Nodes(sub) == Outside(c) + Nodes(t)
  {
  }

  /** The pointers of a node tell its place in the heap. */
  lemma {:induction false} Located(p: Node?, t: Tree<Node>, b: Node, c: Around)
    requires Linked(p, t) && Distinct(t) && b in Nodes(t) && Hung(c, p) && t.node.parent == Parent(c)
    requires Apart(c) && Nodes(t) !! Outside(c)
    ensures Linked(b, Below(t, b)) && Distinct(Below(t, b))
    ensures Hung(Place(t, b, c), b) && b.parent == Parent(Place(t, b, c))
    ensures Apart(Place(t, b, c)) && Nodes(Below(t, b)) !! Outside(Place(t, b, c))
    ensures Outside(Place(t, b, c)) + Nodes(Below(t, b)) == Outside(c) + Nodes(t)
    ensures Apex(Place(t, b, c), b) == Apex(c, p)
    decreases t
  {
    assert p == t.node && (b == p || b in Nodes(t.left) || b in Nodes(t.right));
    hide Hung, Apart, Distinct, Outside, Linked, Parent;
    if b != t.node {
      if b in Nodes(t.left) {
        Descend(t, true, c);
        Located(t.node.left, t.left, b, Side(true, t.node, t.right, c));
      } else {
        Descend(t, false, c);
        Located(t.node.right, t.right, b, Side(false, t.node, t.left, c));
      }
    }
  }

  /** parent is the inverse of left and right, and only the root has none. */
  lemma Inverse(p: Node?, t: Tree<Node>, x: Node)
    requires Heap(p, t) && x in Nodes(t)
    ensures x.parent == null <==> x == p
    ensures x.parent != null ==> x.parent in Nodes(t) && (x.parent.left == x <==> x.parent.right != x)
    ensures x.left != null ==> x.left in Nodes(t) && x.left.parent == x
    ensures x.right != null ==> x.right in Nodes(t) && x.right.parent == x
  {
    Located(p, t, x, Top);
    var sub, c := Below(t, x), Place(t, x, Top);
    assert sub == Root(sub.left, x, sub.right) && Linked(x, sub);
    assert c.Side? ==> c.node in Outside(c);
  }

  /** Putting the merged halves in its place is removing the node. */
  lemma {:induction false} PlugRemoves(comp: (Node, Node) -> int, t: Tree<Node>, b: Node, c: Around)
    requires b in Nodes(t)
    ensures var sub := Below(t, b);
      Plug(Place(t, b, c), SkewTree.Merge(comp, sub.left, sub.right)) == Plug(c, SkewTree.Remove(comp, t, b))
    decreases t
  {
    if b != t.node {
      if b in Nodes(t.left) {
        PlugRemoves(comp, t.left, b, Side(true, t.node, t.right, c));
      } else {
        PlugRemoves(comp, t.right, b, Side(false, t.node, t.left, c));
      }
    }
  }

  lemma {:induction false} PlugLinked(c: Around, p: Node?, t: Tree<Node>)
    requires Hung(c, p) && Linked(p, t) && (t.Root? ==> t.node.parent == Parent(c))
    ensures Linked(Apex(c, p), Plug(c, t)) && (Plug(c, t).Root? ==> Plug(c, t).node.parent == null)
    decreases c
  {
    if c.Side? {
      PlugLinked(c.up, c.node, if c.left then Root(t, c.node, c.other) else Root(c.other, c.node, t));
    }
  }

  lemma {:induction false} ExistAround(c: Around, p: Node?)
    requires Hung(c, p)
    ensures forall n :: n in Outside(c) ==> allocated(n)
    decreases c
  {
    if c.Side? {
      Exist(if c.left then c.node.right else c.node.left, c.other);
      ExistAround(c.up, c.node);
    }
  }

  /** The pointer that leads down from what is around to `b` now leads to `rep`. */
  method Redirect(p: Node, b: Node, rep: Node?, ghost c: Around, ghost m: Tree<Node>)
    requires c.Side? && p == c.node && Apart(c) && Hung(c, b) && b !in Outside(c)
    requires Linked(rep, m) && Nodes(m) !! Outside(c)
    modifies p
    ensures Hung(c, rep) && Linked(rep, m) && p.parent == old(p.parent)
  {
    Exist(rep, m);
    ExistAround(c, b);
    Exist(if c.left then p.right else p.left, c.other);
    if p.left == b {
      p.left := rep;
    } else {
      p.right := rep;
    }
  }

  /** `rep` takes the place of `b` below `p`: one parent pointer and one child pointer change. */
  method Replace(p: Node?, b: Node, rep: Node?, ghost c: Around, ghost m: Tree<Node>)
    requires p == Parent(c) && Apart(c) && Hung(c, b) && b !in Outside(c)
    requires Linked(rep, m) && Distinct(m) && Nodes(m) !! Outside(c)
    modifies p, rep
    ensures Hung(c, rep) && Linked(rep, m) && (m.Root? ==> m.node.parent == p)
    ensures p != null ==> p.parent == old(p.parent)
  {
    Exist(rep, m);
    ExistAround(c, b);
    if rep != null {
      rep.parent := p;
    }
    assert Linked(rep, m) && Hung(c, b) && (m.Root? ==> m.node in Nodes(m) && m.node.parent == p);
    if p != null {
      assert p in Outside(c);
      Redirect(p, b, rep, c, m);
    }
  }

  method Remove(a: Node?, b: Node, comp: (Node, Node) -> int, ghost t: Tree<Node>)
    returns (r: Node?, ghost calls: nat)
    requires Heap(a, t) && b in Nodes(t)
    modifies Nodes(t) - {b}
    ensures Heap(r, SkewTree.Remove(comp, t, b))
    ensures calls == Calls(comp, Below(t, b).left, Below(t, b).right)
  {
    ghost var sub, c := Below(t, b), Place(t, b, Top);
    ghost var m := SkewTree.Merge(comp, sub.left, sub.right);
    Exist(a, t);
    Located(a, t, b, Top);
    MergeKeepsDistinct(comp, sub.left, sub.right);
    RemoveTakesOne(comp, t, b);
    PlugRemoves(comp, t, b, Top);
    assert sub.Root? && Linked(b.left, sub.left) && Linked(b.right, sub.right) && b !in Outside(c);
    assert Apex(c, b) == a;
    hide Below, Place, SkewTree.Remove, Distinct, SkewTree.Merge, Hung, Linked, Apart;
    var p := b.parent;
    var rep;
    rep, calls := Merge(b.left, b.right, comp, sub.left, sub.right);
    Replace(p, b, rep, c, m);
    PlugLinked(c, rep, m);
    r := if p != null then a else rep;
  }

  /**
   * Any run of inserts and removals on one heap. With a comparator that orders `all`, the heap is left with
   * exactly the expected nodes and none less than the root; with one that compares keys, the root's key is least.
   */
  method Run(a: Node?, es: seq<Edit<Node>>, comp: (Node, Node) -> int, ghost t: Tree<Node>, ghost all: set<Node>,
             ghost key: Node -> int)
    returns (r: Node?)
    requires Heap(a, t) && Nodes(t) <= all && Legal(Nodes(t), es, all)
    modifies all
    ensures Heap(r, Edited(comp, t, es))
    ensures Ordered(comp, t) && Asymmetric(comp, all) && NegTransitive(comp, all) ==>
      && Nodes(Edited(comp, t, es)) == Members(Nodes(t), es)
      && forall x :: x in Members(Nodes(t), es) ==> r != null && (x == r || comp(x, r) != -1)
    ensures Ordered(comp, t) && ByKey(comp, key, all) ==>
      forall x :: x in Members(Nodes(t), es) ==> r != null && key(r) <= key(x)
  {
    r := a;
    ghost var u := t;
    var k := 0;
    ghost var calls;
    while k < |es|
      invariant k <= |es| && Heap(r, u) && Nodes(u) <= all && Legal(Nodes(u), es[k..], all)
      invariant Edited(comp, u, es[k..]) == Edited(comp, t, es)
    {
      assert es[k..][0] == es[k] && es[k..][1..] == es[k + 1..];
      if es[k].Add? {
        InsertNodes(comp, u, es[k].n);
        r, calls := Insert(r, es[k].n, comp, u);
        u := SkewTree.Insert(comp, u, es[k].n);
      } else {
        RemoveTakesOne(comp, u, es[k].n);
        r, calls := Remove(r, es[k].n, comp, u);
        u := SkewTree.Remove(comp, u, es[k].n);
      }
      k := k + 1;
    }
    assert u == Edited(comp, t, es);
    if Ordered(comp, t) && Asymmetric(comp, all) && NegTransitive(comp, all) {
      EditsOk(comp, t, es, all);
    }
    if Ordered(comp, t) && ByKey(comp, key, all) {
      LeastKey(comp, key, t, es, all);
    }
  }

  lemma InsertNodes(comp: (Node, Node) -> int, t: Tree<Node>, n: Node)
    ensures Nodes(SkewTree.Insert(comp, t, n)) == Nodes(t) + {n}
  {
    assert Nodes(Single(n)) == {n};
    MergeKeepsNodes(comp, t, Single(n));
  }

  /** Only nodes from `all` that are not in the heap are pushed. */
  ghost predicate Pushable(comp: (Node, Node) -> int, t: Tree<Node>, ops: seq<Op<Node>>, all: set<Node>)
    decreases |ops|
  {
    ops == [] || (
      && (ops[0].Push? ==> ops[0].n in all && ops[0].n !in Nodes(t))
      && Pushable(comp, Step(comp, t, ops[0]), ops[1..], all))
  }

  lemma StepNodes(comp: (Node, Node) -> int, t: Tree<Node>, op: Op<Node>)
    ensures Nodes(Step(comp, t, op)) <= Nodes(t) + if op.Push? then {op.n} else {}
  {
    if op.Push? {
      InsertNodes(comp, t, op.n);
    } else if t.Root? {
      MergeKeepsNodes(comp, t.left, t.right);
    }
  }

  /**
   * A priority queue at work: any run of inserts and removals of the root. All calls of skew_heap_merge together
   * are at most 1 + 3 log2(n + 1) for each operation, n being the nodes there were and those pushed, and what the
   * potential of the first heap adds.
   */
  method RunQueue(a: Node?, ops: seq<Op<Node>>, comp: (Node, Node) -> int, ghost t: Tree<Node>, ghost all: set<Node>)
    returns (r: Node?, ghost calls: nat)
    requires Heap(a, t) && Nodes(t) <= all && Pushable(comp, t, ops, all)
    modifies all
    ensures Heap(r, SkewTree.Run(comp, t, ops)) && calls == RunCalls(comp, t, ops)
    ensures calls <= Potential(t) + |ops| * (1 + 3 * Log2(Size(t) + Pushes(ops) + 1))
    ensures a == null ==> calls <= |ops| * (1 + 3 * Log2(Pushes(ops) + 1))
  {
    hide Potential, Log2, Pushes, Distinct, Calls, SkewTree.Merge;
    r, calls := a, 0;
    ghost var u := t;
    var k := 0;
    while k < |ops|
      invariant k <= |ops| && Heap(r, u) && Nodes(u) <= all && Pushable(comp, u, ops[k..], all)
      invariant SkewTree.Run(comp, u, ops[k..]) == SkewTree.Run(comp, t, ops)
      invariant calls + RunCalls(comp, u, ops[k..]) == RunCalls(comp, t, ops)
    {
      assert ops[k..][0] == ops[k] && ops[k..][1..] == ops[k + 1..];
      StepNodes(comp, u, ops[k]);
      ghost var c := 0;
      match ops[k] {
        case Push(n) => r, c := Insert(r, n, comp, u);
        case Pop =>
          if r != null {
            r, c := Remove(r, r, comp, u);
          }
      }
      u, calls := Step(comp, u, ops[k]), calls + c;
      k := k + 1;
    }
    RunCost(comp, t, ops, Size(t) + Pushes(ops), 1 + 3 * Log2(Size(t) + Pushes(ops) + 1));
    if a == null {
      QueueCost(comp, ops);
    }
  }
}
