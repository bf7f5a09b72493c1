/** The shape of a skew heap as a value: what each operation makes of it, its order, its cost. */
module SkewTree {
  import opened Basics

  datatype Tree<N> = Nil | Root(left: Tree<N>, node: N, right: Tree<N>)

  /** Only -1 counts as "less", no other negative result. */
  predicate Less<N>(comp: (N, N) -> int, a: N, b: N) {
    comp(a, b) == -1
  }

  function Merge<N>(comp: (N, N) -> int, a: Tree<N>, b: Tree<N>): Tree<N>
    decreases Size(a) + Size(b)
  {
    if a.Nil? then b
    else if b.Nil? then a
    else if Less(comp, a.node, b.node) then Root(Merge(comp, a.right, b), a.node, a.left)
    else Root(Merge(comp, a, b.right), b.node, b.left)
  }

  function Single<N>(n: N): Tree<N> {
    Root(Nil, n, Nil)
  }

  function Insert<N>(comp: (N, N) -> int, t: Tree<N>, n: N): Tree<N> {
    Merge(comp, t, Single(n))
  }

  /** The subtree below `b` gives way to the merge of its two halves. */
  ghost function Remove<N>(comp: (N, N) -> int, t: Tree<N>, b: N): Tree<N> {
    match t
    case Nil => Nil
    case Root(l, n, r) =>
      if n == b then Merge(comp, l, r)
      else if b in Nodes(l) then Root(Remove(comp, l, b), n, r)
      else Root(l, n, Remove(comp, r, b))
  }

  function Size<N>(t: Tree<N>): nat {
    match t
    case Nil => 0
    case Root(l, _, r) => Size(l) + 1 + Size(r)
  }

  ghost function Nodes<N>(t: Tree<N>): set<N> {
    match t
    case Nil => {}
    case Root(l, n, r) => Nodes(l) + {n} + Nodes(r)
  }

  /** Every occurrence counts. */
  ghost function Bag<N>(t: Tree<N>): multiset<N> {
    match t
    case Nil => multiset{}
    case Root(l, n, r) => Bag(l) + multiset{n} + Bag(r)
  }

  /** No node occurs twice. */
  ghost predicate Distinct<N>(t: Tree<N>) {
    match t
    case Nil => true
    case Root(l, n, r) => Distinct(l) && Distinct(r) && n !in Nodes(l) && n !in Nodes(r) && Nodes(l) !! Nodes(r)
  }

  // ----- shape

  /** The first tree's root stays on top if it is less, the second one's otherwise; two nodes form a left branch. */
  lemma MergeShape<N>(comp: (N, N) -> int, a: Tree<N>, b: Tree<N>, x: N, y: N)
    ensures Merge(comp, a, Nil) == a && Merge(comp, Nil, b) == b
    ensures a.Root? && b.Root? ==>
      Merge(comp, a, b).Root? && Merge(comp, a, b).node == if comp(a.node, b.node) == -1 then a.node else b.node
    ensures Merge(comp, Single(x), Single(y))
         == if comp(x, y) == -1 then Root(Single(y), x, Nil) else Root(Single(x), y, Nil)
  {
    assert Merge(comp, Nil, Single(y)) == Single(y) && Merge(comp, Single(x), Nil) == Single(x);
  }

  /** A new node goes on top of one that is not less; a root gives way to its left child if that is less. */
  lemma NewRoots<N>(comp: (N, N) -> int, t: Tree<N>, n: N)
    ensures Insert(comp, t, n).Root?
    ensures Insert(comp, t, n).node == if t.Root? && comp(t.node, n) == -1 then t.node else n
    ensures t.Root? && t.left.Root? && t.right.Root? ==>
      var r := Remove(comp, t, t.node);
      r.Root? && r.node == if comp(t.left.node, t.right.node) == -1 then t.left.node else t.right.node
  {
  }

  // ----- conservation

  lemma {:induction false} MergeKeepsBag<N>(comp: (N, N) -> int, a: Tree<N>, b: Tree<N>)
    ensures Bag(Merge(comp, a, b)) == Bag(a) + Bag(b)
    decreases Size(a) + Size(b)
  {
    if !a.Nil? && !b.Nil? {
      if Less(comp, a.node, b.node) {
        MergeKeepsBag(comp, a.right, b);
      } else {
        MergeKeepsBag(comp, a, b.right);
      }
    }
  }

  lemma {:induction false} MergeKeepsNodes<N>(comp: (N, N) -> int, a: Tree<N>, b: Tree<N>)
    ensures Nodes(Merge(comp, a, b)) == Nodes(a) + Nodes(b)
    decreases Size(a) + Size(b)
  {
    if !a.Nil? && !b.Nil? {
      if Less(comp, a.node, b.node) {
        MergeKeepsNodes(comp, a.right, b);
      } else {
        MergeKeepsNodes(comp, a, b.right);
      }
    }
  }

  lemma {:induction false} MergeKeepsDistinct<N>(comp: (N, N) -> int, a: Tree<N>, b: Tree<N>)
    requires Distinct(a) && Distinct(b) && Nodes(a) !! Nodes(b)
    ensures Distinct(Merge(comp, a, b)) && Nodes(Merge(comp, a, b)) == Nodes(a) + Nodes(b)
    decreases Size(a) + Size(b)
  {
    MergeKeepsNodes(comp, a, b);
    if !a.Nil? && !b.Nil? {
      if Less(comp, a.node, b.node) {
        MergeKeepsDistinct(comp, a.right, b);
        JoinDistinct(Merge(comp, a.right, b), a.node, a.left);
      } else {
        MergeKeepsDistinct(comp, a, b.right);
        JoinDistinct(Merge(comp, a, b.right), b.node, b.left);
      }
    }
  }

  lemma JoinDistinct<N>(l: Tree<N>, n: N, r: Tree<N>)
    requires Distinct(l) && Distinct(r) && n !in Nodes(l) && n !in Nodes(r) && Nodes(l) !! Nodes(r)
    ensures Distinct(Root(l, n, r))
  {
  }

  /** Exactly one node goes. */
  lemma {:induction false} RemoveTakesOne<N>(comp: (N, N) -> int, t: Tree<N>, b: N)
    requires Distinct(t) && b in Nodes(t)
    ensures Nodes(Remove(comp, t, b)) == Nodes(t) - {b} && Distinct(Remove(comp, t, b))
  {
    if t.node == b {
      MergeKeepsDistinct(comp, t.left, t.right);
    } else if b in Nodes(t.left) {
      RemoveTakesOne(comp, t.left, b);
    } else {
      RemoveTakesOne(comp, t.right, b);
    }
  }

  // ----- order

  /** No node is less than the one above it. */
  predicate Ordered<N>(comp: (N, N) -> int, t: Tree<N>) {
    match t
    case Nil => true
    case Root(l, n, r) => Above(comp, n, l) && Above(comp, n, r) && Ordered(comp, l) && Ordered(comp, r)
  }

  predicate Above<N>(comp: (N, N) -> int, n: N, t: Tree<N>) {
    t.Root? ==> comp(t.node, n) != -1
  }

  /** No two different nodes are each less than the other. */
  ghost predicate Asymmetric<N>(comp: (N, N) -> int, s: set<N>) {
    forall x, y :: x in s && y in s && x != y && comp(x, y) == -1 ==> comp(y, x) != -1
  }

  ghost predicate NegTransitive<N>(comp: (N, N) -> int, s: set<N>) {
    forall x, y, z ::
      x in s && y in s && z in s && x != z && comp(x, y) != -1 && comp(y, z) != -1 ==> comp(x, z) != -1
  }

  lemma {:induction false} MergeKeepsOrder<N>(comp: (N, N) -> int, a: Tree<N>, b: Tree<N>)
    requires Ordered(comp, a) && Ordered(comp, b) && Nodes(a) !! Nodes(b) && Asymmetric(comp, Nodes(a) + Nodes(b))
    ensures Ordered(comp, Merge(comp, a, b))
    decreases Size(a) + Size(b)
  {
    if !a.Nil? && !b.Nil? {
      if Less(comp, a.node, b.node) {
        MergeKeepsOrder(comp, a.right, b);
      } else {
        MergeKeepsOrder(comp, a, b.right);
      }
    }
  }

  lemma {:induction false} RemoveKeepsOrder<N>(comp: (N, N) -> int, t: Tree<N>, b: N)
    requires Ordered(comp, t) && Distinct(t) && b in Nodes(t)
    requires Asymmetric(comp, Nodes(t)) && NegTransitive(comp, Nodes(t))
    ensures Ordered(comp, Remove(comp, t, b))
  {
    if t.node == b {
      MergeKeepsOrder(comp, t.left, t.right);
    } else if b in Nodes(t.left) {
      RemoveKeepsOrder(comp, t.left, b);
      RemoveTakesOne(comp, t.left, b);
    } else {
      RemoveKeepsOrder(comp, t.right, b);
      RemoveTakesOne(comp, t.right, b);
    }
  }

  /** The root of an ordered tree is a minimum. */
  lemma {:induction false} RootIsLeast<N>(comp: (N, N) -> int, t: Tree<N>, x: N)
    requires Ordered(comp, t) && Distinct(t) && NegTransitive(comp, Nodes(t)) && x in Nodes(t)
    ensures x == t.node || comp(x, t.node) != -1
  {
    if x in Nodes(t.left) {
      RootIsLeast(comp, t.left, x);
    } else if x in Nodes(t.right) {
      RootIsLeast(comp, t.right, x);
    }
  }

  // ----- which comparators will do

  ghost predicate MergeOrders<N>(comp: (N, N) -> int, s: set<N>, a: Tree<N>, b: Tree<N>) {
    (Nodes(a) + Nodes(b) <= s && Nodes(a) !! Nodes(b) && Ordered(comp, a) && Ordered(comp, b))
    ==> Ordered(comp, Merge(comp, a, b))
  }

  ghost predicate RemoveOrders<N>(comp: (N, N) -> int, s: set<N>, t: Tree<N>, b: N) {
    Nodes(t) <= s && Distinct(t) && b in Nodes(t) && Ordered(comp, t) ==> Ordered(comp, Remove(comp, t, b))
  }

  ghost predicate AllMerges<N(!new)>(comp: (N, N) -> int, s: set<N>) {
    forall a, b :: MergeOrders(comp, s, a, b)
  }

  ghost predicate AllRemoves<N(!new)>(comp: (N, N) -> int, s: set<N>) {
    forall t, b :: RemoveOrders(comp, s, t, b)
  }

  lemma MergeNeeds<N>(comp: (N, N) -> int, s: set<N>, x: N, y: N)
    requires x in s && y in s && x != y && comp(x, y) == -1 && comp(y, x) == -1
    ensures !MergeOrders(comp, s, Single(x), Single(y))
  {
    var a, b := Single(x), Single(y);
    assert Nodes(a) == {x} && Nodes(b) == {y};
    assert Merge(comp, Nil, b) == b;
    assert Merge(comp, a, b) == Root(b, x, Nil);
    assert Ordered(comp, Nil);
    assert Ordered(comp, a) && Ordered(comp, b);
    assert !Above(comp, x, b);
  }

  lemma RemoveNeeds<N>(comp: (N, N) -> int, s: set<N>, x: N, y: N, z: N)
    requires x in s && y in s && z in s && x != z && comp(x, y) != -1 && comp(y, z) != -1 && comp(x, z) == -1
    ensures !RemoveOrders(comp, s, Root(Root(Single(x), y, Nil), z, Nil), y)
  {
    var l := Root(Single(x), y, Nil);
    var t := Root(l, z, Nil);
    assert Nodes(Single(x)) == {x} && Nodes(l) == {x, y} && Nodes(t) == {x, y, z};
    assert Ordered(comp, Nil);
    assert Ordered(comp, Single(x)) && Ordered(comp, l) && Ordered(comp, t);
    assert Merge(comp, Single(x), Nil) == Single(x);
    assert Remove(comp, l, y) == Single(x);
    assert Remove(comp, t, y) == Root(Single(x), z, Nil);
    assert Distinct(Single(x)) && Distinct(l) && Distinct(t);
    assert !Above(comp, z, Single(x));
  }

  /** Merging keeps heap order over a set of nodes if and only if the comparator is asymmetric there. */
  lemma MergeOrdersIff<N(!new)>(comp: (N, N) -> int, s: set<N>)
    ensures AllMerges(comp, s) <==> Asymmetric(comp, s)
  {
    if Asymmetric(comp, s) {
      forall a, b ensures MergeOrders(comp, s, a, b) {
        if Nodes(a) + Nodes(b) <= s && Nodes(a) !! Nodes(b) && Ordered(comp, a) && Ordered(comp, b) {
          MergeKeepsOrder(comp, a, b);
        }
      }
    } else {
      var x, y :| x in s && y in s && x != y && comp(x, y) == -1 && comp(y, x) == -1;
      MergeNeeds(comp, s, x, y);
    }
  }

  /** Removal of any node keeps it too if and only if, besides, being not less is transitive. */
  lemma OrderKeptIff<N(!new)>(comp: (N, N) -> int, s: set<N>)
    ensures AllMerges(comp, s) && AllRemoves(comp, s) <==> Asymmetric(comp, s) && NegTransitive(comp, s)
  {
    MergeOrdersIff(comp, s);
    if Asymmetric(comp, s) && NegTransitive(comp, s) {
      forall t, b ensures RemoveOrders(comp, s, t, b) {
        if Nodes(t) <= s && Distinct(t) && b in Nodes(t) && Ordered(comp, t) {
          RemoveKeepsOrder(comp, t, b);
        }
      }
    } else if Asymmetric(comp, s) {
      var x, y, z :| x in s && y in s && z in s && x != z && comp(x, y) != -1 && comp(y, z) != -1 && comp(x, z) == -1;
      RemoveNeeds(comp, s, x, y, z);
    }
  }

  /** A comparator that returns the difference of its keys is not good enough: only -1 counts as less. */
  lemma DifferenceFails(comp: (int, int) -> int)
    requires forall x, y :: comp(x, y) == x - y
    ensures !(AllMerges(comp, {0, 1, 5}) && AllRemoves(comp, {0, 1, 5}))
    ensures Merge(comp, Single(0), Single(5)).node == 5
  {
    OrderKeptIff(comp, {0, 1, 5});
    assert comp(0, 5) != -1 && comp(5, 1) != -1 && comp(0, 1) == -1;
  }

  // ----- arbitrary runs

  datatype Edit<N> = Add(n: N) | Drop(n: N)

  ghost function Edited<N>(comp: (N, N) -> int, t: Tree<N>, es: seq<Edit<N>>): Tree<N>
    decreases |es|
  {
    if es == [] then t
    else Edited(comp, if es[0].Add? then Insert(comp, t, es[0].n) else Remove(comp, t, es[0].n), es[1..])
  }

  /** The set the run should leave. */
  ghost function Members<N>(s: set<N>, es: seq<Edit<N>>): set<N>
    decreases |es|
  {
    if es == [] then s else Members(if es[0].Add? then s + {es[0].n} else s - {es[0].n}, es[1..])
  }

  /** Only absent nodes are inserted, only present ones removed, all of them from `all`. */
  ghost predicate Legal<N>(s: set<N>, es: seq<Edit<N>>, all: set<N>)
    decreases |es|
  {
    es == [] || (
      && es[0].n in all && (es[0].n in s <==> es[0].Drop?)
      && Legal(if es[0].Add? then s + {es[0].n} else s - {es[0].n}, es[1..], all))
  }

  lemma InsertOk<N>(comp: (N, N) -> int, t: Tree<N>, n: N)
    requires Ordered(comp, t) && Distinct(t) && n !in Nodes(t) && Asymmetric(comp, Nodes(t) + {n})
    ensures var r := Insert(comp, t, n);
      Ordered(comp, r) && Distinct(r) && Nodes(r) == Nodes(t) + {n}
  {
    assert Nodes(Single(n)) == {n};
    MergeKeepsOrder(comp, t, Single(n));
    MergeKeepsDistinct(comp, t, Single(n));
  }

  lemma RemoveOk<N>(comp: (N, N) -> int, t: Tree<N>, n: N)
    requires Ordered(comp, t) && Distinct(t) && n in Nodes(t)
    requires Asymmetric(comp, Nodes(t)) && NegTransitive(comp, Nodes(t))
    ensures var r := Remove(comp, t, n);
      Ordered(comp, r) && Distinct(r) && Nodes(r) == Nodes(t) - {n}
  {
    RemoveKeepsOrder(comp, t, n);
    RemoveTakesOne(comp, t, n);
  }

  /** Any interleaving keeps heap order and leaves exactly the expected nodes, a least one at the root. */
  lemma {:induction false} EditsOk<N>(comp: (N, N) -> int, t: Tree<N>, es: seq<Edit<N>>, all: set<N>)
    requires Ordered(comp, t) && Distinct(t) && Nodes(t) <= all && Legal(Nodes(t), es, all)
    requires Asymmetric(comp, all) && NegTransitive(comp, all)
    ensures var r := Edited(comp, t, es);
      && Ordered(comp, r) && Distinct(r) && Nodes(r) == Members(Nodes(t), es)
      && forall x :: x in Nodes(r) ==> x == r.node || comp(x, r.node) != -1
    decreases |es|
  {
    if es == [] {
      forall x | x in Nodes(t) ensures x == t.node || comp(x, t.node) != -1 {
        RootIsLeast(comp, t, x);
      }
    } else if es[0].Add? {
      InsertOk(comp, t, es[0].n);
      EditsOk(comp, Insert(comp, t, es[0].n), es[1..], all);
    } else {
      RemoveOk(comp, t, es[0].n);
      EditsOk(comp, Remove(comp, t, es[0].n), es[1..], all);
    }
  }

  // ----- keys

  /** The comparator returns -1 exactly for a smaller key. */
  ghost predicate ByKey<N>(comp: (N, N) -> int, key: N -> int, all: set<N>) {
    forall x, y :: x in all && y in all ==> (comp(x, y) == -1 <==> key(x) < key(y))
  }

  lemma ByKeyPart<N>(comp: (N, N) -> int, key: N -> int, part: set<N>, all: set<N>)
    requires ByKey(comp, key, all) && part <= all
    ensures ByKey(comp, key, part)
  {
  }

  lemma KeysOrder<N>(comp: (N, N) -> int, key: N -> int, all: set<N>)
    requires ByKey(comp, key, all)
    ensures Asymmetric(comp, all) && NegTransitive(comp, all)
  {
  }

  /** After any interleaving no key is smaller than the root's. */
  lemma LeastKey<N>(comp: (N, N) -> int, key: N -> int, t: Tree<N>, es: seq<Edit<N>>, all: set<N>)
    requires Ordered(comp, t) && Distinct(t) && Nodes(t) <= all && Legal(Nodes(t), es, all) && ByKey(comp, key, all)
    ensures var r := Edited(comp, t, es);
      Nodes(r) == Members(Nodes(t), es) <= all && forall x :: x in Nodes(r) ==> key(r.node) <= key(x)
  {
    KeysOrder(comp, key, all);
    EditsOk(comp, t, es, all);
    MembersIn(Nodes(t), es, all);
    var r := Edited(comp, t, es);
    hide Edited, Members, Legal, Asymmetric, NegTransitive;
    forall x | x in Nodes(r) ensures key(r.node) <= key(x) {
      assert r.node in Nodes(r) && (x == r.node || comp(x, r.node) != -1);
    }
  }

  lemma {:induction false} MembersIn<N>(s: set<N>, es: seq<Edit<N>>, all: set<N>)
    requires s <= all && Legal(s, es, all)
    ensures Members(s, es) <= all
    decreases |es|
  {
    if es != [] {
      MembersIn(if es[0].Add? then s + {es[0].n} else s - {es[0].n}, es[1..], all);
    }
  }

  /** The roots that come off when the root is removed until nothing is left. */
  function Drain<N>(comp: (N, N) -> int, t: Tree<N>): seq<N>
    decreases Size(t)
  {
    if t.Nil? then []
    else
      MergeSize(comp, t.left, t.right);
      [t.node] + Drain(comp, Merge(comp, t.left, t.right))
  }

  ghost predicate Ascending<N>(key: N -> int, d: seq<N>) {
    forall i, j :: 0 <= i <= j < |d| ==> key(d[i]) <= key(d[j])
  }

  /** They are all the nodes, and their keys ascend. */
  lemma {:induction false} DrainSorts<N>(comp: (N, N) -> int, key: N -> int, t: Tree<N>)
    requires Ordered(comp, t) && Distinct(t) && ByKey(comp, key, Nodes(t))
    ensures multiset(Drain(comp, t)) == Bag(t) && Ascending(key, Drain(comp, t))
    decreases Size(t)
  {
    hide Ordered, Distinct, ByKey, Merge, Bag, Nodes, Size;
    Rest(comp, key, t);
    if t.Root? {
      var m := Merge(comp, t.left, t.right);
      DrainSorts(comp, key, m);
      var d := Drain(comp, m);
      DrainStep(comp, key, t, d);
      assert multiset([t.node] + d) == multiset{t.node} + multiset(d);
    }
  }

  /** The heap without its root. */
  lemma Rest<N>(comp: (N, N) -> int, key: N -> int, t: Tree<N>)
    requires Ordered(comp, t) && Distinct(t) && ByKey(comp, key, Nodes(t))
    ensures t.Nil? ==> Bag(t) == multiset{}
    ensures t.Root? ==>
      var m := Merge(comp, t.left, t.right);
      && Ordered(comp, m) && Distinct(m) && ByKey(comp, key, Nodes(m)) && Size(m) < Size(t)
      && Bag(t) == multiset{t.node} + Bag(m)
  {
    hide Merge, ByKey, Asymmetric, NegTransitive;
    if t.Root? {
      ByKeyPart(comp, key, Nodes(t.left) + Nodes(t.right), Nodes(t));
      KeysOrder(comp, key, Nodes(t.left) + Nodes(t.right));
      MergeKeepsOrder(comp, t.left, t.right);
      MergeKeepsDistinct(comp, t.left, t.right);
      MergeKeepsBag(comp, t.left, t.right);
      MergeSize(comp, t.left, t.right);
    }
  }

  lemma DrainStep<N>(comp: (N, N) -> int, key: N -> int, t: Tree<N>, d: seq<N>)
    requires t.Root? && Ordered(comp, t) && Distinct(t) && ByKey(comp, key, Nodes(t))
    requires Bag(t) == multiset{t.node} + multiset(d)
    ensures forall x :: x in d ==> key(t.node) <= key(x)
  {
    BagNodes(t);
    KeysOrder(comp, key, Nodes(t));
    forall x | x in d ensures key(t.node) <= key(x) {
      assert x in multiset(d) && x in Bag(t);
      RootIsLeast(comp, t, x);
      assert x in Nodes(t) && t.node in Nodes(t);
    }
  }

  lemma {:induction false} BagNodes<N>(t: Tree<N>)
    ensures forall x :: x in Bag(t) <==> x in Nodes(t)
  {
    if t.Root? {
      BagNodes(t.left);
      BagNodes(t.right);
    }
  }

  // ----- amortised cost

  /** Calls of skew_heap_merge, the outermost one included. */
  function Calls<N>(comp: (N, N) -> int, a: Tree<N>, b: Tree<N>): nat
    decreases Size(a) + Size(b)
  {
    if a.Nil? || b.Nil? then 1
    else if Less(comp, a.node, b.node) then 1 + Calls(comp, a.right, b)
    else 1 + Calls(comp, a, b.right)
  }

  /** 1 for a right-heavy node. */
  function Heavy<N>(l: Tree<N>, r: Tree<N>): nat {
    if Size(l) < Size(r) then 1 else 0
  }

  /** The potential: the number of right-heavy nodes. */
  function Potential<N>(t: Tree<N>): nat {
    match t
    case Nil => 0
    case Root(l, _, r) => Potential(l) + Potential(r) + Heavy(l, r)
  }

  /** Right-heavy nodes on the left spine. */
  function HeavyLeft<N>(t: Tree<N>): nat {
    match t
    case Nil => 0
    case Root(l, _, r) => Heavy(l, r) + HeavyLeft(l)
  }

  /** Nodes on the right spine that are not right-heavy. */
  function LightRight<N>(t: Tree<N>): nat {
    match t
    case Nil => 0
    case Root(l, _, r) => 1 - Heavy(l, r) + LightRight(r)
  }

  lemma {:induction false} SpineBounds<N>(t: Tree<N>)
    ensures Pow2(HeavyLeft(t)) <= Size(t) + 1
    ensures Pow2(LightRight(t)) <= Size(t) + 1
  {
    if t.Root? {
      SpineBounds(t.left);
      SpineBounds(t.right);
    }
  }

  lemma {:induction false} MergeSize<N>(comp: (N, N) -> int, a: Tree<N>, b: Tree<N>)
    ensures Size(Merge(comp, a, b)) == Size(a) + Size(b)
    decreases Size(a) + Size(b)
  {
    if !a.Nil? && !b.Nil? {
      if Less(comp, a.node, b.node) {
        MergeSize(comp, a.right, b);
      } else {
        MergeSize(comp, a, b.right);
      }
    }
  }

  lemma {:induction false} MergeCost<N>(comp: (N, N) -> int, a: Tree<N>, b: Tree<N>)
    ensures var m := Merge(comp, a, b);
      Calls(comp, a, b) + Potential(m)
        <= Potential(a) + Potential(b) + HeavyLeft(m) + LightRight(a) + LightRight(b) + 1
    decreases Size(a) + Size(b)
  {
    if !a.Nil? && !b.Nil? {
      if Less(comp, a.node, b.node) {
        MergeCost(comp, a.right, b);
      } else {
        MergeCost(comp, a, b.right);
      }
    }
  }

  /** Rounded down. */
  function Log2(n: nat): nat {
    if n < 2 then 0 else 1 + Log2(n / 2)
  }

  lemma {:induction false} Log2Bound(k: nat, n: nat)
    requires Pow2(k) <= n
    ensures k <= Log2(n)
  {
    if k > 0 {
      Log2Bound(k - 1, n / 2);
    }
  }

  lemma {:induction false} Log2Grows(m: nat, n: nat)
    requires m <= n
    ensures Log2(m) <= Log2(n)
  {
    if m >= 2 {
      Log2Grows(m / 2, n / 2);
    }
  }

  /** Amortised, merging costs three logarithms. */
  lemma MergeAmortised<N>(comp: (N, N) -> int, a: Tree<N>, b: Tree<N>, n: nat)
    requires Size(a) + Size(b) <= n
    ensures Calls(comp, a, b) + Potential(Merge(comp, a, b)) <= Potential(a) + Potential(b) + 1 + 3 * Log2(n + 1)
  {
    var m := Merge(comp, a, b);
    MergeCost(comp, a, b);
    MergeSize(comp, a, b);
    SpineBounds(m);
    SpineBounds(a);
    SpineBounds(b);
    Log2Bound(HeavyLeft(m), n + 1);
    Log2Bound(LightRight(a), n + 1);
    Log2Bound(LightRight(b), n + 1);
  }

  // ----- runs of a priority queue

  datatype Op<N> = Push(n: N) | Pop

  function Step<N>(comp: (N, N) -> int, t: Tree<N>, op: Op<N>): Tree<N> {
    match op
    case Push(n) => Insert(comp, t, n)
    case Pop => if t.Nil? then Nil else Merge(comp, t.left, t.right)
  }

  function StepCalls<N>(comp: (N, N) -> int, t: Tree<N>, op: Op<N>): nat {
    match op
    case Push(n) => Calls(comp, t, Single(n))
    case Pop => if t.Nil? then 0 else Calls(comp, t.left, t.right)
  }

  function Run<N>(comp: (N, N) -> int, t: Tree<N>, ops: seq<Op<N>>): Tree<N>
    decreases |ops|
  {
    if ops == [] then t else Run(comp, Step(comp, t, ops[0]), ops[1..])
  }

  function RunCalls<N>(comp: (N, N) -> int, t: Tree<N>, ops: seq<Op<N>>): nat
    decreases |ops|
  {
    if ops == [] then 0 else StepCalls(comp, t, ops[0]) + RunCalls(comp, Step(comp, t, ops[0]), ops[1..])
  }

  function Grows<N>(op: Op<N>): nat {
    if op.Push? then 1 else 0
  }

  function Pushes<N>(ops: seq<Op<N>>): nat {
    if ops == [] then 0 else Grows(ops[0]) + Pushes(ops[1..])
  }

  lemma StepCost<N>(comp: (N, N) -> int, t: Tree<N>, op: Op<N>, n: nat)
    requires Size(t) + Grows(op) <= n
    ensures StepCalls(comp, t, op) + Potential(Step(comp, t, op)) <= Potential(t) + 1 + 3 * Log2(n + 1)
    ensures Size(Step(comp, t, op)) <= Size(t) + Grows(op)
  {
    match op {
      case Push(x) =>
        assert Size(Single(x)) == 1 && Potential(Single(x)) == 0;
        MergeAmortised(comp, t, Single(x), n);
        MergeSize(comp, t, Single(x));
      case Pop =>
        if t.Root? {
          MergeAmortised(comp, t.left, t.right, n);
          MergeSize(comp, t.left, t.right);
        }
    }
  }

  lemma {:induction false} RunCost<N>(comp: (N, N) -> int, t: Tree<N>, ops: seq<Op<N>>, n: nat, c: nat)
    requires Size(t) + Pushes(ops) <= n && c == 1 + 3 * Log2(n + 1)
    ensures RunCalls(comp, t, ops) + Potential(Run(comp, t, ops)) <= Potential(t) + |ops| * c
    decreases |ops|
  {
    if ops != [] {
      StepCost(comp, t, ops[0], n);
      hide Step, StepCalls, Potential, Log2, Size;
      RunCost(comp, Step(comp, t, ops[0]), ops[1..], n, c);
      assert |ops| * c == c + (|ops| - 1) * c;
    }
  }

  /** From an empty heap, any run of inserts and root removals makes O(log n) calls per operation. */
  lemma QueueCost<N>(comp: (N, N) -> int, ops: seq<Op<N>>)
    ensures RunCalls(comp, Nil, ops) <= |ops| * (1 + 3 * Log2(Pushes(ops) + 1))
  {
    RunCost(comp, Nil, ops, Pushes(ops), 1 + 3 * Log2(Pushes(ops) + 1));
  }
}
