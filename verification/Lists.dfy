/** The intrusive circular doubly linked list: pointer updates refine insertion into and removal from sequences. */
module Lists {
  import opened Basics

  class Entry {
    var prev: Entry?
    var next: Entry?
  }

  function After<T>(s: seq<T>, i: nat): T
    requires i < |s|
  {
    if i + 1 < |s| then s[i + 1] else s[0]
  }

  function Before<T>(s: seq<T>, i: nat): T
    requires i < |s|
  {
    if i > 0 then s[i - 1] else s[|s| - 1]
  }

  /** Going round by next visits `s` in order, by prev in the opposite order. */
  ghost predicate Ring(s: seq<Entry>)
    reads s
  {
    s != [] && NoDup(s) && forall i :: 0 <= i < |s| ==> LinkedAt(s, i)
  }

  ghost predicate LinkedAt(s: seq<Entry>, i: nat)
    requires i < |s|
    reads s
  {
    s[i].next == After(s, i) && s[i].prev == Before(s, i)
  }

  function Insert<T>(s: seq<T>, i: nat, x: T): seq<T>
    requires i <= |s|
  {
    s[..i] + [x] + s[i..]
  }

  function Delete<T>(s: seq<T>, i: nat): seq<T>
    requires i < |s|
  {
    s[..i] + s[i + 1..]
  }

  /** Neighbours after an insertion. */
  lemma InsertAt<T>(s: seq<T>, i: nat, x: T, j: nat)
    requires s != [] && i <= |s| && j < |s|
    ensures var (r, k) := (Insert(s, i, x), if j < i then j else j + 1);
      && r[k] == s[j] && r[i] == x
      && After(r, k) == (if k + 1 == (if i > 0 then i else |r|) then x else After(s, j))
      && Before(r, k) == (if j == (if i < |s| then i else 0) then x else Before(s, j))
      && After(r, i) == s[if i < |s| then i else 0] && Before(r, i) == s[if i > 0 then i - 1 else |s| - 1]
  {
  }

  lemma InsertNoDup<T>(s: seq<T>, i: nat, x: T)
    requires NoDup(s) && x !in s && i <= |s|
    ensures NoDup(Insert(s, i, x))
  {
    var r := Insert(s, i, x);
    forall a, b | 0 <= a < b < |r| ensures r[a] != r[b] {
      assert a != i ==> r[a] == s[if a < i then a else a - 1];
      assert b != i ==> r[b] == s[if b < i then b else b - 1];
    }
  }

  // ----- the operations

  method Init(e: Entry)
    modifies e
    ensures Ring([e])
  {
    e.prev, e.next := e, e;
  }

  /** __list_add: a new entry between two neighbours, which may be one and the same. */
  method AddBetween(e: Entry, prev: Entry, next: Entry, ghost s: seq<Entry>, ghost i: nat)
    requires Ring(s) && e !in s && i <= |s|
    requires prev == s[if i > 0 then i - 1 else |s| - 1] && next == s[if i < |s| then i else 0]
    modifies prev, next, e
    ensures Ring(Insert(s, i, e))
  {
    ghost var r := Insert(s, i, e);
    InsertNoDup(s, i, e);
    next.prev := e;
    prev.next := e;
    e.next := next;
    e.prev := prev;
    forall k | 0 <= k < |r| ensures LinkedAt(r, k) {
      ghost var j := if k < i then k else if k > i then k - 1 else 0;
      InsertAt(s, i, e, j);
      assert old(LinkedAt(s, j));
    }
  }

  method AddBefore(at: Entry, e: Entry, ghost s: seq<Entry>, ghost i: nat)
    requires Ring(s) && i < |s| && s[i] == at && e !in s
    modifies at, Before<Entry>(s, i), e
    ensures Ring(Insert(s, i, e))
  {
    assert LinkedAt(s, i);
    AddBetween(e, at.prev, at, s, i);
  }

  method AddAfter(at: Entry, e: Entry, ghost s: seq<Entry>, ghost i: nat)
    requires Ring(s) && i < |s| && s[i] == at && e !in s
    modifies at, After<Entry>(s, i), e
    ensures Ring(Insert(s, i + 1, e))
  {
    assert LinkedAt(s, i);
    AddBetween(e, at, at.next, s, i + 1);
  }

  lemma DeleteAt<T>(s: seq<T>, i: nat, k: nat)
    requires NoDup(s) && i < |s| && k < |s| - 1
    ensures var (r, j) := (Delete(s, i), if k < i then k else k + 1);
      && r[k] == s[j] && NoDup(r)
      && After(r, k) == (if After(s, j) == s[i] then After(s, i) else After(s, j))
      && Before(r, k) == (if Before(s, j) == s[i] then Before(s, i) else Before(s, j))
  {
    var r := Delete(s, i);
    forall a, b | 0 <= a < b < |r| ensures r[a] != r[b] {
      assert r[a] == s[if a < i then a else a + 1] && r[b] == s[if b < i then b else b + 1];
    }
  }

  /** __list_del on the neighbours of `e`, whose own pointers stay as they are. */
  method Del(e: Entry, ghost s: seq<Entry>, ghost i: nat)
    requires Ring(s) && i < |s| && s[i] == e
    modifies Before<Entry>(s, i)`next, After<Entry>(s, i)`prev
    ensures |s| > 1 ==> Ring(Delete(s, i)) && e.next != e && e.next == old(e.next) && e.prev == old(e.prev)
    ensures |s| == 1 ==> Ring(s)
  {
    assert LinkedAt(s, i);
    ghost var r := Delete(s, i);
    var prev, next := e.prev, e.next;
    prev.next := next;
    next.prev := prev;
    forall k | 0 <= k < |r| ensures NoDup(r) && LinkedAt(r, k) {
      DeleteAt(s, i, k);
      assert old(LinkedAt(s, if k < i then k else k + 1));
    }
  }

  method DelInit(e: Entry, ghost s: seq<Entry>, ghost i: nat)
    requires Ring(s) && i < |s| && s[i] == e
    modifies Before<Entry>(s, i), After<Entry>(s, i), e
    ensures |s| > 1 ==> Ring(Delete(s, i))
    ensures Ring([e])
  {
    Del(e, s, i);
    Init(e);
  }

  method Empty(e: Entry, ghost s: seq<Entry>, ghost i: nat) returns (b: bool)
    requires Ring(s) && i < |s| && s[i] == e
    ensures b <==> |s| == 1
  {
    assert LinkedAt(s, i);
    b := e.next == e;
  }

  // ----- what the pointers say

  /** `k` steps along next. */
  ghost function Follow(s: seq<Entry>, e: Entry?, k: nat): Entry?
    reads s
  {
    if k == 0 then e
    else
      var p := Follow(s, e, k - 1);
      if p != null && p in s then p.next else null
  }

  /** A walk along next from an entry visits the whole ring once and is then back where it began. */
  lemma {:induction false} Walks(s: seq<Entry>, k: nat)
    requires Ring(s) && k <= |s|
    ensures Follow(s, s[0], k) == if k < |s| then s[k] else s[0]
  {
    if k > 0 {
      Walks(s, k - 1);
      assert LinkedAt(s, k - 1);
    }
  }

  /** Any entry of a ring may serve as its head. */
  lemma Rotates(s: seq<Entry>, i: nat)
    requires Ring(s) && i < |s|
    ensures Ring(s[i..] + s[..i])
  {
    var r := s[i..] + s[..i];
    forall k | 0 <= k < |r| ensures LinkedAt(r, k) {
      assert LinkedAt(s, if k + i < |s| then k + i else k + i - |s|);
    }
  }

  /** next and prev are mutually inverse, also when an entry is its own neighbour. */
  lemma Inverse(s: seq<Entry>, i: nat)
    requires Ring(s) && i < |s|
    ensures var e := s[i];
      && e.next != null && e.prev != null && e.next.prev == e == e.prev.next
      && (e.next == e <==> |s| == 1) && (e.prev == e <==> |s| == 1)
      && (e.next == e.prev <==> |s| <= 2)
  {
    assert LinkedAt(s, i);
    var n, p := if i + 1 < |s| then i + 1 else 0, if i > 0 then i - 1 else |s| - 1;
    assert LinkedAt(s, n) && LinkedAt(s, p);
  }

  /** The pointers determine the ring. */
  lemma Determined(s: seq<Entry>, t: seq<Entry>)
    requires Ring(s) && Ring(t) && s[0] == t[0]
    ensures s == t
  {
    if |s| <= |t| {
      SameRing(s, t);
    } else {
      SameRing(t, s);
    }
  }

  lemma SameRing(s: seq<Entry>, t: seq<Entry>)
    requires Ring(s) && Ring(t) && s[0] == t[0] && |s| <= |t|
    ensures s == t
  {
    SamePrefix(s, t, |s|);
    assert s[|s| - 1] == s[..|s|][|s| - 1] == t[|s| - 1];
    assert LinkedAt(s, |s| - 1) && LinkedAt(t, |s| - 1);
  }

  lemma {:induction false} SamePrefix(s: seq<Entry>, t: seq<Entry>, n: nat)
    requires Ring(s) && Ring(t) && s[0] == t[0] && 0 < n <= |s| <= |t|
    ensures s[..n] == t[..n]
  {
    if n > 1 {
      SamePrefix(s, t, n - 1);
      assert s[n - 2] == s[..n - 1][n - 2] == t[n - 2];
      assert LinkedAt(s, n - 2) && LinkedAt(t, n - 2);
      assert s[..n] == s[..n - 1] + [s[n - 1]] && t[..n] == t[..n - 1] + [t[n - 1]];
    }
  }

  // ----- several rings at once

  ghost function Members(w: set<seq<Entry>>): set<Entry> {
    set s, e | s in w && e in s :: e
  }

  ghost predicate Disjoint(s: seq<Entry>, t: seq<Entry>) {
    forall e :: e in s ==> e !in t
  }

  ghost predicate World(w: set<seq<Entry>>)
    reads Members(w)
  {
    && (forall s :: s in w ==> assert forall e :: e in s ==> e in Members(w); Ring(s))
    && (forall s, t :: s in w && t in w && s != t ==> Disjoint(s, t))
  }

  datatype Op = OpInit(e: Entry) | OpBefore(at: Entry, e: Entry) | OpAfter(at: Entry, e: Entry)
              | OpDel(e: Entry) | OpDelInit(e: Entry)

  /** The ring of `e`. */
  ghost function Home(w: set<seq<Entry>>, e: Entry): (s: seq<Entry>)
    requires e in Members(w)
    ensures s in w && e in s && forall x :: x in s ==> x in Members(w)
  {
    var s :| s in w && e in s;
    s
  }

  ghost function Pos(s: seq<Entry>, e: Entry): (i: nat)
    requires e in s
    ensures i < |s| && s[i] == e
  {
    var i: nat :| i < |s| && s[i] == e;
    i
  }

  /** An entry in no list: not yet used, taken out, or in the one-entry ring that list_init leaves. */
  ghost predicate Loose(w: set<seq<Entry>>, e: Entry) {
    e in Members(w) ==> [e] in w
  }

  ghost predicate Legal(w: set<seq<Entry>>, op: Op) {
    match op
    case OpInit(e) => Loose(w, e)
    case OpBefore(at, e) => at in Members(w) && e != at && Loose(w, e)
    case OpAfter(at, e) => at in Members(w) && e != at && Loose(w, e)
    case OpDel(e) => e in Members(w)
    case OpDelInit(e) => e in Members(w)
  }

  /** The rings an operation leaves, as sequences. */
  ghost function Next(w: set<seq<Entry>>, op: Op): set<seq<Entry>>
    requires Legal(w, op)
  {
    match op
    case OpInit(e) => w + {[e]}
    case OpBefore(at, e) => var s := Home(w, at); w - {s, [e]} + {Insert(s, Pos(s, at), e)}
    case OpAfter(at, e) => var s := Home(w, at); w - {s, [e]} + {Insert(s, Pos(s, at) + 1, e)}
    case OpDel(e) => var s := Home(w, e); if |s| == 1 then w else w - {s} + {Delete(s, Pos(s, e))}
    case OpDelInit(e) => var s := Home(w, e); if |s| == 1 then w else w - {s} + {Delete(s, Pos(s, e)), [e]}
  }

  ghost predicate LegalRun(w: set<seq<Entry>>, ops: seq<Op>)
    decreases |ops|
  {
    ops == [] || (Legal(w, ops[0]) && LegalRun(Next(w, ops[0]), ops[1..]))
  }

  ghost function Outcome(w: set<seq<Entry>>, ops: seq<Op>): set<seq<Entry>>
    requires LegalRun(w, ops)
    decreases |ops|
  {
    if ops == [] then w else Outcome(Next(w, ops[0]), ops[1..])
  }

  /** A ring apart from all the others joins them. */
  lemma Join(w: set<seq<Entry>>, s: seq<Entry>)
    requires World(w) && Ring(s) && forall t :: t in w ==> Disjoint(s, t)
    ensures World(w + {s})
  {
  }

  /** The other rings share no entry with `s`, and they exist. */
  lemma Others(w: set<seq<Entry>>, v: set<seq<Entry>>, s: seq<Entry>)
    requires World(w) && s in w && v <= w - {s}
    ensures World(v) && Members(v) <= Members(w)
    ensures forall x :: x in Members(v) ==> x !in s && allocated(x)
  {
    forall x | x in Members(v) ensures x !in s && allocated(x) {
      var t :| t in v && x in t;
      assert Disjoint(s, t);
    }
  }

  method DoInit(e: Entry, ghost w: set<seq<Entry>>)
    requires World(w) && Loose(w, e)
    modifies e
    ensures World(w + {[e]})
  {
    ghost var v := w - {[e]};
    LooseOthers(w, e, v);
    Init(e);
    Join(v, [e]);
    assert w + {[e]} == v + {[e]};
  }

  lemma LooseOthers(w: set<seq<Entry>>, e: Entry, v: set<seq<Entry>>)
    requires World(w) && Loose(w, e) && v <= w - {[e]}
    ensures World(v) && Members(v) <= Members(w)
    ensures forall x :: x in Members(v) ==> x != e && allocated(x)
  {
    if [e] in w {
      Others(w, v, [e]);
      assert e in [e];
    } else {
      forall x | x in Members(v) ensures x != e && allocated(x) {
        var t :| t in v && x in t;
      }
    }
  }

  method DoBefore(at: Entry, e: Entry, ghost w: set<seq<Entry>>, ghost s: seq<Entry>, ghost i: nat)
    requires World(w) && Loose(w, e) && e != at && s in w && i < |s| && s[i] == at
    modifies s, e
    ensures World(w - {s, [e]} + {Insert(s, i, e)})
  {
    ghost var v := w - {s, [e]};
    LooseOthers(w, e, v);
    Others(w, v, s);
    AddBefore(at, e, s, i);
    Join(v, Insert(s, i, e));
  }

  method DoAfter(at: Entry, e: Entry, ghost w: set<seq<Entry>>, ghost s: seq<Entry>, ghost i: nat)
    requires World(w) && Loose(w, e) && e != at && s in w && i < |s| && s[i] == at
    modifies s, e
    ensures World(w - {s, [e]} + {Insert(s, i + 1, e)})
  {
    ghost var v := w - {s, [e]};
    LooseOthers(w, e, v);
    Others(w, v, s);
    AddAfter(at, e, s, i);
    Join(v, Insert(s, i + 1, e));
  }

  method DoDel(e: Entry, ghost w: set<seq<Entry>>, ghost s: seq<Entry>, ghost i: nat)
    requires World(w) && s in w && i < |s| && s[i] == e
    modifies s
    ensures World(if |s| == 1 then w else w - {s} + {Delete(s, i)})
  {
    ghost var v := w - {s};
    Others(w, v, s);
    Del(e, s, i);
    Join(v, if |s| == 1 then s else Delete(s, i));
    assert |s| == 1 ==> v + {s} == w;
  }

  method DoDelInit(e: Entry, ghost w: set<seq<Entry>>, ghost s: seq<Entry>, ghost i: nat)
    requires World(w) && s in w && i < |s| && s[i] == e
    modifies s
    ensures World(if |s| == 1 then w else w - {s} + {Delete(s, i), [e]})
  {
    ghost var v := w - {s};
    Others(w, v, s);
    DelInit(e, s, i);
    Join(v, [e]);
    if |s| == 1 {
      assert s == [e] && v + {s} == w;
    } else {
      Join(v + {[e]}, Delete(s, i));
      assert v + {[e]} + {Delete(s, i)} == w - {s} + {Delete(s, i), [e]};
    }
  }

  method Do(op: Op, ghost w: set<seq<Entry>>)
    requires World(w) && Legal(w, op)
    modifies Members(w), op.e
    ensures World(Next(w, op))
  {
    match op {
      case OpInit(e) => DoInit(e, w);
      case OpBefore(at, e) => DoBefore(at, e, w, Home(w, at), Pos(Home(w, at), at));
      case OpAfter(at, e) => DoAfter(at, e, w, Home(w, at), Pos(Home(w, at), at));
      case OpDel(e) => DoDel(e, w, Home(w, e), Pos(Home(w, e), e));
      case OpDelInit(e) => DoDelInit(e, w, Home(w, e), Pos(Home(w, e), e));
    }
  }

  /** Any run of operations on any number of rings leaves the rings that the sequences predict. */
  method Run(ops: seq<Op>, ghost w: set<seq<Entry>>)
    requires World(w) && LegalRun(w, ops)
    modifies Members(w), set op | op in ops :: op.e
    ensures World(Outcome(w, ops))
  {
    var k := 0;
    ghost var v := w;
    while k < |ops|
      invariant k <= |ops| && World(v) && LegalRun(v, ops[k..]) && Outcome(v, ops[k..]) == Outcome(w, ops)
      invariant Members(v) <= Members(w) + set op | op in ops :: op.e
    {
      NextMembers(v, ops[k]);
      Do(ops[k], v);
      v := Next(v, ops[k]);
      assert ops[k..][1..] == ops[k + 1..];
      k := k + 1;
    }
  }

  /** No operation brings in an entry but its own. */
  lemma NextMembers(w: set<seq<Entry>>, op: Op)
    requires Legal(w, op)
    ensures Members(Next(w, op)) <= Members(w) + {op.e}
  {
    forall x | x in Members(Next(w, op)) ensures x in Members(w) + {op.e} {
      var t :| t in Next(w, op) && x in t;
      if t !in w && x != op.e {
        var s := Home(w, if op.OpBefore? || op.OpAfter? then op.at else op.e);
        assert x in s;
      }
    }
  }
}
