/**
 * The direct / indirect / double-indirect index of a file agrees with the plain sequence of
 * the blocks appended to it, and the "last index block" cache is always right.
 */
module SfsIndex {
  import opened Wrappers
  import opened SfsModel

  /** Entry `k` of a sequence that is zero behind its end. */
  function At(s: seq<nat>, k: nat): nat {
    if k < |s| then s[k] else 0
  }

  /** Number of index blocks behind `n` data blocks. */
  function IndexCost(n: nat): nat {
    if n <= 12 then 0
    else if n <= 1036 then 1
    else 2 + (n - 1036 + 1023) / 1024
  }

  /** A block of entries holds positions base, base + 1, ... of `s`. */
  ghost predicate Leaf(cache: seq<nat>, s: seq<nat>, base: nat) {
    forall k :: 0 <= k < |cache| ==> cache[k] == At(s, base + k)
  }

  ghost predicate Top(cb: seq<CacheBlock>, cache: seq<nat>, leaves: seq<nat>) {
    forall j :: 0 <= j < |cache| ==>
      cache[j] == if j < |leaves| && leaves[j] < |cb| then cb[leaves[j]].ino else 0
  }

  /** The owned index blocks are, in allocation order, the indirect block, the top block, the leaves. */
  ghost predicate Pointers(c: CacheInode, cb: seq<CacheBlock>, own: seq<nat>) {
    && (forall t :: 0 <= t < |own| ==> own[t] < |cb|)
    && c.inode.indirect == (if |own| >= 1 then cb[own[0]].ino else 0)
    && c.inode.dbIndirect == (if |own| >= 2 then cb[own[1]].ino else 0)
    && c.l1 == (if |own| >= 1 then Some(own[|own| - 1]) else None)
    && c.l2 == (if |own| >= 2 then Some(own[1]) else None)
  }

  ghost predicate Indexed(c: CacheInode, cb: seq<CacheBlock>, s: seq<nat>, own: seq<nat>) {
    && |own| == IndexCost(|s|)
    && Pointers(c, cb, own)
    && Leaf(c.inode.direct, s, 0)
    && (|own| >= 1 ==> Leaf(cb[own[0]].cache, s, NDIRECT))
    && (|own| >= 2 ==> Top(cb, cb[own[1]].cache, own[2..]))
    && (forall t :: 2 <= t < |own| ==> Leaf(cb[own[t]].cache, s, L1_NBLKS + NENTRY * (t - 2)))
  }

  ghost predicate FileOk(c: CacheInode, cb: seq<CacheBlock>, s: seq<nat>, own: seq<nat>) {
    c.nblks == c.inode.blocks == |s| <= LN_NBLKS && Indexed(c, cb, s, own)
  }

  ghost predicate FileAt(fs: Fs, f: nat) {
    f < |fs.ci| == |fs.files| == |fs.own| && FileOk(fs.ci[f], fs.cb, fs.files[f], fs.own[f])
  }

  /** Every index block has one owner, at one place. */
  ghost predicate Owned(own: seq<seq<nat>>, owner: seq<(nat, nat)>) {
    && (forall f, t :: 0 <= f < |own| && 0 <= t < |own[f]| ==> OwnAt(own, owner, f, t))
    && (forall x :: 0 <= x < |owner| ==> OwnerAt(own, owner, x))
  }

  ghost predicate OwnAt(own: seq<seq<nat>>, owner: seq<(nat, nat)>, f: nat, t: nat) {
    f < |own| && t < |own[f]| && own[f][t] < |owner| && owner[own[f][t]] == (f, t)
  }

  ghost predicate OwnerAt(own: seq<seq<nat>>, owner: seq<(nat, nat)>, x: nat) {
    && x < |owner| && owner[x].0 < |own| && owner[x].1 < |own[owner[x].0]|
    && own[owner[x].0][owner[x].1] == x
  }

  /** The part of the invariant that concerns the index blocks alone. */
  ghost predicate BlocksOk(fs: Fs) {
    && Sane(fs) && Owned(fs.own, fs.owner) && |fs.owner| == |fs.cb| && fs.nextIno > 0
    && (forall x :: 0 <= x < |fs.cb| ==> fs.cb[x].ino > 0)
  }

  ghost predicate IndexInv(fs: Fs) {
    && BlocksOk(fs) && |fs.role| == fs.nextIno
    && (forall f :: 0 <= f < |fs.ci| ==> FileAt(fs, f))
  }

  // ----- one step

  lemma LeafAppend(cache: seq<nat>, s: seq<nat>, base: nat, v: nat)
    requires Leaf(cache, s, base)
    ensures base <= |s| < base + |cache| ==> Leaf(cache[|s| - base := v], s + [v], base)
    ensures !(base <= |s| < base + |cache|) ==> Leaf(cache, s + [v], base)
  {
  }

  lemma FileOkFrame(c: CacheInode, cb: seq<CacheBlock>, cb': seq<CacheBlock>, s: seq<nat>, own: seq<nat>)
    requires FileOk(c, cb, s, own) && |cb| <= |cb'|
    requires forall t :: 0 <= t < |own| ==> cb'[own[t]] == cb[own[t]]
    ensures FileOk(c, cb', s, own)
  {
    if |own| >= 2 {
      var leaves := own[2..];
      assert forall j :: 0 <= j < |leaves| ==> leaves[j] == own[j + 2];
    }
  }

  lemma OwnedGrow(own: seq<seq<nat>>, owner: seq<(nat, nat)>, f: nat)
    requires Owned(own, owner) && f < |own|
    ensures Owned(own[f := own[f] + [|owner|]], owner + [(f, |own[f]|)])
  {
    var own', owner' := own[f := own[f] + [|owner|]], owner + [(f, |own[f]|)];
    forall g, t | 0 <= g < |own'| && 0 <= t < |own'[g]| ensures OwnAt(own', owner', g, t) {
      assert t < |own[g]| ==> OwnAt(own, owner, g, t);
    }
    forall x | 0 <= x < |owner'| ensures OwnerAt(own', owner', x) {
      assert x < |owner| ==> OwnerAt(own, owner, x);
    }
  }

  lemma PutSingle(c: CacheInode, cb: seq<CacheBlock>, s: seq<nat>, x: nat, v: nat)
    requires NDIRECT <= |s| < L1_NBLKS && x < |cb| && |cb[x].cache| == NENTRY
    requires Pointers(c, cb, [x]) && Leaf(c.inode.direct, s + [v], 0) && Leaf(cb[x].cache, s, NDIRECT)
    ensures Indexed(c, Poke(cb, x, |s| - NDIRECT, v), s + [v], [x])
  {
    LeafAppend(cb[x].cache, s, NDIRECT, v);
  }

  lemma PutDouble(c: CacheInode, cb: seq<CacheBlock>, s: seq<nat>, own: seq<nat>, v: nat)
    requires L1_NBLKS <= |s| < LN_NBLKS && |own| == IndexCost(|s| + 1)
    requires Pointers(c, cb, own) && Leaf(c.inode.direct, s + [v], 0)
    requires forall t :: 0 <= t < |own| ==> |cb[own[t]].cache| == NENTRY
    requires Apart(own)
    requires Leaf(cb[own[0]].cache, s, NDIRECT) && Top(cb, cb[own[1]].cache, own[2..])
    requires forall t :: 2 <= t < |own| ==> Leaf(cb[own[t]].cache, s, L1_NBLKS + NENTRY * (t - 2))
    ensures Indexed(c, Poke(cb, own[|own| - 1], (|s| - L1_NBLKS) % NENTRY, v), s + [v], own)
  {
    var last := |own| - 1;
    var x, m := own[last], |s| - L1_NBLKS;
    var cb' := Poke(cb, x, m % NENTRY, v);
    assert last == 2 + m / NENTRY;
    LeafAppend(cb[own[0]].cache, s, NDIRECT, v);
    forall t | 2 <= t < |own|
      ensures Leaf(cb'[own[t]].cache, s + [v], L1_NBLKS + NENTRY * (t - 2))
    {
      LeafAppend(cb[own[t]].cache, s, L1_NBLKS + NENTRY * (t - 2), v);
    }
    var leaves := own[2..];
    assert forall j :: 0 <= j < |cb| ==> cb'[j].ino == cb[j].ino;
    assert Top(cb', cb'[own[1]].cache, leaves);
  }

  /** `*cbp` is the block `*inop` names, or `*inop` is still zero. */
  ghost predicate CacheRight(fs: Fs, cbp: Option<nat>, ino: nat) {
    ino == 0 || (cbp.Some? && cbp.value < |fs.cb| && fs.cb[cbp.value].ino == ino)
  }

  /** With the cache right, update_cache allocates or returns at once: it never searches. */
  lemma UpdateCacheStep(fs: Fs, f: nat, cbp: Option<nat>, ino: nat)
    requires Sane(fs) && f < |fs.ci| && Owned(fs.own, fs.owner) && |fs.owner| == |fs.cb|
    requires cbp.Some? ==> cbp.value < |fs.cb|
    requires CacheRight(fs, cbp, ino) && UpdateCache(fs, f, cbp, ino).Some?
    ensures var (fs1, x) := UpdateCache(fs, f, cbp, ino).value;
      if ino == 0 then fs1 == AllocIndex(fs, f).value && x == |fs.cb| && fs.nextIno < fs.ninos
      else fs1 == fs && x == cbp.value
    ensures var fs1 := UpdateCache(fs, f, cbp, ino).value.0;
      Owned(fs1.own, fs1.owner) && |fs1.owner| == |fs1.cb|
  {
    OwnedGrow(fs.own, fs.owner, f);
  }

  /** What update_cache finds or makes for the indirect block. */
  lemma SingleUpdate(fs: Fs, f: nat)
    requires BlocksOk(fs) && FileAt(fs, f) && NDIRECT <= fs.ci[f].nblks < L1_NBLKS
    requires UpdateCache(fs, f, fs.ci[f].l1, fs.ci[f].inode.indirect).Some?
    ensures CacheRight(fs, fs.ci[f].l1, fs.ci[f].inode.indirect)
    ensures var (fs1, x) := UpdateCache(fs, f, fs.ci[f].l1, fs.ci[f].inode.indirect).value;
      fs1.own[f] == [x] && Leaf(fs1.cb[x].cache, fs.files[f], NDIRECT) && fs1.owner[x].0 == f
  {
    UpdateCacheStep(fs, f, fs.ci[f].l1, fs.ci[f].inode.indirect);
    var fs1 := UpdateCache(fs, f, fs.ci[f].l1, fs.ci[f].inode.indirect).value.0;
    assert OwnAt(fs1.own, fs1.owner, f, 0);
  }

  lemma SingleForm(fs: Fs, f: nat, ino: nat)
    requires Sane(fs) && f < |fs.ci| && NDIRECT <= fs.ci[f].nblks < L1_NBLKS && PlaceSingle(fs, f, ino).Some?
    ensures var c := fs.ci[f];
      var (fs1, x) := UpdateCache(fs, f, c.l1, c.inode.indirect).value;
      && fs1.ci == fs.ci && Sane(fs1)
      && PlaceSingle(fs, f, ino).value
         == fs1.(cb := Poke(fs1.cb, x, c.nblks - NDIRECT, ino),
                 ci := fs1.ci[f := c.(l1 := Some(x), inode := c.inode.(indirect := fs1.cb[x].ino))])
  {
  }

  lemma SingleIndexed(fs: Fs, f: nat, ino: nat)
    requires BlocksOk(fs) && FileAt(fs, f)
    requires NDIRECT <= fs.ci[f].nblks < L1_NBLKS && PlaceSingle(fs, f, ino).Some?
    ensures var fs' := PlaceSingle(fs, f, ino).value;
      Indexed(fs'.ci[f], fs'.cb, fs.files[f] + [ino], fs'.own[f])
  {
    var c, s := fs.ci[f], fs.files[f];
    SingleUpdate(fs, f);
    SingleForm(fs, f, ino);
    var (fs1, x) := UpdateCache(fs, f, c.l1, c.inode.indirect).value;
    var c' := c.(l1 := Some(x), inode := c.inode.(indirect := fs1.cb[x].ino));
    LeafAppend(c.inode.direct, s, 0, ino);
    assert c.inode.dbIndirect == 0 && c.l2.None?;
    PutSingle(c', fs1.cb, s, x, ino);
  }

  /** Between the two update_cache calls: the top block exists, the leaf may still be missing. */
  ghost predicate Topped(c: CacheInode, cb: seq<CacheBlock>, s: seq<nat>, own: seq<nat>) {
    && |own| == (if |s| <= L1_NBLKS then 2 else IndexCost(|s|))
    && (forall t :: 0 <= t < |own| ==> own[t] < |cb|)
    && c.inode.indirect == cb[own[0]].ino && c.inode.dbIndirect == cb[own[1]].ino
    && c.l1 == Some(own[if |s| == L1_NBLKS then 0 else |own| - 1]) && c.l2 == Some(own[1])
    && Leaf(c.inode.direct, s, 0) && Leaf(cb[own[0]].cache, s, NDIRECT)
    && Top(cb, cb[own[1]].cache, own[2..])
    && (forall t :: 2 <= t < |own| ==> Leaf(cb[own[t]].cache, s, L1_NBLKS + NENTRY * (t - 2)))
  }

  lemma TopIndexed(fs: Fs, f: nat)
    requires BlocksOk(fs) && FileAt(fs, f)
    requires L1_NBLKS <= fs.ci[f].nblks < LN_NBLKS && PlaceTop(fs, f).Some?
    ensures var fs' := PlaceTop(fs, f).value;
      BlocksOk(fs') && fs'.files == fs.files && Topped(fs'.ci[f], fs'.cb, fs.files[f], fs'.own[f])
  {
    var c := fs.ci[f];
    UpdateCacheStep(fs, f, c.l2, c.inode.dbIndirect);
  }

  ghost predicate Apart(own: seq<nat>) {
    forall t, u :: 0 <= t < u < |own| ==> own[t] != own[u]
  }

  lemma OwnApart(own: seq<seq<nat>>, owner: seq<(nat, nat)>, f: nat)
    requires Owned(own, owner) && f < |own|
    ensures Apart(own[f])
  {
    forall t, u | 0 <= t < u < |own[f]| ensures own[f][t] != own[f][u] {
      assert OwnAt(own, owner, f, t) && OwnAt(own, owner, f, u);
    }
  }

  /** Inside a leaf the cached block is the one the top block names. */
  lemma LeafHit(c: CacheInode, cb: seq<CacheBlock>, s: seq<nat>, own: seq<nat>)
    requires L1_NBLKS <= |s| < LN_NBLKS && (|s| - L1_NBLKS) % NENTRY != 0 && Topped(c, cb, s, own)
    requires |cb[own[1]].cache| == NENTRY
    ensures |own| == IndexCost(|s| + 1) && c.l1 == Some(own[|own| - 1]) && Pointers(c, cb, own)
    ensures cb[own[1]].cache[(|s| - L1_NBLKS) / NENTRY] == cb[own[|own| - 1]].ino
  {
    var j := (|s| - L1_NBLKS) / NENTRY;
    assert j == |own| - 3 && own[2..][j] == own[|own| - 1];
  }

  /** At a leaf boundary the top block has no entry yet. */
  lemma LeafBoundary(c: CacheInode, cb: seq<CacheBlock>, s: seq<nat>, own: seq<nat>)
    requires L1_NBLKS <= |s| < LN_NBLKS && (|s| - L1_NBLKS) % NENTRY == 0 && Topped(c, cb, s, own)
    requires |cb[own[1]].cache| == NENTRY
    ensures (|s| - L1_NBLKS) / NENTRY == |own| - 2 && |own| + 1 == IndexCost(|s| + 1)
    ensures cb[own[1]].cache[|own| - 2] == 0
  {
  }

  /** There a zeroed block is linked in behind the others. */
  lemma LeafFresh(c: CacheInode, cb: seq<CacheBlock>, s: seq<nat>, own: seq<nat>, ino: nat, cb2: seq<CacheBlock>)
    requires L1_NBLKS <= |s| < LN_NBLKS && Topped(c, cb, s, own) && Apart(own) && |cb[own[1]].cache| == NENTRY
    requires |own| - 2 < NENTRY && |s| <= L1_NBLKS + NENTRY * (|own| - 2)
    requires cb2 == Poke(cb + [CacheBlock(ino, seq(NENTRY, _ => 0))], own[1], |own| - 2, ino)
    ensures var own' := own + [|cb|];
      && Apart(own') && Pointers(c.(l1 := Some(|cb|)), cb2, own')
      && Leaf(cb2[own'[0]].cache, s, NDIRECT) && Top(cb2, cb2[own'[1]].cache, own'[2..])
      && (forall t :: 2 <= t < |own'| ==> Leaf(cb2[own'[t]].cache, s, L1_NBLKS + NENTRY * (t - 2)))
  {
    var own' := own + [|cb|];
    assert own'[2..] == own[2..] + [|cb|];
    assert forall k :: 0 <= k < |cb| ==> cb2[k].ino == cb[k].ino;
  }

  lemma PokeSame(cb: seq<CacheBlock>, x: nat, k: nat)
    requires x < |cb| && k < |cb[x].cache|
    ensures Poke(cb, x, k, cb[x].cache[k]) == cb
  {
    assert cb[x].cache[k := cb[x].cache[k]] == cb[x].cache;
  }

  lemma HitIndexed(fs: Fs, f: nat, ino: nat)
    requires BlocksOk(fs) && f < |fs.ci| && L1_NBLKS <= fs.ci[f].nblks == |fs.files[f]| < LN_NBLKS
    requires Topped(fs.ci[f], fs.cb, fs.files[f], fs.own[f]) && PlaceLeaf(fs, f, ino).Some?
    requires (|fs.files[f]| - L1_NBLKS) % NENTRY != 0
    ensures var fs' := PlaceLeaf(fs, f, ino).value;
      Indexed(fs'.ci[f], fs'.cb, fs.files[f] + [ino], fs'.own[f])
  {
    var c, s, own := fs.ci[f], fs.files[f], fs.own[f];
    LeafAppend(c.inode.direct, s, 0, ino);
    OwnApart(fs.own, fs.owner, f);
    LeafHit(c, fs.cb, s, own);
    PokeSame(fs.cb, own[1], (|s| - L1_NBLKS) / NENTRY);
    assert PlaceLeaf(fs, f, ino).value
        == fs.(cb := Poke(fs.cb, own[|own| - 1], (|s| - L1_NBLKS) % NENTRY, ino), ci := fs.ci[f := c]);
    PutDouble(c, fs.cb, s, own, ino);
  }

  lemma FreshIndexed(fs: Fs, f: nat, ino: nat)
    requires BlocksOk(fs) && f < |fs.ci| && L1_NBLKS <= fs.ci[f].nblks == |fs.files[f]| < LN_NBLKS
    requires Topped(fs.ci[f], fs.cb, fs.files[f], fs.own[f]) && PlaceLeaf(fs, f, ino).Some?
    requires (|fs.files[f]| - L1_NBLKS) % NENTRY == 0
    ensures var fs' := PlaceLeaf(fs, f, ino).value;
      Indexed(fs'.ci[f], fs'.cb, fs.files[f] + [ino], fs'.own[f])
  {
    var fs' := PlaceLeaf(fs, f, ino).value;
    var c, s, own := fs.ci[f], fs.files[f], fs.own[f];
    LeafBoundary(c, fs.cb, s, own);
    var cb2 := Poke(fs.cb + [CacheBlock(fs.nextIno, seq(NENTRY, _ => 0))], own[1], |own| - 2, fs.nextIno);
    LeafAppend(c.inode.direct, s, 0, ino);
    OwnApart(fs.own, fs.owner, f);
    LeafFresh(c, fs.cb, s, own, fs.nextIno, cb2);
    assert fs'.cb == Poke(cb2, |fs.cb|, 0, ino) && fs'.own[f] == own + [|fs.cb|];
    PutDouble(c.(l1 := Some(|fs.cb|)), cb2, s, own + [|fs.cb|], ino);
  }

  lemma LeafIndexed(fs: Fs, f: nat, ino: nat)
    requires BlocksOk(fs) && f < |fs.ci| && L1_NBLKS <= fs.ci[f].nblks == |fs.files[f]| < LN_NBLKS
    requires Topped(fs.ci[f], fs.cb, fs.files[f], fs.own[f]) && PlaceLeaf(fs, f, ino).Some?
    ensures var fs' := PlaceLeaf(fs, f, ino).value;
      Indexed(fs'.ci[f], fs'.cb, fs.files[f] + [ino], fs'.own[f])
  {
    if (|fs.files[f]| - L1_NBLKS) % NENTRY != 0 {
      HitIndexed(fs, f, ino);
    } else {
      FreshIndexed(fs, f, ino);
    }
  }

  // ----- what entering a block number in the index of file `f` changes

  ghost predicate Grew(fs: Fs, fs': Fs, f: nat) {
    && f < |fs.ci| == |fs'.ci| && Sane(fs) && Sane(fs') && |fs.role| == fs.nextIno && |fs'.role| == fs'.nextIno
    && fs'.ninos == fs.ninos && fs'.entry == fs.entry && fs'.disk == fs.disk && fs'.log == fs.log
    && fs'.files == fs.files && fs'.searches == fs.searches
    && OtherInodes(fs, fs', f) && GrewBlocks(fs, fs', f) && GrewRoles(fs, fs')
  }

  ghost predicate OtherInodes(fs: Fs, fs': Fs, f: nat)
    requires f < |fs.ci| == |fs'.ci| && Sane(fs) && Sane(fs')
  {
    && (forall g :: 0 <= g < |fs.ci| && g != f ==> InodeKept(fs, fs', g))
    && var (c, c') := (fs.ci[f], fs'.ci[f]);
       c'.host == c.host && c'.ino == c.ino && c'.nblks == c.nblks
       && c'.inode == c.inode.(direct := c'.inode.direct, indirect := c'.inode.indirect,
                               dbIndirect := c'.inode.dbIndirect)
  }

  ghost predicate InodeKept(fs: Fs, fs': Fs, g: nat) {
    && g < |fs.ci| == |fs.own| && g < |fs'.ci| == |fs'.own|
    && fs'.ci[g] == fs.ci[g] && fs'.own[g] == fs.own[g]
  }

  ghost predicate GrewBlocks(fs: Fs, fs': Fs, f: nat)
    requires f < |fs.ci| == |fs'.ci| && Sane(fs) && Sane(fs')
  {
    && |fs.owner| == |fs.cb| <= |fs'.cb| == |fs'.owner|
    && |fs'.own[f]| - |fs.own[f]| == |fs'.cb| - |fs.cb|
    && (forall x :: 0 <= x < |fs.cb| ==> IndexKept(fs, fs', x, f))
  }

  ghost predicate IndexKept(fs: Fs, fs': Fs, x: nat, f: nat) {
    && x < |fs.cb| == |fs.owner| && x < |fs'.cb| == |fs'.owner|
    && fs'.owner[x] == fs.owner[x] && fs'.cb[x].ino == fs.cb[x].ino
    && (fs.owner[x].0 != f ==> fs'.cb[x] == fs.cb[x])
  }

  ghost predicate GrewRoles(fs: Fs, fs': Fs)
    requires |fs.role| == fs.nextIno && |fs'.role| == fs'.nextIno
  {
    && fs.nextIno <= fs'.nextIno && (fs.nextIno <= fs.ninos ==> fs'.nextIno <= fs.ninos)
    && fs'.nextIno - fs.nextIno == |fs'.cb| - |fs.cb| == fs.unused - fs'.unused
    && fs.role <= fs'.role
    && (forall x :: |fs.cb| <= x < |fs'.cb| ==> IndexFresh(fs, fs', x))
  }

  ghost predicate IndexFresh(fs: Fs, fs': Fs, x: nat) {
    && |fs.cb| <= x < |fs'.cb| && fs.nextIno + x - |fs.cb| < |fs'.role|
    && fs'.cb[x].ino == fs.nextIno + x - |fs.cb| && fs'.role[fs.nextIno + x - |fs.cb|] == OfIndex(x)
  }

  lemma GrewTrans(a: Fs, b: Fs, c: Fs, f: nat)
    requires Grew(a, b, f) && Grew(b, c, f)
    ensures Grew(a, c, f)
  {
    forall g | 0 <= g < |a.ci| && g != f ensures InodeKept(a, c, g) {
      assert InodeKept(a, b, g) && InodeKept(b, c, g);
    }
    forall x | 0 <= x < |a.cb| ensures IndexKept(a, c, x, f) {
      assert IndexKept(a, b, x, f) && IndexKept(b, c, x, f);
    }
    forall x | |a.cb| <= x < |c.cb| ensures IndexFresh(a, c, x) {
      if x < |b.cb| {
        assert IndexFresh(a, b, x) && IndexKept(b, c, x, f);
      } else {
        assert IndexFresh(b, c, x);
      }
    }
  }

  lemma AllocIndexGrew(fs: Fs, f: nat)
    requires BlocksOk(fs) && f < |fs.ci| && |fs.role| == fs.nextIno && AllocIndex(fs, f).Some?
    ensures var fs1 := AllocIndex(fs, f).value; Grew(fs, fs1, f) && BlocksOk(fs1)
  {
    var fs1 := AllocIndex(fs, f).value;
    OwnedGrow(fs.own, fs.owner, f);
    forall g | 0 <= g < |fs.ci| && g != f ensures InodeKept(fs, fs1, g) {
    }
    forall x | 0 <= x < |fs.cb| ensures IndexKept(fs, fs1, x, f) {
    }
    assert IndexFresh(fs, fs1, |fs.cb|);
  }

  lemma GrewRefl(fs: Fs, f: nat)
    requires BlocksOk(fs) && f < |fs.ci| && |fs.role| == fs.nextIno
    ensures Grew(fs, fs, f)
  {
    forall g | 0 <= g < |fs.ci| && g != f ensures InodeKept(fs, fs, g) {
    }
    forall x | 0 <= x < |fs.cb| ensures IndexKept(fs, fs, x, f) {
    }
  }

  lemma UpdateCacheGrew(fs: Fs, f: nat, cbp: Option<nat>, ino: nat)
    requires BlocksOk(fs) && f < |fs.ci| && |fs.role| == fs.nextIno
    requires cbp.Some? ==> cbp.value < |fs.cb|
    requires CacheRight(fs, cbp, ino) && UpdateCache(fs, f, cbp, ino).Some?
    ensures var fs1 := UpdateCache(fs, f, cbp, ino).value.0; Grew(fs, fs1, f) && BlocksOk(fs1)
  {
    if ino == 0 {
      AllocIndexGrew(fs, f);
    } else {
      GrewRefl(fs, f);
    }
  }

  lemma PokeGrew(fs: Fs, f: nat, x: nat, k: nat, v: nat)
    requires BlocksOk(fs) && f < |fs.ci| && |fs.role| == fs.nextIno
    requires x < |fs.cb| && k < NENTRY && fs.owner[x].0 == f
    ensures var fs' := fs.(cb := Poke(fs.cb, x, k, v)); Grew(fs, fs', f) && BlocksOk(fs')
  {
    var fs' := fs.(cb := Poke(fs.cb, x, k, v));
    forall g | 0 <= g < |fs.ci| && g != f ensures InodeKept(fs, fs', g) {
    }
    forall y | 0 <= y < |fs.cb| ensures IndexKept(fs, fs', y, f) {
    }
  }

  lemma InodeGrew(fs: Fs, f: nat, c: CacheInode)
    requires BlocksOk(fs) && f < |fs.ci| && |fs.role| == fs.nextIno && SaneInode(c, |fs.cb|)
    requires c.host == fs.ci[f].host && c.ino == fs.ci[f].ino && c.nblks == fs.ci[f].nblks
    requires c.inode == fs.ci[f].inode.(direct := c.inode.direct, indirect := c.inode.indirect,
                                        dbIndirect := c.inode.dbIndirect)
    ensures var fs' := fs.(ci := fs.ci[f := c]); Grew(fs, fs', f) && BlocksOk(fs')
  {
    var fs' := fs.(ci := fs.ci[f := c]);
    forall g | 0 <= g < |fs.ci| && g != f ensures InodeKept(fs, fs', g) {
    }
    forall x | 0 <= x < |fs.cb| ensures IndexKept(fs, fs', x, f) {
    }
  }

  lemma SinglePoke(fs: Fs, f: nat, x: nat, k: nat, ino: nat)
    requires BlocksOk(fs) && f < |fs.ci| && |fs.role| == fs.nextIno && k < NENTRY
    requires x < |fs.cb| && fs.owner[x].0 == f
    ensures var c := fs.ci[f];
      var fs' := fs.(cb := Poke(fs.cb, x, k, ino),
                     ci := fs.ci[f := c.(l1 := Some(x), inode := c.inode.(indirect := fs.cb[x].ino))]);
      Grew(fs, fs', f) && BlocksOk(fs')
  {
    var c := fs.ci[f];
    var c' := c.(l1 := Some(x), inode := c.inode.(indirect := fs.cb[x].ino));
    var fs2 := fs.(cb := Poke(fs.cb, x, k, ino));
    PokeGrew(fs, f, x, k, ino);
    InodeGrew(fs2, f, c');
    GrewTrans(fs, fs2, fs2.(ci := fs2.ci[f := c']), f);
  }

  lemma SingleUpdateGrew(fs: Fs, f: nat)
    requires BlocksOk(fs) && FileAt(fs, f) && NDIRECT <= fs.ci[f].nblks < L1_NBLKS && |fs.role| == fs.nextIno
    requires UpdateCache(fs, f, fs.ci[f].l1, fs.ci[f].inode.indirect).Some?
    ensures var (fs1, x) := UpdateCache(fs, f, fs.ci[f].l1, fs.ci[f].inode.indirect).value;
      Grew(fs, fs1, f) && BlocksOk(fs1) && x < |fs1.owner| && fs1.owner[x].0 == f
  {
    SingleUpdate(fs, f);
    UpdateCacheGrew(fs, f, fs.ci[f].l1, fs.ci[f].inode.indirect);
  }

  lemma SingleGrew(fs: Fs, f: nat, ino: nat)
    requires BlocksOk(fs) && FileAt(fs, f)
    requires |fs.role| == fs.nextIno && NDIRECT <= fs.ci[f].nblks < L1_NBLKS && PlaceSingle(fs, f, ino).Some?
    ensures var fs' := PlaceSingle(fs, f, ino).value; Grew(fs, fs', f) && BlocksOk(fs')
  {
    SingleUpdateGrew(fs, f);
    SingleForm(fs, f, ino);
    var (fs1, x) := UpdateCache(fs, f, fs.ci[f].l1, fs.ci[f].inode.indirect).value;
    SinglePoke(fs1, f, x, fs.ci[f].nblks - NDIRECT, ino);
    GrewTrans(fs, fs1, PlaceSingle(fs, f, ino).value, f);
  }

  lemma TopGrew(fs: Fs, f: nat)
    requires BlocksOk(fs) && FileAt(fs, f)
    requires |fs.role| == fs.nextIno && L1_NBLKS <= fs.ci[f].nblks < LN_NBLKS && PlaceTop(fs, f).Some?
    ensures Grew(fs, PlaceTop(fs, f).value, f)
  {
    var c := fs.ci[f];
    UpdateCacheGrew(fs, f, c.l2, c.inode.dbIndirect);
    var fs1 := UpdateCache(fs, f, c.l2, c.inode.dbIndirect).value.0;
    InodeGrew(fs1, f, PlaceTop(fs, f).value.ci[f]);
    GrewTrans(fs, fs1, PlaceTop(fs, f).value, f);
  }

  /** The cached leaf, if the top block names one, is the last block the file owns. */
  lemma LeafCached(c: CacheInode, cb: seq<CacheBlock>, s: seq<nat>, own: seq<nat>)
    requires L1_NBLKS <= |s| < LN_NBLKS && Topped(c, cb, s, own) && |cb[own[1]].cache| == NENTRY
    ensures var d := cb[own[1]].cache[(|s| - L1_NBLKS) / NENTRY];
      d == 0 || (c.l1 == Some(own[|own| - 1]) && cb[own[|own| - 1]].ino == d)
  {
    if (|s| - L1_NBLKS) % NENTRY != 0 {
      LeafHit(c, cb, s, own);
    } else {
      assert |own[2..]| == (|s| - L1_NBLKS) / NENTRY;
    }
  }

  lemma LeafPokes(fs0: Fs, fs: Fs, f: nat, y: nat, j: nat, x: nat, k: nat, ino: nat)
    requires Grew(fs0, fs, f) && BlocksOk(fs) && j < NENTRY && k < NENTRY
    requires x < |fs.cb| && y < |fs.cb| && fs.owner[x].0 == f && fs.owner[y].0 == f
    ensures var cb := Poke(fs.cb, y, j, fs.cb[x].ino);
      var fs' := fs.(cb := Poke(cb, x, k, ino), ci := fs.ci[f := fs.ci[f].(l1 := Some(x))]);
      Grew(fs0, fs', f) && BlocksOk(fs')
  {
    var fs2 := fs.(cb := Poke(fs.cb, y, j, fs.cb[x].ino));
    PokeGrew(fs, f, y, j, fs.cb[x].ino);
    var fs3 := fs2.(cb := Poke(fs2.cb, x, k, ino));
    PokeGrew(fs2, f, x, k, ino);
    InodeGrew(fs3, f, fs.ci[f].(l1 := Some(x)));
    GrewTrans(fs0, fs, fs2, f);
    GrewTrans(fs0, fs2, fs3, f);
    GrewTrans(fs0, fs3, fs3.(ci := fs3.ci[f := fs.ci[f].(l1 := Some(x))]), f);
  }

  lemma LeafAtGrew(fs: Fs, f: nat, y: nat, j: nat, k: nat, ino: nat)
    requires BlocksOk(fs) && f < |fs.ci| && |fs.role| == fs.nextIno && j < NENTRY && k < NENTRY
    requires y < |fs.cb| && fs.owner[y].0 == f && CacheRight(fs, fs.ci[f].l1, fs.cb[y].cache[j])
    requires fs.cb[y].cache[j] != 0 ==> fs.owner[fs.ci[f].l1.value].0 == f
    requires PlaceLeafAt(fs, f, y, j, k, ino).Some?
    ensures var fs' := PlaceLeafAt(fs, f, y, j, k, ino).value; Grew(fs, fs', f) && BlocksOk(fs')
  {
    var c, d := fs.ci[f], fs.cb[y].cache[j];
    UpdateCacheStep(fs, f, c.l1, d);
    UpdateCacheGrew(fs, f, c.l1, d);
    var u := UpdateCache(fs, f, c.l1, d).value;
    LeafPokes(fs, u.0, f, y, j, u.1, k, ino);
  }

  lemma LeafGrew(fs: Fs, f: nat, ino: nat)
    requires BlocksOk(fs) && f < |fs.ci| && L1_NBLKS <= fs.ci[f].nblks == |fs.files[f]| < LN_NBLKS
    requires Topped(fs.ci[f], fs.cb, fs.files[f], fs.own[f]) && PlaceLeaf(fs, f, ino).Some?
    requires |fs.role| == fs.nextIno
    ensures var fs' := PlaceLeaf(fs, f, ino).value; Grew(fs, fs', f) && BlocksOk(fs')
  {
    hide PlaceLeafAt;
    var own, m := fs.own[f], fs.ci[f].nblks - L1_NBLKS;
    LeafCached(fs.ci[f], fs.cb, fs.files[f], own);
    assert OwnAt(fs.own, fs.owner, f, 1) && OwnAt(fs.own, fs.owner, f, |own| - 1);
    LeafAtGrew(fs, f, own[1], m / NENTRY, m % NENTRY, ino);
  }

  /** Entering a block number extends the file's sequence by it, never searches, and touches no other file. */
  lemma PlaceOk(fs: Fs, f: nat, ino: nat)
    requires BlocksOk(fs) && FileAt(fs, f)
    requires |fs.role| == fs.nextIno && fs.ci[f].nblks < LN_NBLKS && Place(fs, f, ino).Some?
    ensures var fs' := Place(fs, f, ino).value;
      && Grew(fs, fs', f) && BlocksOk(fs')
      && Indexed(fs'.ci[f], fs'.cb, fs.files[f] + [ino], fs'.own[f])
  {
    var n := fs.ci[f].nblks;
    if n < NDIRECT {
      LeafAppend(fs.ci[f].inode.direct, fs.files[f], 0, ino);
      InodeGrew(fs, f, PlaceDirect(fs, f, ino).ci[f]);
    } else if n < L1_NBLKS {
      SingleIndexed(fs, f, ino);
      SingleGrew(fs, f, ino);
    } else {
      var fs1 := PlaceTop(fs, f).value;
      TopIndexed(fs, f);
      TopGrew(fs, f);
      LeafIndexed(fs1, f, ino);
      LeafGrew(fs1, f, ino);
      GrewTrans(fs, fs1, Place(fs, f, ino).value, f);
    }
  }

  // ----- append_block as a whole

  lemma OthersFrame(fs: Fs, fs': Fs, f: nat, g: nat)
    requires IndexInv(fs) && Grew(fs, fs', f) && g < |fs.ci| && g != f
    ensures FileAt(fs', g)
  {
    assert FileAt(fs, g) && InodeKept(fs, fs', g);
    forall t | 0 <= t < |fs.own[g]| ensures fs'.cb[fs.own[g][t]] == fs.cb[fs.own[g][t]] {
      assert OwnAt(fs.own, fs.owner, g, t) && IndexKept(fs, fs', fs.own[g][t], f);
    }
    FileOkFrame(fs.ci[g], fs.cb, fs'.cb, fs.files[g], fs.own[g]);
  }

  /** Indexed looks at nothing but the index. */
  lemma CountIndexed(c: CacheInode, c': CacheInode, cb: seq<CacheBlock>, s: seq<nat>, own: seq<nat>)
    requires Indexed(c, cb, s, own) && c'.l1 == c.l1 && c'.l2 == c.l2 && c'.inode.direct == c.inode.direct
    requires c'.inode.indirect == c.inode.indirect && c'.inode.dbIndirect == c.inode.dbIndirect
    ensures Indexed(c', cb, s, own)
  {
  }

  /**
   * Index refinement, one step: after append_block the index of `f` spells its old sequence followed by
   * the new block, every other file's index and sequence is as before, the last-index-block cache was right
   * (no search), and exactly the index blocks that the longer file needs were taken from the free space.
   */
  lemma AppendBlockOk(fs: Fs, f: nat, size: nat, ino: nat)
    requires IndexInv(fs) && f < |fs.ci| && AppendBlock(fs, f, size, ino).Some?
    ensures var fs' := AppendBlock(fs, f, size, ino).value;
      && IndexInv(fs') && Grew(fs, Place(fs, f, ino).value, f)
      && fs'.files == fs.files[f := fs.files[f] + [ino]]
      && fs'.searches == fs.searches
      && fs'.nextIno - fs.nextIno == IndexCost(|fs.files[f]| + 1) - IndexCost(|fs.files[f]|)
  {
    var fs' := AppendBlock(fs, f, size, ino).value;
    var fs1 := Place(fs, f, ino).value;
    assert FileAt(fs, f);
    PlaceOk(fs, f, ino);
    CountIndexed(fs1.ci[f], fs'.ci[f], fs1.cb, fs.files[f] + [ino], fs1.own[f]);
    forall g | 0 <= g < |fs.ci| && g != f
      ensures FileAt(fs', g)
    {
      OthersFrame(fs, fs1, f, g);
      assert fs'.ci[g] == fs1.ci[g] && fs'.files[g] == fs1.files[g];
    }
    assert FileAt(fs', f);
  }
}
