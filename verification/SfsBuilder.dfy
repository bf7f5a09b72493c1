/**
 * The image builder as the program runs: fields updated in place, hash chains followed link by link, loops.
 * Every method ends in the state that SfsModel names for it, so the theorems of SfsBuild hold of CreateImg.
 */
module SfsBuilder {
  import opened Basics
  import opened Wrappers
  import opened Bytes
  import opened SfsModel
  import opened SfsImage
  import opened SfsCalls
  import opened SfsBuild
  import Bitmap

  /** The newest of the first `n` inodes whose host number falls into chain `h`. */
  function NewestIn(hosts: seq<nat>, n: nat, h: nat): (r: Option<nat>)
    requires n <= |hosts|
    ensures r.Some? ==> r.value < n && Hash32(hosts[r.value]) == h
    ensures r.Some? ==> forall j :: r.value < j < n ==> Hash32(hosts[j]) != h
    ensures r.None? ==> forall j :: 0 <= j < n ==> Hash32(hosts[j]) != h
  {
    if n == 0 then None
    else if Hash32(hosts[n - 1]) == h then Some(n - 1)
    else NewestIn(hosts, n - 1, h)
  }

  function HostSeq(ci: seq<CacheInode>): (r: seq<nat>)
    ensures |r| == |ci| && forall i :: 0 <= i < |ci| ==> r[i] == ci[i].host
  {
    seq(|ci|, i requires 0 <= i < |ci| => ci[i].host)
  }

  function Before(i: nat): Option<nat> {
    if i == 0 then None else Some(i - 1)
  }

  lemma {:induction false} NewestInPrefix(hosts: seq<nat>, more: seq<nat>, n: nat, h: nat)
    requires n <= |hosts|
    ensures NewestIn(hosts + more, n, h) == NewestIn(hosts, n, h)
  {
    if n > 0 {
      NewestInPrefix(hosts, more, n - 1, h);
    }
  }

  /** The hash chains link exactly the inodes of their bucket, newest first. */
  ghost predicate InodeChains(hosts: seq<nat>, next: seq<Option<nat>>, heads: seq<Option<nat>>) {
    && |next| == |hosts| && |heads| == HASH_SIZE
    && (forall h :: 0 <= h < HASH_SIZE ==> HeadAt(hosts, heads, h))
    && (forall i :: 0 <= i < |hosts| ==> NextAt(hosts, next, i))
  }

  ghost predicate HeadAt(hosts: seq<nat>, heads: seq<Option<nat>>, h: nat) {
    h < |heads| && heads[h] == NewestIn(hosts, |hosts|, h)
  }

  ghost predicate NextAt(hosts: seq<nat>, next: seq<Option<nat>>, i: nat) {
    i < |hosts| && i < |next| && next[i] == NewestIn(hosts, i, Hash32(hosts[i]))
  }

  lemma InodeLinks(hosts: seq<nat>, next: seq<Option<nat>>, heads: seq<Option<nat>>, k: nat)
    requires InodeChains(hosts, next, heads)
    ensures |next| == |hosts| && |heads| == HASH_SIZE
    ensures k < HASH_SIZE ==> heads[k] == NewestIn(hosts, |hosts|, k)
    ensures k < |hosts| ==> next[k] == NewestIn(hosts, k, Hash32(hosts[k]))
  {
    assert k < HASH_SIZE ==> HeadAt(hosts, heads, k);
    assert k < |hosts| ==> NextAt(hosts, next, k);
  }

  /** Putting a new inode at the head of its chain. */
  lemma PushInode(hosts: seq<nat>, next: seq<Option<nat>>, heads: seq<Option<nat>>, num: nat)
    requires InodeChains(hosts, next, heads)
    ensures InodeChains(hosts + [num], next + [heads[Hash32(num)]], heads[Hash32(num) := Some(|hosts|)])
  {
    var hosts', h := hosts + [num], Hash32(num);
    var next', heads' := next + [heads[h]], heads[h := Some(|hosts|)];
    forall k | 0 <= k < HASH_SIZE ensures HeadAt(hosts', heads', k) {
      assert HeadAt(hosts, heads, k);
      NewestInPrefix(hosts, [num], |hosts|, k);
    }
    forall i | 0 <= i < |hosts'| ensures NextAt(hosts', next', i) {
      assert i < |hosts| ==> NextAt(hosts, next, i);
      assert HeadAt(hosts, heads, h);
      NewestInPrefix(hosts, [num], i, Hash32(hosts'[i]));
    }
  }

  /** Where chain `h` of the first `n` index blocks begins. */
  function ChainHead(n: nat, h: nat): Option<nat> {
    if h == Hash32(0) then Before(n) else None
  }

  /** Index blocks are all in the chain of hash32(0), each linked to the one before it. */
  ghost predicate BlockChains(n: nat, next: seq<Option<nat>>, heads: seq<Option<nat>>) {
    && |next| == n && |heads| == HASH_SIZE
    && (forall h :: 0 <= h < HASH_SIZE ==> heads[h] == ChainHead(n, h))
    && (forall i :: 0 <= i < n ==> next[i] == Before(i))
  }

  lemma BlockLinks(n: nat, next: seq<Option<nat>>, heads: seq<Option<nat>>, k: nat)
    requires BlockChains(n, next, heads)
    ensures |next| == n && |heads| == HASH_SIZE
    ensures k < HASH_SIZE ==> heads[k] == ChainHead(n, k)
    ensures k < n ==> next[k] == Before(k)
  {
  }

  lemma PushBlock(n: nat, next: seq<Option<nat>>, heads: seq<Option<nat>>)
    requires BlockChains(n, next, heads)
    ensures BlockChains(n + 1, next + [heads[Hash32(0)]], heads[Hash32(0) := Some(n)])
  {
  }

  /** Between two neighbours of a chain there is nothing to find. */
  lemma NewestAlong(ci: seq<CacheInode>, n: nat, num: nat)
    requires n <= |ci|
    ensures var r := NewestIn(HostSeq(ci), n, Hash32(num));
      Newest(ci, n, num) == if r.None? || ci[r.value].host == num then r else Newest(ci, r.value, num)
  {
    var hosts, h := HostSeq(ci), Hash32(num);
    var r := NewestIn(hosts, n, h);
    var m := if r.None? then 0 else r.value + 1;
    forall j | m <= j < n ensures ci[j].host != num {
      assert Hash32(hosts[j]) != h;
    }
    SkipOthers(ci, m, n, num);
  }

  /** Inodes with other host numbers are passed over. */
  lemma {:induction false} SkipOthers(ci: seq<CacheInode>, m: nat, n: nat, num: nat)
    requires m <= n <= |ci|
    requires forall j :: m <= j < n ==> ci[j].host != num
    ensures Newest(ci, n, num) == Newest(ci, m, num)
  {
    if m < n {
      SkipOthers(ci, m, n - 1, num);
    }
  }

  /** Neighbours in a chain of the inode table are neighbours in flush order. */
  lemma {:induction false} ChainAlong(ci: seq<CacheInode>, n: nat, h: nat, after: seq<Item>)
    requires n <= |ci|
    ensures var r := NewestIn(HostSeq(ci), n, h);
      Chain(ci, n, h) + after == if r.None? then after else [InodeOf(r.value)] + (Chain(ci, r.value, h) + after)
  {
    if n > 0 {
      ChainAlong(ci, n - 1, h, after);
    }
  }

  lemma IndexChainAlong(n: nat, h: nat, after: seq<Item>)
    ensures IndexChain(n, h) + after ==
      if h == Hash32(0) && n > 0 then [Index(n - 1)] + (IndexChain(n - 1, h) + after) else after
  {
  }

  lemma FlushAlong(fs: Fs, h: nat)
    requires h < HASH_SIZE
    ensures Flush(fs, h) == IndexChain(|fs.cb|, h) + (Chain(fs.ci, |fs.ci|, h) + Flush(fs, h + 1))
  {
  }

  lemma FlushEnd(fs: Fs)
    ensures Flush(fs, HASH_SIZE) == []
  {
  }

  lemma WriteNone(fs: Fs, src: Fs, junk: Junk)
    ensures WriteAll(fs, Writes(src, junk, [])) == Some(fs)
  {
  }

  /** Writing the first of the items still to come. */
  lemma WriteStep(fs: Fs, src: Fs, junk: Junk, it: Item, rest: seq<Item>)
    ensures var r := SfsModel.WriteBlock(fs, ItemBytes(src, junk, it), ItemIno(src, it));
      WriteAll(fs, Writes(src, junk, [it] + rest))
      == if r.None? then None else WriteAll(r.value, Writes(src, junk, rest))
  {
    var ws := Writes(src, junk, [it] + rest);
    assert ws[1..] == Writes(src, junk, rest);
  }

  class SfsFs {
    var ninos: nat
    var nextIno: nat
    var unused: int
    var ci: seq<CacheInode>
    var ciNext: seq<Option<nat>>
    var inodes: seq<Option<nat>>
    var cb: seq<CacheBlock>
    var cbNext: seq<Option<nat>>
    var blocks: seq<Option<nat>>
    var entry: seq<Byte>
    var disk: map<nat, Block>
    ghost var log: seq<nat>
    ghost var files: seq<seq<nat>>
    ghost var own: seq<seq<nat>>
    ghost var owner: seq<(nat, nat)>
    ghost var role: seq<Role>
    ghost var searches: nat
    /** The calls of update_cache so far, those of a run that fails included. */
    ghost var calls: seq<Call>

    ghost function Model(): Fs
      reads this
    {
      Fs(ninos, nextIno, unused, ci, cb, entry, disk, log, files, own, owner, role, searches)
    }

    ghost predicate Chained()
      reads this
    {
      InodeChains(HostSeq(ci), ciNext, inodes) && BlockChains(|cb|, cbNext, blocks)
    }

    ghost predicate Valid()
      reads this
    {
      Sane(Model()) && Chained()
    }

    // ----- allocation, searches and writes

    method AllocIno(ghost r: Role) returns (ok: bool, ino: nat)
      modifies this`nextIno, this`unused, this`role
      ensures ok <==> SfsModel.AllocIno(old(Model()), r).Some?
      ensures ok ==> Some(Model()) == SfsModel.AllocIno(old(Model()), r) && ino == old(nextIno)
    {
      ok, ino := false, 0;
      if nextIno < ninos {
        unused := unused - 1;
        ok, ino, nextIno := true, nextIno, nextIno + 1;
        role := role + [r];
      }
    }

    /** A new inode record, put at the head of its chain. */
    method PushCacheInode(num: nat, c: CacheInode)
      requires Chained() && c.host == num
      modifies this`ci, this`ciNext, this`inodes
      ensures Chained() && ci == old(ci) + [c]
    {
      var h := Hash32(num);
      PushInode(HostSeq(ci), ciNext, inodes, num);
      assert HostSeq(ci + [c]) == HostSeq(ci) + [num];
      ciNext, inodes := ciNext + [inodes[h]], inodes[h := Some(|ci|)];
      ci := ci + [c];
    }

    method AllocCacheInode(num: nat, kind: nat) returns (ok: bool, c: nat)
      requires Valid()
      modifies this`nextIno, this`unused, this`role, this`ci, this`ciNext, this`inodes, this`files, this`own
      ensures ok <==> AllocInode(old(Model()), num, kind).Some?
      ensures ok ==> Valid() && Some(Model()) == AllocInode(old(Model()), num, kind) && c == |old(ci)| < |ci|
    {
      hide InodeChains, BlockChains, Sane;
      var ino;
      c := |ci|;
      ok, ino := AllocIno(OfInode(|ci|));
      if ok {
        PushCacheInode(num, EmptyInode(kind, num, ino));
        files, own := files + [[]], own + [[]];
      }
    }

    /** Following the chain finds what a newest-first search over all inodes would find. */
    method SearchCacheInode(num: nat) returns (r: Option<nat>)
      requires Valid()
      ensures r == Newest(ci, |ci|, num)
    {
      r := inodes[Hash32(num)];
      ghost var n: nat := |ci|;
      assert HeadAt(HostSeq(ci), inodes, Hash32(num));
      NewestAlong(ci, n, num);
      while r.Some? && ci[r.value].host != num
        invariant n <= |ci| && r == NewestIn(HostSeq(ci), n, Hash32(num))
        invariant Newest(ci, n, num) == Newest(ci, |ci|, num)
        invariant Newest(ci, n, num) == if r.None? || ci[r.value].host == num then r else Newest(ci, r.value, num)
        decreases n
      {
        assert NextAt(HostSeq(ci), ciNext, r.value);
        n := r.value;
        r := ciNext[r.value];
        NewestAlong(ci, n, num);
      }
    }

    /** search_cache_block, along the chain of the number's own hash. */
    method SearchCacheBlock(ino: nat) returns (r: Option<nat>)
      requires Valid()
      ensures r == SearchIndex(cb, |cb|, ino)
    {
      var h := Hash32(ino);
      r := blocks[h];
      ghost var n: nat := |cb|;
      while r.Some? && cb[r.value].ino != ino
        invariant n <= |cb| && r == ChainHead(n, h)
        invariant SearchIndex(cb, n, ino) == SearchIndex(cb, |cb|, ino)
        decreases n
      {
        n := n - 1;
        r := cbNext[r.value];
      }
    }

    method WriteBlock(data: seq<Byte>, ino: nat) returns (ok: bool)
      modifies this`disk, this`log
      ensures ok <==> SfsModel.WriteBlock(old(Model()), data, ino).Some?
      ensures ok ==> Some(Model()) == SfsModel.WriteBlock(old(Model()), data, ino)
      ensures !ok ==> Model() == old(Model())
    {
      ok := |data| <= BLKSIZE && ino < ninos;
      if ok {
        disk := disk[ino := Pad(data)];
        log := log + [ino];
      }
    }

    // ----- the block index of a file

    /** A new index block record, put at the head of the chain of hash32(0). */
    method PushCacheBlock(c: CacheBlock)
      requires Chained()
      modifies this`cb, this`cbNext, this`blocks
      ensures Chained() && cb == old(cb) + [c]
    {
      var h := Hash32(0);
      PushBlock(|cb|, cbNext, blocks);
      cbNext, blocks := cbNext + [blocks[h]], blocks[h := Some(|cb|)];
      cb := cb + [c];
    }

    /** alloc_cache_block with ino == 0, for the index of inode `f`. */
    method AllocCacheBlock(ghost f: nat) returns (ok: bool, x: nat)
      requires Valid() && f < |ci|
      modifies this`nextIno, this`unused, this`role, this`cb, this`cbNext, this`blocks, this`own, this`owner
      ensures ok <==> AllocIndex(old(Model()), f).Some?
      ensures ok ==> Valid() && Some(Model()) == AllocIndex(old(Model()), f) && x == |old(cb)| < |cb|
    {
      assert |own| == |ci|;
      hide InodeChains, BlockChains, Sane;
      var ino;
      x := |cb|;
      ok, ino := AllocIno(OfIndex(|cb|));
      if ok {
        PushCacheBlock(CacheBlock(ino, seq(NENTRY, _ => 0)));
        owner, own := owner + [(f, |own[f]|)], own[f := own[f] + [x]];
      }
    }

    /** The new values of `*cbp` and `*inop`. */
    method UpdateCache(ghost f: nat, cbp: Option<nat>, ino: nat) returns (ok: bool, x: nat, ino': nat)
      requires Valid() && f < |ci| && (cbp.Some? ==> cbp.value < |cb|)
      modifies this
      ensures calls == old(calls) + [Call(old(Model()), cbp, ino)]
      ensures ok <==> SfsModel.UpdateCache(old(Model()), f, cbp, ino).Some?
      ensures ok ==> Valid() && x < |cb| && ino' == cb[x].ino
      ensures ok ==> Some((Model(), x)) == SfsModel.UpdateCache(old(Model()), f, cbp, ino)
    {
      hide InodeChains, BlockChains;
      ok, x, ino' := true, 0, ino;
      calls := calls + [Call(Model(), cbp, ino)];
      if ino == 0 {
        ok, x := AllocCacheBlock(f);
        if ok {
          ino' := cb[x].ino;
        }
      } else if cbp.None? || cb[cbp.value].ino != ino {
        var r := SearchCacheBlock(ino);
        if r.None? {
          return false, 0, 0;
        }
        x := r.value;
        searches := searches + 1;
      } else {
        x := cbp.value;
      }
    }

    method AppendBlock(f: nat, size: nat, ino: nat) returns (ok: bool)
      requires Valid() && f < |ci|
      modifies this
      ensures calls == old(calls) + AppendCalls(old(Model()), f, size)
      ensures ok <==> SfsModel.AppendBlock(old(Model()), f, size, ino).Some?
      ensures ok ==> Valid() && Some(Model()) == SfsModel.AppendBlock(old(Model()), f, size, ino)
    {
      hide InodeChains, BlockChains;
      if size > BLKSIZE || ci[f].nblks >= LN_NBLKS {
        return false;
      }
      ok := Place(f, ino);
      if !ok {
        return;
      }
      var c := ci[f];
      var inode := c.inode.(size := (c.inode.size + size) % M32, blocks := c.inode.blocks + 1);
      SetInode(f, c.(nblks := c.nblks + 1, inode := inode));
      files := files[f := files[f] + [ino]];
    }

    /** Assigning to fields of an inode record other than its host number. */
    method SetInode(f: nat, c: CacheInode)
      requires Valid() && f < |ci| && c.host == ci[f].host && SaneInode(c, |cb|)
      modifies this`ci
      ensures Valid() && ci == old(ci)[f := c]
    {
      assert HostSeq(ci[f := c]) == HostSeq(ci);
      ci := ci[f := c];
    }

    method Poke(x: nat, k: nat, v: nat)
      requires Valid() && x < |cb| && k < NENTRY
      modifies this`cb
      ensures Valid() && cb == SfsModel.Poke(old(cb), x, k, v)
    {
      hide InodeChains;
      cb := cb[x := cb[x].(cache := cb[x].cache[k := v])];
    }

    /** The three-way branch of append_block. */
    method Place(f: nat, ino: nat) returns (ok: bool)
      requires Valid() && f < |ci| && ci[f].nblks < LN_NBLKS
      modifies this
      ensures calls == old(calls) + PlaceCalls(old(Model()), f)
      ensures ok <==> SfsModel.Place(old(Model()), f, ino).Some?
      ensures ok ==> Valid() && Some(Model()) == SfsModel.Place(old(Model()), f, ino)
    {
      hide InodeChains, BlockChains;
      var c := ci[f];
      if c.nblks < NDIRECT {
        SetInode(f, c.(inode := c.inode.(direct := c.inode.direct[c.nblks := ino])));
        ok := true;
      } else if c.nblks < L1_NBLKS {
        var x, i;
        ok, x, i := UpdateCache(f, c.l1, c.inode.indirect);
        if ok {
          SetInode(f, c.(l1 := Some(x), inode := c.inode.(indirect := i)));
          Poke(x, c.nblks - NDIRECT, ino);
        }
      } else {
        ok := PlaceTop(f);
        if ok {
          ok := PlaceLeaf(f, ino);
        }
      }
    }

    method PlaceTop(f: nat) returns (ok: bool)
      requires Valid() && f < |ci|
      modifies this
      ensures calls == old(calls) + [TopCall(old(Model()), f)]
      ensures ok <==> SfsModel.PlaceTop(old(Model()), f).Some?
      ensures ok ==> Valid() && Some(Model()) == SfsModel.PlaceTop(old(Model()), f)
    {
      hide InodeChains, BlockChains;
      var c := ci[f];
      var y, i;
      ok, y, i := UpdateCache(f, c.l2, c.inode.dbIndirect);
      if ok {
        SetInode(f, c.(l2 := Some(y), inode := c.inode.(dbIndirect := i)));
      }
    }

    method PlaceLeaf(f: nat, ino: nat) returns (ok: bool)
      requires Valid() && f < |ci| && L1_NBLKS <= ci[f].nblks < LN_NBLKS && ci[f].l2.Some?
      modifies this
      ensures calls == old(calls) + [LeafCall(old(Model()), f)]
      ensures ok <==> SfsModel.PlaceLeaf(old(Model()), f, ino).Some?
      ensures ok ==> Valid() && Some(Model()) == SfsModel.PlaceLeaf(old(Model()), f, ino)
    {
      hide InodeChains, BlockChains;
      var c, m := ci[f], ci[f].nblks - L1_NBLKS;
      var y := c.l2.value;
      var x, i;
      ok, x, i := UpdateCache(f, c.l1, cb[y].cache[m / NENTRY]);
      if ok {
        SetInode(f, c.(l1 := Some(x)));
        Poke(y, m / NENTRY, i);
        Poke(x, m % NENTRY, ino);
      }
    }

    // ----- entries and files

    /** sfs_alloc_ino followed by write_block. */
    method Store(data: seq<Byte>) returns (ok: bool, ino: nat)
      requires Valid()
      modifies this`nextIno, this`unused, this`role, this`disk, this`log
      ensures ok <==> SfsModel.Store(old(Model()), data).Some?
      ensures ok ==> Valid() && Some(Model()) == SfsModel.Store(old(Model()), data) && ino == old(nextIno)
    {
      hide InodeChains, BlockChains, Sane;
      ok, ino := AllocIno(Data(|log|));
      if ok {
        ok := WriteBlock(data, ino);
      }
    }

    method AddEntry(cur: nat, f: nat, name: Name) returns (ok: bool)
      requires Valid() && cur < |ci| && f < |ci|
      modifies this
      ensures calls == old(calls) + AddEntryCalls(old(Model()), cur, f, name)
      ensures ok <==> SfsModel.AddEntry(old(Model()), cur, f, name).Some?
      ensures ok ==> Valid() && Some(Model()) == SfsModel.AddEntry(old(Model()), cur, f, name)
    {
      hide InodeChains, BlockChains;
      if ci[cur].inode.kind != TYPE_DIR || |name| > MAX_FNAME_LEN {
        return false;
      }
      entry := Strcpy(entry, name);
      var ino;
      ok, ino := Store(EntryBytes(ci[f].ino, entry));
      if ok {
        ok := AppendBlock(cur, NAME_SIZE, ino);
      }
      if ok {
        var c := ci[f];
        SetInode(f, c.(inode := c.inode.(nlinks := Inc16(c.inode.nlinks))));
      }
    }

    method OpenFile(f: nat, chunks: seq<Chunk>) returns (ok: bool)
      requires Valid() && f < |ci|
      modifies this
      ensures calls == old(calls) + OpenFileCalls(old(Model()), f, chunks, BLKSIZE)
      ensures ok <==> SfsModel.OpenFile(old(Model()), f, chunks, BLKSIZE).Some?
      ensures ok ==> Valid() && Some(Model()) == SfsModel.OpenFile(old(Model()), f, chunks, BLKSIZE)
    {
      hide InodeChains, BlockChains, Sane, SfsModel.Store, SfsModel.AppendBlock, AppendCalls;
      var k: nat, last: nat := 0, BLKSIZE;
      while k < |chunks|
        invariant k <= |chunks| && Valid() && f < |ci|
        invariant SfsModel.OpenFile(old(Model()), f, chunks, BLKSIZE)
               == SfsModel.OpenFile(Model(), f, chunks[k..], last)
        invariant old(calls) + OpenFileCalls(old(Model()), f, chunks, BLKSIZE)
               == calls + OpenFileCalls(Model(), f, chunks[k..], last)
      {
        if last != BLKSIZE {
          return false;
        }
        OpenFileInTurn(calls, Model(), f, chunks[k..], last);
        assert chunks[k..][1..] == chunks[k + 1..];
        var ino;
        ok, ino := Store(chunks[k]);
        if !ok {
          return;
        }
        ok := AppendBlock(f, |chunks[k]|, ino);
        if !ok {
          return;
        }
        last := |chunks[k]|;
        k := k + 1;
      }
      ok := true;
    }

    method OpenLink(f: nat, target: seq<Byte>) returns (ok: bool)
      requires Valid() && f < |ci|
      modifies this
      ensures calls == old(calls) + OpenLinkCalls(old(Model()), f, target)
      ensures ok <==> SfsModel.OpenLink(old(Model()), f, target).Some?
      ensures ok ==> Valid() && Some(Model()) == SfsModel.OpenLink(old(Model()), f, target)
    {
      hide InodeChains, BlockChains, SfsModel.AppendBlock;
      if |target| >= BLKSIZE {
        return false;
      }
      var ino;
      ok, ino := Store(target);
      if ok {
        ok := AppendBlock(f, |target|, ino);
      }
    }

    method AddFile(cur: nat, name: Name, num: nat, chunks: seq<Chunk>) returns (ok: bool)
      requires Valid() && cur < |ci|
      modifies this
      ensures calls == old(calls) + AddFileCalls(old(Model()), cur, name, num, chunks)
      ensures ok <==> SfsModel.AddFile(old(Model()), cur, name, num, chunks).Some?
      ensures ok ==> Valid() && Some(Model()) == SfsModel.AddFile(old(Model()), cur, name, num, chunks)
    {
      hide InodeChains, BlockChains, SfsModel.AddEntry, SfsModel.OpenFile, AllocInode;
      hide AddEntryCalls, OpenFileCalls, ThenEntry;
      var r := SearchCacheInode(num);
      var f;
      if r.None? {
        AddFileInTurn(calls, Model(), cur, name, num, chunks);
        ok, f := AllocCacheInode(num, TYPE_FILE);
        if ok {
          ok := OpenFile(f, chunks);
        }
        if !ok {
          return;
        }
      } else {
        f := r.value;
      }
      ok := AddEntry(cur, f, name);
    }

    method AddLink(cur: nat, name: Name, num: nat, target: seq<Byte>) returns (ok: bool)
      requires Valid() && cur < |ci|
      modifies this
      ensures calls == old(calls) + AddLinkCalls(old(Model()), cur, name, num, target)
      ensures ok <==> SfsModel.AddLink(old(Model()), cur, name, num, target).Some?
      ensures ok ==> Valid() && Some(Model()) == SfsModel.AddLink(old(Model()), cur, name, num, target)
    {
      hide InodeChains, BlockChains, SfsModel.AddEntry, SfsModel.OpenLink, AllocInode;
      var f;
      ok, f := AllocCacheInode(num, TYPE_LINK);
      if ok {
        ok := OpenLink(f, target);
      }
      if ok {
        ok := AddEntry(cur, f, name);
      }
    }

    method AddDir(parent: nat, name: Name, num: nat, sub: Listing) returns (ok: bool)
      requires Valid() && parent < |ci|
      modifies this
      ensures calls == old(calls) + AddDirCalls(old(Model()), parent, name, num, sub)
      ensures ok <==> SfsModel.AddDir(old(Model()), parent, name, num, sub).Some?
      ensures ok ==> Valid() && Some(Model()) == SfsModel.AddDir(old(Model()), parent, name, num, sub)
      decreases sub, 2
    {
      hide InodeChains, BlockChains, SfsModel.AddEntry, SfsModel.OpenDir, AllocInode;
      hide AddEntryCalls, OpenDirCalls, ThenEntry;
      var r := SearchCacheInode(num);
      if r.Some? {
        return false;
      }
      AddDirInTurn(calls, Model(), parent, name, num, sub);
      var f;
      ok, f := AllocCacheInode(num, TYPE_DIR);
      if ok {
        ok := OpenDir(f, parent, sub);
      }
      if ok {
        ok := AddEntry(parent, f, name);
      }
    }

    /** open_dir: the two fixed entries, then the readdir loop. */
    method OpenDir(cur: nat, parent: nat, es: Listing) returns (ok: bool)
      requires Valid() && cur < |ci| && parent < |ci|
      modifies this
      ensures calls == old(calls) + OpenDirCalls(old(Model()), cur, parent, es)
      ensures ok <==> SfsModel.OpenDir(old(Model()), cur, parent, es).Some?
      ensures ok ==> Valid() && Some(Model()) == SfsModel.OpenDir(old(Model()), cur, parent, es)
      decreases es, 1
    {
      hide InodeChains, BlockChains, SfsModel.AddEntry, SfsModel.AddFile, SfsModel.AddLink, SfsModel.AddDir;
      hide AddEntryCalls, OpenDirCalls, VisitCalls;
      OpenDirInTurn(calls, Model(), cur, parent, es);
      ok := AddEntry(cur, cur, DOT);
      if !ok {
        return;
      }
      ok := AddEntry(cur, parent, DOTDOT);
      if !ok {
        return;
      }
      ghost var start, first := Model(), calls;
      var rest := es;
      while rest.Item?
        invariant Valid() && cur < |ci| && (rest == es || rest < es)
        invariant Walk(start, cur, es) == Walk(Model(), cur, rest)
        invariant first + WalkCalls(start, cur, es) == calls + WalkCalls(Model(), cur, rest)
        decreases rest
      {
        WalkInTurn(calls, Model(), cur, rest);
        ok := Visit(cur, rest.name, rest.node);
        if !ok {
          return;
        }
        rest := rest.rest;
      }
    }

    /** The body of the readdir loop. */
    method Visit(cur: nat, name: Name, node: Node) returns (ok: bool)
      requires Valid() && cur < |ci|
      modifies this
      ensures calls == old(calls) + VisitCalls(old(Model()), cur, name, node)
      ensures ok <==> SfsModel.Visit(old(Model()), cur, name, node).Some?
      ensures ok ==> Valid() && Some(Model()) == SfsModel.Visit(old(Model()), cur, name, node)
      decreases node, 3
    {
      hide InodeChains, BlockChains, SfsModel.AddFile, SfsModel.AddLink, SfsModel.AddDir;
      ok := true;
      if Hidden(name) {
        return;
      }
      if |name| > MAX_FNAME_LEN {
        return false;
      }
      match node
      case File(num, chunks) => ok := AddFile(cur, name, num, chunks);
      case Link(num, target) => ok := AddLink(cur, name, num, target);
      case Dir(num, sub) => ok := AddDir(cur, name, num, sub);
      case Special =>
    }

    // ----- the beginning and the end of a run

    /** The fresh state of create_sfs, its root filed under host number 0. */
    constructor (n: nat, next: nat)
      ensures Valid() && Model() == EmptyFs(n, next) && calls == []
    {
      ninos, nextIno, unused := n, next, n - next;
      ci, ciNext, inodes := [], [], seq(HASH_SIZE, _ => None);
      cb, cbNext, blocks := [], [], seq(HASH_SIZE, _ => None);
      entry, disk := Zeros(NAME_SIZE), map[];
      log, files, own, owner, searches, calls := [], [[]], [[]], [], 0, [];
      role := seq(next, b => if b == 1 then OfInode(0) else Meta);
      new;
      forall h | 0 <= h < HASH_SIZE ensures HeadAt(HostSeq(ci), inodes, h) {
      }
      PushCacheInode(0, EmptyInode(TYPE_DIR, 0, 1));
    }

    /** What is still to be written, in order, leads to the same final state. */
    ghost predicate Pending(src: Fs, junk: Junk, rest: seq<Item>)
      reads this
    {
      && Model() == src.(disk := disk, log := log)
      && SfsImage.Close(src, junk) == WriteAll(Model(), Writes(src, junk, rest))
    }

    method WriteItem(data: seq<Byte>, ino: nat, ghost src: Fs, ghost junk: Junk, ghost it: Item, ghost rest: seq<Item>)
      returns (ok: bool)
      requires Pending(src, junk, [it] + rest) && data == ItemBytes(src, junk, it) && ino == ItemIno(src, it)
      modifies this`disk, this`log
      ensures ok ==> Pending(src, junk, rest)
      ensures !ok ==> SfsImage.Close(src, junk).None?
    {
      hide ItemBytes, ItemIno, SfsImage.Close;
      WriteStep(Model(), src, junk, it, rest);
      ok := WriteBlock(data, ino);
    }

    method CloseSfs(junk: Junk) returns (ok: bool)
      requires Chained() && unused >= 0
      modifies this`disk, this`log
      ensures ok <==> SfsImage.Close(old(Model()), junk).Some?
      ensures ok ==> Some(Model()) == SfsImage.Close(old(Model()), junk)
    {
      hide InodeChains, BlockChains, WriteAll, Writes, Flush, Chain, IndexChain, SfsImage.Close;
      ghost var src := Model();
      ok := FlushFreemap(src, junk);
      if ok {
        ok := WriteSuper(src, junk);
      }
      var h := 0;
      while h < HASH_SIZE && ok
        invariant h <= HASH_SIZE && Chained()
        invariant if ok then Pending(src, junk, Flush(src, h)) else SfsImage.Close(src, junk).None?
      {
        FlushAlong(src, h);
        ok := FlushBlocks(h, src, junk, Chain(src.ci, |src.ci|, h) + Flush(src, h + 1));
        if ok {
          ok := FlushInodes(h, src, junk, Flush(src, h + 1));
        }
        h := h + 1;
      }
      FlushEnd(src);
      WriteNone(Model(), src, junk);
    }

    method WriteSuper(ghost src: Fs, junk: Junk) returns (ok: bool)
      requires unused >= 0 && Chained() && Pending(src, junk, [Super] + Flush(src, 0))
      modifies this`disk, this`log
      ensures Chained() && (ok ==> Pending(src, junk, Flush(src, 0)))
      ensures !ok ==> SfsImage.Close(src, junk).None?
    {
      hide InodeChains, BlockChains, WriteAll, Writes, Flush, SfsImage.Close, Words;
      ok := WriteItem(Words([MAGIC, ninos, unused]) + INFO + junk, 0, src, junk, Super, Flush(src, 0));
    }

    /** The freemap loop. */
    method FlushFreemap(ghost src: Fs, ghost junk: Junk) returns (ok: bool)
      requires Chained() && src == Model()
      modifies this`disk, this`log
      ensures Chained()
      ensures ok ==> Pending(src, junk, [Super] + Flush(src, 0))
      ensures !ok ==> SfsImage.Close(src, junk).None?
    {
      hide InodeChains, BlockChains, WriteAll, Writes, Flush;
      ghost var n, after := FreemapBlocks(ninos), [Super] + Flush(src, 0);
      var i: nat, ino: nat := 0, 2;
      assert FreemapItems(n)[0..] + after == Items(src);
      while i < ninos
        invariant i == BLKBITS * (ino - 2) && 2 <= ino <= 2 + n
        invariant Chained() && Pending(src, junk, FreemapItems(n)[ino - 2..] + after)
      {
        var words := Bitmap.FillFreemap(i, nextIno, ninos);
        ghost var rest := FreemapItems(n)[ino - 1..] + after;
        assert FreemapItems(n)[ino - 2..] + after == [Freemap(ino - 2)] + rest;
        ok := WriteItem(Words(words), ino, src, junk, Freemap(ino - 2), rest);
        if !ok {
          return;
        }
        ino, i := ino + 1, i + BLKBITS;
      }
      assert FreemapItems(n)[ino - 2..] + after == after;
      ok := true;
    }

    method FlushCacheBlock(x: nat, ghost src: Fs, ghost junk: Junk, ghost rest: seq<Item>) returns (ok: bool)
      requires Chained() && x < |cb| && Pending(src, junk, [Index(x)] + rest)
      modifies this`disk, this`log
      ensures Chained() && (ok ==> Pending(src, junk, rest))
      ensures !ok ==> SfsImage.Close(src, junk).None?
    {
      hide InodeChains, BlockChains, WriteAll, Writes, SfsImage.Close, Words;
      ok := WriteItem(Words(cb[x].cache), cb[x].ino, src, junk, Index(x), rest);
    }

    /** Chain `h` of the block table. */
    method FlushBlocks(h: nat, ghost src: Fs, ghost junk: Junk, ghost after: seq<Item>) returns (ok: bool)
      requires h < HASH_SIZE && Chained() && Pending(src, junk, IndexChain(|cb|, h) + after)
      modifies this`disk, this`log
      ensures Chained() && (ok ==> Pending(src, junk, after))
      ensures !ok ==> SfsImage.Close(src, junk).None?
    {
      hide InodeChains, BlockChains, Pending, SfsImage.Close, IndexChain, Hash32;
      ghost var n: nat := |cb|;
      BlockLinks(n, cbNext, blocks, h);
      var p := blocks[h];
      ok := true;
      while p.Some? && ok
        invariant n <= |cb| && Chained()
        invariant ok ==> p == ChainHead(n, h) && Pending(src, junk, IndexChain(n, h) + after)
        invariant !ok ==> SfsImage.Close(src, junk).None?
        decreases n, ok
      {
        IndexChainAlong(n, h, after);
        ok := FlushCacheBlock(p.value, src, junk, IndexChain(p.value, h) + after);
        if ok {
          n := p.value;
          BlockLinks(|cb|, cbNext, blocks, n);
          p := cbNext[p.value];
        }
      }
      if ok {
        IndexChainAlong(n, h, after);
      }
    }

    method FlushCacheInode(i: nat, ghost src: Fs, ghost junk: Junk, ghost rest: seq<Item>) returns (ok: bool)
      requires Chained() && i < |ci| && Pending(src, junk, [InodeOf(i)] + rest)
      modifies this`disk, this`log
      ensures Chained() && (ok ==> Pending(src, junk, rest))
      ensures !ok ==> SfsImage.Close(src, junk).None?
    {
      hide InodeChains, BlockChains, WriteAll, Writes, SfsImage.Close, Words, InodeWords;
      ok := WriteItem(Words(InodeWords(ci[i].inode)), ci[i].ino, src, junk, InodeOf(i), rest);
    }

    /** Chain `h` of the inode table. */
    method FlushInodes(h: nat, ghost src: Fs, ghost junk: Junk, ghost after: seq<Item>) returns (ok: bool)
      requires h < HASH_SIZE && Chained() && Pending(src, junk, Chain(ci, |ci|, h) + after)
      modifies this`disk, this`log
      ensures Chained() && (ok ==> Pending(src, junk, after))
      ensures !ok ==> SfsImage.Close(src, junk).None?
    {
      hide InodeChains, BlockChains, Pending, SfsImage.Close, Chain, NewestIn;
      ghost var n: nat, hosts := |ci|, HostSeq(ci);
      InodeLinks(hosts, ciNext, inodes, h);
      var p := inodes[h];
      ok := true;
      while p.Some? && ok
        invariant n <= |ci| && Chained()
        invariant ok ==> p == NewestIn(hosts, n, h) && Pending(src, junk, Chain(ci, n, h) + after)
        invariant !ok ==> SfsImage.Close(src, junk).None?
        decreases n, ok
      {
        ChainAlong(ci, n, h, after);
        ok := FlushCacheInode(p.value, src, junk, Chain(ci, p.value, h) + after);
        if ok {
          n := p.value;
          InodeLinks(hosts, ciNext, inodes, n);
          p := ciNext[p.value];
        }
      }
      if ok {
        ChainAlong(ci, n, h, after);
      }
    }
  }

  /** create_sfs: null stands for an image file too small for its bitmap. */
  method CreateSfs(bytes: nat) returns (r: SfsFs?)
    ensures r == null <==> Create(bytes).None?
    ensures r != null ==> fresh(r) && r.Valid() && Some(r.Model()) == Create(bytes) && r.calls == []
  {
    var ninos := bytes / BLKSIZE % M32;
    if ninos > MAX_NBLKS {
      ninos := MAX_NBLKS;
    }
    var next := 2 + (ninos + BLKBITS - 1) / BLKBITS;
    if next >= ninos {
      return null;
    }
    r := new SfsFs(ninos, next);
  }

  /**
   * create_sfs followed by create_img; null stands for a run that ended in `bug(...)`. Either way `calls` are the
   * calls of update_cache that were made.
   */
  method CreateImg(bytes: nat, es: Listing, junk: Junk) returns (r: SfsFs?, ghost calls: seq<Call>)
    ensures r == null <==> Build(bytes, es, junk).None?
    ensures r != null ==> fresh(r) && Some(r.Model()) == Build(bytes, es, junk)
    ensures calls == RunCalls(bytes, es) && AllRight(calls)
  {
    hide InodeChains, BlockChains, OpenDir, OpenDirCalls, SfsImage.Close, Create, AllRight;
    CacheAlwaysRight(bytes, es);
    calls := [];
    r := CreateSfs(bytes);
    if r == null {
      return;
    }
    var ok := r.OpenDir(0, 0, es);
    calls := r.calls;
    assert [] + OpenDirCalls(Create(bytes).value, 0, 0, es) == OpenDirCalls(Create(bytes).value, 0, 0, es);
    if !ok {
      return null, calls;
    }
    WalkedOk(bytes, es);
    ok := r.CloseSfs(junk);
    if !ok {
      return null, calls;
    }
  }
}
