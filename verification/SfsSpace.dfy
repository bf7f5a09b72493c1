/**
 * Exact space accounting: how many blocks a source directory takes, and that a run succeeds if and only if
 * the source obeys the size limits and that many blocks are there.
 */
module SfsSpace {
  import opened Wrappers
  import opened Bytes
  import opened SfsModel
  import opened SfsIndex
  import opened SfsRun

  // ----- what a source needs

  /** Blocks taken, entries now in the directory, host numbers now known, and whether all limits are kept. */
  datatype Need = Need(blocks: nat, entries: nat, seen: set<nat>, fits: bool)

  /** One more entry in a directory that has `n.entries`. */
  function PlusEntry(n: Need): Need {
    Need(n.blocks + 1 + Growth(n.entries), n.entries + 1, n.seen, n.fits && n.entries < 32768)
  }

  /** Index blocks that the next block of a file with `n` blocks takes. */
  function Growth(n: nat): nat {
    if n == 12 then 1
    else if n == 1036 then 2
    else if n > 1036 && (n - 1036) % 1024 == 0 then 1
    else 0
  }

  /** A file of `n` blocks, index included. */
  function FileCost(n: nat): nat {
    n + IndexCost(n)
  }

  predicate ReadsFull(chunks: seq<Chunk>) {
    forall k :: 0 <= k < |chunks| - 1 ==> |chunks[k]| == 4096
  }

  function NodeNeed(node: Node, entries: nat, seen: set<nat>): Need
    decreases node, 1
  {
    match node
    case File(h, chunks) =>
      if h in seen then PlusEntry(Need(0, entries, seen, true))
      else PlusEntry(Need(1 + FileCost(|chunks|), entries, seen + {h}, |chunks| <= 32768 && ReadsFull(chunks)))
    case Link(h, target) => PlusEntry(Need(1 + FileCost(1), entries, seen + {h}, |target| < 4096))
    case Dir(h, sub) =>
      var d := ListNeed(sub, PlusEntry(PlusEntry(Need(1, 0, seen + {h}, h !in seen))));
      PlusEntry(Need(d.blocks, entries, d.seen, d.fits))
    case Special => Need(0, entries, seen, true)
  }

  /** `so` has been used when the listing is reached. */
  function ListNeed(es: Listing, so: Need): Need
    decreases es, 0
  {
    match es
    case End => so
    case Item(name, node, rest) =>
      if |name| > 0 && name[0] == 46 then ListNeed(rest, so)
      else
        var n := NodeNeed(node, so.entries, so.seen);
        ListNeed(rest, Need(so.blocks + n.blocks, n.entries, n.seen, so.fits && |name| <= 255 && n.fits))
  }

  lemma {:induction false} ListNeedGrows(es: Listing, so: Need)
    ensures ListNeed(es, so).blocks >= so.blocks && (ListNeed(es, so).fits ==> so.fits)
  {
    match es
    case End =>
    case Item(name, node, rest) =>
      if Hidden(name) {
        ListNeedGrows(rest, so);
      } else {
        var n := NodeNeed(node, so.entries, so.seen);
        var fits := so.fits && |name| <= MAX_FNAME_LEN && n.fits;
        ListNeedGrows(rest, Need(so.blocks + n.blocks, n.entries, n.seen, fits));
      }
  }

  /** A file of n blocks takes no index block up to 12, one up to 1036, and beyond that two and one per 1024. */
  lemma {:induction false} GrowthSums(n: nat)
    ensures IndexCost(n + 1) == IndexCost(n) + Growth(n)
  {
  }

  // ----- when a step succeeds

  lemma UpdateCacheSome(fs: Fs, f: nat, cbp: Option<nat>, ino: nat)
    requires Sane(fs) && f < |fs.ci| && (cbp.Some? ==> cbp.value < |fs.cb|) && CacheRight(fs, cbp, ino)
    ensures UpdateCache(fs, f, cbp, ino).Some? <==> ino != 0 || fs.nextIno < fs.ninos
  {
  }

  lemma SingleSome(fs: Fs, f: nat, ino: nat)
    requires BlocksOk(fs) && FileAt(fs, f) && NDIRECT <= fs.ci[f].nblks < L1_NBLKS && fs.nextIno <= fs.ninos
    ensures PlaceSingle(fs, f, ino).Some? <==> fs.nextIno + Growth(fs.ci[f].nblks) <= fs.ninos
  {
    UpdateCacheSome(fs, f, fs.ci[f].l1, fs.ci[f].inode.indirect);
  }

  lemma TopSome(fs: Fs, f: nat)
    requires BlocksOk(fs) && FileAt(fs, f) && L1_NBLKS <= fs.ci[f].nblks < LN_NBLKS && fs.nextIno <= fs.ninos
    ensures PlaceTop(fs, f).Some? <==> fs.nextIno + (if fs.ci[f].nblks == L1_NBLKS then 1 else 0) <= fs.ninos
    ensures PlaceTop(fs, f).Some? ==>
      PlaceTop(fs, f).value.nextIno == fs.nextIno + (if fs.ci[f].nblks == L1_NBLKS then 1 else 0)
  {
    UpdateCacheSome(fs, f, fs.ci[f].l2, fs.ci[f].inode.dbIndirect);
  }

  lemma LeafSome(fs: Fs, f: nat, ino: nat)
    requires BlocksOk(fs) && f < |fs.ci| && L1_NBLKS <= fs.ci[f].nblks == |fs.files[f]| < LN_NBLKS
    requires Topped(fs.ci[f], fs.cb, fs.files[f], fs.own[f]) && fs.nextIno <= fs.ninos
    ensures PlaceLeaf(fs, f, ino).Some? <==>
      fs.nextIno + (if (fs.ci[f].nblks - L1_NBLKS) % NENTRY == 0 then 1 else 0) <= fs.ninos
  {
    var c, s, own := fs.ci[f], fs.files[f], fs.own[f];
    var d := fs.cb[own[1]].cache[(|s| - L1_NBLKS) / NENTRY];
    LeafCached(c, fs.cb, s, own);
    UpdateCacheSome(fs, f, c.l1, d);
    if (|s| - L1_NBLKS) % NENTRY == 0 {
      LeafBoundary(c, fs.cb, s, own);
    } else {
      LeafHit(c, fs.cb, s, own);
    }
  }

  lemma PlaceSome(fs: Fs, f: nat, ino: nat)
    requires BlocksOk(fs) && FileAt(fs, f) && fs.ci[f].nblks < LN_NBLKS && fs.nextIno <= fs.ninos
    ensures Place(fs, f, ino).Some? <==> fs.nextIno + Growth(fs.ci[f].nblks) <= fs.ninos
  {
    hide PlaceSingle, PlaceTop, PlaceLeaf;
    var n := fs.ci[f].nblks;
    if NDIRECT <= n < L1_NBLKS {
      SingleSome(fs, f, ino);
    } else if L1_NBLKS <= n {
      TopSome(fs, f);
      if PlaceTop(fs, f).Some? {
        var fs1 := PlaceTop(fs, f).value;
        TopIndexed(fs, f);
        TopKeeps(fs, f);
        LeafSome(fs1, f, ino);
      }
    }
  }

  lemma TopKeeps(fs: Fs, f: nat)
    requires Sane(fs) && f < |fs.ci| && PlaceTop(fs, f).Some?
    ensures PlaceTop(fs, f).value.ninos == fs.ninos && PlaceTop(fs, f).value.ci[f].nblks == fs.ci[f].nblks
  {
  }

  lemma AppendSome(fs: Fs, f: nat, size: nat, ino: nat)
    requires RunInv(fs) && f < |fs.ci| && size <= BLKSIZE
    ensures AppendBlock(fs, f, size, ino).Some? <==>
      |fs.files[f]| < LN_NBLKS && fs.nextIno + Growth(|fs.files[f]|) <= fs.ninos
  {
    assert FileAt(fs, f);
    if |fs.files[f]| < LN_NBLKS {
      PlaceSome(fs, f, ino);
    }
  }

  // ----- whole operations

  /** The state `fs'` is what `n` predicts from `fs`, for directory `cur`. */
  ghost predicate Predicted(fs: Fs, r: Option<Fs>, cur: nat, n: Need) {
    && (r.Some? <==> n.fits && fs.nextIno + n.blocks <= fs.ninos)
    && (r.Some? ==>
          && RunInv(r.value) && Ext(fs, r.value, cur) && cur < |fs.ci|
          && r.value.nextIno == fs.nextIno + n.blocks
          && |r.value.files[cur]| == n.entries && Hosts(r.value) == n.seen)
  }

  ghost function Hosts(fs: Fs): set<nat> {
    set i | 0 <= i < |fs.ci| :: fs.ci[i].host
  }

  lemma HostsSame(fs: Fs, fs': Fs, cur: nat)
    requires Ext(fs, fs', cur) && |fs'.ci| == |fs.ci|
    ensures Hosts(fs') == Hosts(fs)
  {
    assert forall i: nat :: SameInode(fs, fs', i, cur) ==> fs'.ci[i].host == fs.ci[i].host;
    forall h | h in Hosts(fs) ensures h in Hosts(fs') {
      var i :| 0 <= i < |fs.ci| && fs.ci[i].host == h;
      assert SameInode(fs, fs', i, cur);
    }
    forall h | h in Hosts(fs') ensures h in Hosts(fs) {
      var i :| 0 <= i < |fs'.ci| && fs'.ci[i].host == h;
      assert SameInode(fs, fs', i, cur);
    }
  }

  lemma AddEntryNeed(fs: Fs, cur: nat, f: nat, name: Name)
    requires RunInv(fs) && cur < |fs.ci| && f < |fs.ci| && fs.ci[cur].inode.kind == TYPE_DIR
    requires |name| <= MAX_FNAME_LEN
    ensures Predicted(fs, AddEntry(fs, cur, f, name), cur, PlusEntry(Need(0, |fs.files[cur]|, Hosts(fs), true)))
  {
    var r := AddEntry(fs, cur, f, name);
    var entry := Strcpy(fs.entry, name);
    var fs0 := fs.(entry := entry);
    var data := EntryBytes(fs.ci[f].ino, entry);
    SetEntryOk(fs, entry);
    if fs.nextIno < fs.ninos {
      StoreOk(fs0, data);
      AppendSome(Store(fs0, data).value, cur, NAME_SIZE, fs.nextIno);
    }
    if r.Some? {
      AddEntryOk(fs, cur, f, name);
      GrowthSums(|fs.files[cur]|);
      HostsSame(fs, r.value, cur);
    }
  }

  /** Two steps need what both need. */
  function Both(a: Need, b: Need): Need {
    Need(a.blocks + b.blocks, b.entries, b.seen, a.fits && b.fits)
  }

  lemma PredictedBoth(fs: Fs, r1: Option<Fs>, r: Option<Fs>, cur: nat, a: Need, b: Need)
    requires Predicted(fs, r1, cur, a) && (r1.None? ==> r.None?)
    requires r1.Some? ==> Predicted(r1.value, r, cur, b)
    ensures Predicted(fs, r, cur, Both(a, b))
  {
    if r1.Some? && r.Some? {
      ExtTrans(fs, r1.value, r.value, cur);
    }
  }

  lemma AllocSome(fs: Fs, h: nat, kind: nat)
    ensures AllocInode(fs, h, kind).Some? <==> fs.nextIno < fs.ninos
    ensures AllocInode(fs, h, kind).Some? ==> AllocInode(fs, h, kind).value.ninos == fs.ninos
  {
  }

  lemma AllocHosts(fs: Fs, h: nat, kind: nat)
    requires RunInv(fs) && AllocInode(fs, h, kind).Some?
    ensures Hosts(AllocInode(fs, h, kind).value) == Hosts(fs) + {h}
  {
    var fs1 := AllocInode(fs, h, kind).value;
    assert fs1.ci == fs.ci + [fs1.ci[|fs.ci|]] && fs1.ci[|fs.ci|].host == h;
    forall g | g in Hosts(fs) + {h} ensures g in Hosts(fs1) {
      if g != h {
        var i :| 0 <= i < |fs.ci| && fs.ci[i].host == g;
        assert fs1.ci[i].host == g;
      }
    }
  }

  /** One turn of the open_file loop. */
  function StoreChunk(fs: Fs, f: nat, d: Chunk): Option<Fs>
    requires Sane(fs) && f < |fs.ci|
  {
    var fs1 :- Store(fs, d);
    AppendBlock(fs1, f, |d|, fs.nextIno)
  }

  lemma ChunkNeed(fs: Fs, f: nat, d: Chunk)
    requires RunInv(fs) && f < |fs.ci|
    ensures var (r, n) := (StoreChunk(fs, f, d), |fs.files[f]|);
      && (r.Some? <==> n < LN_NBLKS && fs.nextIno + FileCost(n + 1) - FileCost(n) <= fs.ninos)
      && (r.Some? ==> RunInv(r.value) && f < |r.value.ci|
                      && r.value.nextIno == fs.nextIno + FileCost(n + 1) - FileCost(n)
                      && |r.value.files[f]| == n + 1 && r.value.ninos == fs.ninos)
  {
    GrowthSums(|fs.files[f]|);
    if fs.nextIno < fs.ninos {
      StoreOk(fs, d);
      var fs1 := Store(fs, d).value;
      AppendSome(fs1, f, |d|, fs.nextIno);
      if AppendBlock(fs1, f, |d|, fs.nextIno).Some? {
        AppendOk(fs1, f, |d|, fs.nextIno);
      }
    }
  }

  lemma {:induction false} OpenFileNeed(fs: Fs, f: nat, chunks: seq<Chunk>, last: nat)
    requires RunInv(fs) && f < |fs.ci|
    ensures var r := OpenFile(fs, f, chunks, last);
      var (n, m) := (|fs.files[f]|, |chunks|);
      && (r.Some? <==> (m == 0 || last == BLKSIZE) && ReadsFull(chunks) && (m == 0 || n + m <= LN_NBLKS)
                       && fs.nextIno + FileCost(n + m) - FileCost(n) <= fs.ninos)
      && (r.Some? ==> r.value.nextIno == fs.nextIno + FileCost(n + m) - FileCost(n))
    decreases |chunks|
  {
    hide AppendBlock, Store, FileCost, ReadsFull;
    if chunks != [] {
      var d, n := chunks[0], |fs.files[f]|;
      CostGrows(n + 1, n + |chunks|);
      FullTail(chunks);
      FullNone(chunks[1..]);
      ChunkNeed(fs, f, d);
      var r := StoreChunk(fs, f, d);
      if r.Some? {
        OpenFileNeed(r.value, f, chunks[1..], |d|);
      }
    } else {
      FullNone(chunks);
    }
  }

  lemma FullNone(chunks: seq<Chunk>)
    ensures |chunks| == 0 ==> ReadsFull(chunks)
  {
  }

  lemma FullTail(chunks: seq<Chunk>)
    requires chunks != []
    ensures ReadsFull(chunks) <==> (|chunks| == 1 || |chunks[0]| == BLKSIZE) && ReadsFull(chunks[1..])
  {
    var t := chunks[1..];
    if ReadsFull(chunks) {
      assert forall k :: 0 <= k < |t| - 1 ==> t[k] == chunks[k + 1];
    }
    if (|chunks| == 1 || |chunks[0]| == BLKSIZE) && ReadsFull(t) {
      forall k | 0 <= k < |chunks| - 1 ensures |chunks[k]| == BLKSIZE {
        assert k > 0 ==> chunks[k] == t[k - 1];
      }
    }
  }

  lemma {:induction false} CostGrows(a: nat, b: nat)
    requires a <= b
    ensures FileCost(a) <= FileCost(b)
    decreases b - a
  {
    if a < b {
      GrowthSums(a);
      CostGrows(a + 1, b);
    }
  }

  /** A fresh inode that has been filled: the old directory is untouched, one more host number is known. */
  lemma FilledNew(fs: Fs, fs1: Fs, fs2: Fs, cur: nat, h: nat, kind: nat)
    requires RunInv(fs) && cur < |fs.ci| && kind in {TYPE_FILE, TYPE_DIR, TYPE_LINK}
    requires AllocInode(fs, h, kind) == Some(fs1) && Ext(fs1, fs2, |fs.ci|) && |fs2.ci| == |fs1.ci|
    ensures Ext(fs, fs2, cur) && fs2.files[cur] == fs.files[cur] && Hosts(fs2) == Hosts(fs) + {h}
  {
    AllocInodeOk(fs, h, kind);
    AllocHosts(fs, h, kind);
    hide AllocInode;
    ExtTrans(fs, fs1, fs2, |fs.ci|);
    assert SameInode(fs, fs2, cur, |fs.ci|);
    ExtNew(fs, fs2, |fs.ci|, cur);
    HostsSame(fs1, fs2, |fs.ci|);
  }

  lemma FillNeed(fs: Fs, f: nat, chunks: seq<Chunk>)
    requires RunInv(fs) && f < |fs.ci| && fs.files[f] == []
    ensures var r := OpenFile(fs, f, chunks, BLKSIZE);
      && (r.Some? <==> |chunks| <= LN_NBLKS && ReadsFull(chunks) && fs.nextIno + FileCost(|chunks|) <= fs.ninos)
      && (r.Some? ==> && r.value.nextIno == fs.nextIno + FileCost(|chunks|)
                      && RunInv(r.value) && Ext(fs, r.value, f) && |r.value.ci| == |fs.ci|)
  {
    assert FileCost(0) == 0;
    hide OpenFile, FileCost, ReadsFull;
    OpenFileNeed(fs, f, chunks, BLKSIZE);
    if OpenFile(fs, f, chunks, BLKSIZE).Some? {
      OpenFileOk(fs, f, chunks, BLKSIZE);
    }
  }

  /** A fresh regular file, before its entry. */
  lemma NewFileNeed(fs: Fs, cur: nat, h: nat, chunks: seq<Chunk>)
    requires RunInv(fs) && cur < |fs.ci|
    ensures var r1 := AllocInode(fs, h, TYPE_FILE);
      var r := if r1.None? then None else OpenFile(r1.value, |fs.ci|, chunks, BLKSIZE);
      Predicted(fs, r, cur, Need(1 + FileCost(|chunks|), |fs.files[cur]|, Hosts(fs) + {h},
                                 |chunks| <= LN_NBLKS && ReadsFull(chunks)))
  {
    hide OpenFile, FileCost, ReadsFull;
    AllocSome(fs, h, TYPE_FILE);
    var r1 := AllocInode(fs, h, TYPE_FILE);
    if r1.Some? {
      AllocInodeOk(fs, h, TYPE_FILE);
      FillNeed(r1.value, |fs.ci|, chunks);
      var r := OpenFile(r1.value, |fs.ci|, chunks, BLKSIZE);
      hide AllocInode;
      if r.Some? {
        FilledNew(fs, r1.value, r.value, cur, h, TYPE_FILE);
      }
    }
  }

  lemma KeptKind(fs: Fs, fs': Fs, cur: nat)
    requires Ext(fs, fs', cur) && cur < |fs.ci|
    ensures fs'.ci[cur].inode.kind == fs.ci[cur].inode.kind
  {
    assert SameInode(fs, fs', cur, cur);
  }

  lemma AddFileNeed(fs: Fs, cur: nat, name: Name, h: nat, chunks: seq<Chunk>)
    requires RunInv(fs) && cur < |fs.ci| && fs.ci[cur].inode.kind == TYPE_DIR && |name| <= MAX_FNAME_LEN
    ensures Predicted(fs, AddFile(fs, cur, name, h, chunks), cur, NodeNeed(File(h, chunks), |fs.files[cur]|, Hosts(fs)))
  {
    hide AddEntry, OpenFile, AllocInode;
    var r := Newest(fs.ci, |fs.ci|, h);
    if r.Some? {
      AddEntryNeed(fs, cur, r.value, name);
    } else {
      var r1 := AllocInode(fs, h, TYPE_FILE);
      var r2 := if r1.None? then None else OpenFile(r1.value, |fs.ci|, chunks, BLKSIZE);
      NewFileNeed(fs, cur, h, chunks);
      if r2.Some? {
        KeptKind(fs, r2.value, cur);
        AddEntryNeed(r2.value, cur, |fs.ci|, name);
      }
      PredictedBoth(fs, r2, AddFile(fs, cur, name, h, chunks), cur,
                    Need(1 + FileCost(|chunks|), |fs.files[cur]|, Hosts(fs) + {h},
                         |chunks| <= LN_NBLKS && ReadsFull(chunks)),
                    PlusEntry(Need(0, |fs.files[cur]|, Hosts(fs) + {h}, true)));
    }
  }

  lemma NewLinkNeed(fs: Fs, cur: nat, h: nat, target: seq<Byte>)
    requires RunInv(fs) && cur < |fs.ci|
    ensures var r1 := AllocInode(fs, h, TYPE_LINK);
      var r := if r1.None? then None else OpenLink(r1.value, |fs.ci|, target);
      Predicted(fs, r, cur, Need(1 + FileCost(1), |fs.files[cur]|, Hosts(fs) + {h}, |target| < BLKSIZE))
  {
    var f, r1 := |fs.ci|, AllocInode(fs, h, TYPE_LINK);
    if r1.Some? {
      AllocInodeOk(fs, h, TYPE_LINK);
      var r := OpenLink(r1.value, f, target);
      if |target| < BLKSIZE && r1.value.nextIno < fs.ninos {
        StoreOk(r1.value, target);
        AppendSome(Store(r1.value, target).value, f, |target|, r1.value.nextIno);
      }
      if r.Some? {
        OpenLinkOk(r1.value, f, target);
        AppendOk(Store(r1.value, target).value, f, |target|, r1.value.nextIno);
        FilledNew(fs, r1.value, r.value, cur, h, TYPE_LINK);
      }
    }
  }

  lemma AddLinkNeed(fs: Fs, cur: nat, name: Name, h: nat, target: seq<Byte>)
    requires RunInv(fs) && cur < |fs.ci| && fs.ci[cur].inode.kind == TYPE_DIR && |name| <= MAX_FNAME_LEN
    ensures Predicted(fs, AddLink(fs, cur, name, h, target), cur, NodeNeed(Link(h, target), |fs.files[cur]|, Hosts(fs)))
  {
    hide AddEntry, OpenLink, AllocInode;
    var r1 := AllocInode(fs, h, TYPE_LINK);
    var r2 := if r1.None? then None else OpenLink(r1.value, |fs.ci|, target);
    NewLinkNeed(fs, cur, h, target);
    if r2.Some? {
      KeptKind(fs, r2.value, cur);
      AddEntryNeed(r2.value, cur, |fs.ci|, name);
    }
    PredictedBoth(fs, r2, AddLink(fs, cur, name, h, target), cur,
                  Need(1 + FileCost(1), |fs.files[cur]|, Hosts(fs) + {h}, |target| < BLKSIZE),
                  PlusEntry(Need(0, |fs.files[cur]|, Hosts(fs) + {h}, true)));
  }

  /** The directory `cur` itself, from empty, "." and ".." included. */
  lemma {:induction false} OpenDirNeed(fs: Fs, cur: nat, parent: nat, es: Listing)
    requires RunInv(fs) && cur < |fs.ci| && parent < |fs.ci| && fs.ci[cur].inode.kind == TYPE_DIR
    requires fs.files[cur] == []
    ensures Predicted(fs, OpenDir(fs, cur, parent, es), cur,
                      ListNeed(es, PlusEntry(PlusEntry(Need(0, 0, Hosts(fs), true)))))
    decreases es, 1
  {
    hide AddEntry;
    var n1 := PlusEntry(Need(0, 0, Hosts(fs), true));
    var n2 := PlusEntry(Need(0, 1, Hosts(fs), true));
    var r1 := AddEntry(fs, cur, cur, DOT);
    AddEntryNeed(fs, cur, cur, DOT);
    var r2 := if r1.None? then None else AddEntry(r1.value, cur, parent, DOTDOT);
    if r1.Some? {
      KeptKind(fs, r1.value, cur);
      AddEntryNeed(r1.value, cur, parent, DOTDOT);
    }
    PredictedBoth(fs, r1, r2, cur, n1, n2);
    if r2.Some? {
      KeptKind(fs, r2.value, cur);
    }
    WalkNeed(fs, r2, cur, es, Both(n1, n2));
  }

  /** The readdir loop from a state `r1` that `so` predicts. */
  lemma {:induction false} WalkNeed(fs: Fs, r1: Option<Fs>, cur: nat, es: Listing, so: Need)
    requires Predicted(fs, r1, cur, so) && (r1.Some? ==> r1.value.ci[cur].inode.kind == TYPE_DIR)
    ensures Predicted(fs, if r1.None? then None else Walk(r1.value, cur, es), cur, ListNeed(es, so))
    decreases es, 0
  {
    match es
    case End =>
    case Item(name, node, rest) =>
      if Hidden(name) {
        WalkNeed(fs, r1, cur, rest, so);
      } else {
        hide AddFile, AddLink, AddDir;
        var n := NodeNeed(node, so.entries, so.seen);
        var n' := n.(fits := |name| <= MAX_FNAME_LEN && n.fits);
        var r2 := if r1.None? then None else Visit(r1.value, cur, name, node);
        if r1.Some? {
          VisitNeed(r1.value, cur, name, node);
        }
        PredictedBoth(fs, r1, r2, cur, so, n');
        if r2.Some? {
          KeptKind(r1.value, r2.value, cur);
        }
        WalkNeed(fs, r2, cur, rest, Both(so, n'));
      }
  }

  lemma {:induction false} VisitNeed(fs: Fs, cur: nat, name: Name, node: Node)
    requires RunInv(fs) && cur < |fs.ci| && fs.ci[cur].inode.kind == TYPE_DIR && !Hidden(name)
    ensures var n := NodeNeed(node, |fs.files[cur]|, Hosts(fs));
      Predicted(fs, Visit(fs, cur, name, node), cur, n.(fits := |name| <= MAX_FNAME_LEN && n.fits))
    decreases node, 4
  {
    if |name| <= MAX_FNAME_LEN {
      match node
      case File(h, chunks) => AddFileNeed(fs, cur, name, h, chunks);
      case Link(h, target) => AddLinkNeed(fs, cur, name, h, target);
      case Dir(h, sub) => AddDirNeed(fs, cur, name, h, sub);
      case Special => ExtRefl(fs, cur);
    }
  }

  /** Needs add up from any starting point. */
  lemma {:induction false} ListNeedShift(es: Listing, so: Need, a: nat, ok: bool)
    ensures ListNeed(es, Need(a + so.blocks, so.entries, so.seen, ok && so.fits))
         == var n := ListNeed(es, so); Need(a + n.blocks, n.entries, n.seen, ok && n.fits)
  {
    match es
    case End =>
    case Item(name, node, rest) =>
      if Hidden(name) {
        ListNeedShift(rest, so, a, ok);
      } else {
        var n := NodeNeed(node, so.entries, so.seen);
        var fits := so.fits && |name| <= MAX_FNAME_LEN && n.fits;
        ListNeedShift(rest, Need(so.blocks + n.blocks, n.entries, n.seen, fits), a, ok);
      }
  }

  /** A fresh directory and everything below it, before its entry in the parent. */
  lemma {:induction false} NewDirNeed(fs: Fs, cur: nat, h: nat, sub: Listing)
    requires RunInv(fs) && cur < |fs.ci| && fs.ci[cur].inode.kind == TYPE_DIR && h !in Hosts(fs)
    ensures var r1 := AllocInode(fs, h, TYPE_DIR);
      var r := if r1.None? then None else OpenDir(r1.value, |fs.ci|, cur, sub);
      var d := ListNeed(sub, PlusEntry(PlusEntry(Need(1, 0, Hosts(fs) + {h}, true))));
      Predicted(fs, r, cur, Need(d.blocks, |fs.files[cur]|, d.seen, d.fits))
    decreases sub, 2
  {
    hide OpenDir;
    var f, r1 := |fs.ci|, AllocInode(fs, h, TYPE_DIR);
    var d0 := PlusEntry(PlusEntry(Need(0, 0, Hosts(fs) + {h}, true)));
    ListNeedShift(sub, d0, 1, true);
    if r1.Some? {
      AllocInodeOk(fs, h, TYPE_DIR);
      AllocHosts(fs, h, TYPE_DIR);
      OpenDirNeed(r1.value, f, cur, sub);
      var r := OpenDir(r1.value, f, cur, sub);
      if r.Some? {
        ExtTrans(fs, r1.value, r.value, f);
        assert SameInode(fs, r.value, cur, f);
        ExtNew(fs, r.value, f, cur);
      }
    }
  }

  lemma {:induction false} AddDirNeed(fs: Fs, cur: nat, name: Name, h: nat, sub: Listing)
    requires RunInv(fs) && cur < |fs.ci| && fs.ci[cur].inode.kind == TYPE_DIR && |name| <= MAX_FNAME_LEN
    ensures Predicted(fs, AddDir(fs, cur, name, h, sub), cur, NodeNeed(Dir(h, sub), |fs.files[cur]|, Hosts(fs)))
    decreases sub, 3
  {
    hide AddEntry, OpenDir, AllocInode;
    var d0 := PlusEntry(PlusEntry(Need(1, 0, Hosts(fs) + {h}, true)));
    var d := ListNeed(sub, d0);
    if Newest(fs.ci, |fs.ci|, h).Some? {
      ListNeedGrows(sub, PlusEntry(PlusEntry(Need(1, 0, Hosts(fs) + {h}, false))));
    } else {
      var r1 := AllocInode(fs, h, TYPE_DIR);
      var r2 := if r1.None? then None else OpenDir(r1.value, |fs.ci|, cur, sub);
      NewDirNeed(fs, cur, h, sub);
      if r2.Some? {
        KeptKind(fs, r2.value, cur);
        AddEntryNeed(r2.value, cur, |fs.ci|, name);
      }
      PredictedBoth(fs, r2, AddDir(fs, cur, name, h, sub), cur,
                    Need(d.blocks, |fs.files[cur]|, d.seen, d.fits),
                    PlusEntry(Need(0, |fs.files[cur]|, d.seen, true)));
    }
  }
}
