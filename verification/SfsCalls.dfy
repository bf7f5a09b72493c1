/** Every call of update_cache in a run, whether the run succeeds or not, and why none of them searches. */
module SfsCalls {
  import opened Wrappers
  import opened Bytes
  import opened SfsModel
  import opened SfsIndex
  import opened SfsRun

  /** The state and the values of `*cbp` and `*inop` at a call. */
  datatype Call = Call(fs: Fs, cbp: Option<nat>, ino: nat)

  // ----- the calls that each operation makes, in order

  function TopCall(fs: Fs, f: nat): Call
    requires f < |fs.ci|
  {
    Call(fs, fs.ci[f].l2, fs.ci[f].inode.dbIndirect)
  }

  function LeafCall(fs: Fs, f: nat): Call
    requires Sane(fs) && f < |fs.ci| && L1_NBLKS <= fs.ci[f].nblks < LN_NBLKS && fs.ci[f].l2.Some?
  {
    Call(fs, fs.ci[f].l1, fs.cb[fs.ci[f].l2.value].cache[(fs.ci[f].nblks - L1_NBLKS) / NENTRY])
  }

  function PlaceCalls(fs: Fs, f: nat): seq<Call>
    requires Sane(fs) && f < |fs.ci| && fs.ci[f].nblks < LN_NBLKS
  {
    if fs.ci[f].nblks < NDIRECT then []
    else if fs.ci[f].nblks < L1_NBLKS then [Call(fs, fs.ci[f].l1, fs.ci[f].inode.indirect)]
    else
      [TopCall(fs, f)] + match PlaceTop(fs, f)
                         case None => []
                         case Some(fs1) => [LeafCall(fs1, f)]
  }

  function AppendCalls(fs: Fs, f: nat, size: nat): seq<Call>
    requires Sane(fs) && f < |fs.ci|
  {
    if size > BLKSIZE || fs.ci[f].nblks >= LN_NBLKS then [] else PlaceCalls(fs, f)
  }

  function AddEntryCalls(fs: Fs, cur: nat, f: nat, name: Name): seq<Call>
    requires Sane(fs) && cur < |fs.ci| && f < |fs.ci|
  {
    if fs.ci[cur].inode.kind != TYPE_DIR || |name| > MAX_FNAME_LEN then []
    else
      var entry := Strcpy(fs.entry, name);
      match Store(fs.(entry := entry), EntryBytes(fs.ci[f].ino, entry))
      case None => []
      case Some(fs1) => AppendCalls(fs1, cur, NAME_SIZE)
  }

  function OpenFileCalls(fs: Fs, f: nat, chunks: seq<Chunk>, last: nat): seq<Call>
    requires Sane(fs) && f < |fs.ci|
    decreases |chunks|
  {
    if chunks == [] || last != BLKSIZE then []
    else match Store(fs, chunks[0])
      case None => []
      case Some(fs1) =>
        AppendCalls(fs1, f, |chunks[0]|) + match AppendBlock(fs1, f, |chunks[0]|, fs.nextIno)
                                           case None => []
                                           case Some(fs2) => OpenFileCalls(fs2, f, chunks[1..], |chunks[0]|)
  }

  function OpenLinkCalls(fs: Fs, f: nat, target: seq<Byte>): seq<Call>
    requires Sane(fs) && f < |fs.ci|
  {
    if |target| >= BLKSIZE then []
    else match Store(fs, target)
      case None => []
      case Some(fs1) => AppendCalls(fs1, f, |target|)
  }

  /** The entry behind a file that is, or is not, complete. */
  function ThenEntry(r: Option<Fs>, cur: nat, f: nat, name: Name): seq<Call>
    requires r.Some? ==> Sane(r.value) && cur < |r.value.ci| && f < |r.value.ci|
  {
    match r
    case None => []
    case Some(fs) => AddEntryCalls(fs, cur, f, name)
  }

  function AddFileCalls(fs: Fs, cur: nat, name: Name, host: nat, chunks: seq<Chunk>): seq<Call>
    requires Sane(fs) && cur < |fs.ci|
  {
    match Newest(fs.ci, |fs.ci|, host)
    case Some(f) => AddEntryCalls(fs, cur, f, name)
    case None =>
      match AllocInode(fs, host, TYPE_FILE)
      case None => []
      case Some(fs1) =>
        OpenFileCalls(fs1, |fs.ci|, chunks, BLKSIZE)
        + ThenEntry(OpenFile(fs1, |fs.ci|, chunks, BLKSIZE), cur, |fs.ci|, name)
  }

  function AddLinkCalls(fs: Fs, cur: nat, name: Name, host: nat, target: seq<Byte>): seq<Call>
    requires Sane(fs) && cur < |fs.ci|
  {
    match AllocInode(fs, host, TYPE_LINK)
    case None => []
    case Some(fs1) =>
      OpenLinkCalls(fs1, |fs.ci|, target) + ThenEntry(OpenLink(fs1, |fs.ci|, target), cur, |fs.ci|, name)
  }

  function AddDirCalls(fs: Fs, parent: nat, name: Name, host: nat, sub: Listing): seq<Call>
    requires Sane(fs) && parent < |fs.ci|
    decreases sub, 2
  {
    if Newest(fs.ci, |fs.ci|, host).Some? then []
    else match AllocInode(fs, host, TYPE_DIR)
      case None => []
      case Some(fs1) =>
        OpenDirCalls(fs1, |fs.ci|, parent, sub) + ThenEntry(OpenDir(fs1, |fs.ci|, parent, sub), parent, |fs.ci|, name)
  }

  function OpenDirCalls(fs: Fs, cur: nat, parent: nat, es: Listing): seq<Call>
    requires Sane(fs) && cur < |fs.ci| && parent < |fs.ci|
    decreases es, 1
  {
    AddEntryCalls(fs, cur, cur, DOT) + match AddEntry(fs, cur, cur, DOT)
      case None => []
      case Some(fs1) =>
        AddEntryCalls(fs1, cur, parent, DOTDOT) + match AddEntry(fs1, cur, parent, DOTDOT)
          case None => []
          case Some(fs2) => WalkCalls(fs2, cur, es)
  }

  function VisitCalls(fs: Fs, cur: nat, name: Name, node: Node): seq<Call>
    requires Sane(fs) && cur < |fs.ci|
    decreases node, 3
  {
    if Hidden(name) || |name| > MAX_FNAME_LEN then []
    else match node
      case File(host, chunks) => AddFileCalls(fs, cur, name, host, chunks)
      case Link(host, target) => AddLinkCalls(fs, cur, name, host, target)
      case Dir(host, sub) => AddDirCalls(fs, cur, name, host, sub)
      case Special => []
  }

  function WalkCalls(fs: Fs, cur: nat, es: Listing): seq<Call>
    requires Sane(fs) && cur < |fs.ci|
    decreases es, 0
  {
    match es
    case End => []
    case Item(name, node, rest) =>
      VisitCalls(fs, cur, name, node) + match Visit(fs, cur, name, node)
        case None => []
        case Some(fs1) => WalkCalls(fs1, cur, rest)
  }

  /** All calls of a run on an image of `bytes` bytes; close_sfs makes none. */
  function RunCalls(bytes: nat, es: Listing): seq<Call> {
    match Create(bytes)
    case None => []
    case Some(fs) => OpenDirCalls(fs, 0, 0, es)
  }

  // ----- the calls one after the other

  lemma Regroup(a: seq<Call>, b: seq<Call>, c: seq<Call>)
    ensures a + (b + c) == a + b + c
  {
  }

  lemma OpenFileInTurn(past: seq<Call>, fs: Fs, f: nat, chunks: seq<Chunk>, last: nat)
    requires Sane(fs) && f < |fs.ci| && chunks != [] && last == BLKSIZE
    ensures var (r, d) := (Store(fs, chunks[0]), chunks[0]);
      past + OpenFileCalls(fs, f, chunks, last) ==
        if r.None? then past
        else
          var r2 := AppendBlock(r.value, f, |d|, fs.nextIno);
          if r2.None? then past + AppendCalls(r.value, f, |d|)
          else past + AppendCalls(r.value, f, |d|) + OpenFileCalls(r2.value, f, chunks[1..], |d|)
  {
    hide Store, AppendBlock, AppendCalls;
    var r, d := Store(fs, chunks[0]), chunks[0];
    if r.Some? {
      var r2 := AppendBlock(r.value, f, |d|, fs.nextIno);
      if r2.Some? {
        Regroup(past, AppendCalls(r.value, f, |d|), OpenFileCalls(r2.value, f, chunks[1..], |d|));
      }
    }
  }

  lemma AddFileInTurn(past: seq<Call>, fs: Fs, cur: nat, name: Name, host: nat, chunks: seq<Chunk>)
    requires Sane(fs) && cur < |fs.ci| && Newest(fs.ci, |fs.ci|, host).None?
    ensures var r := AllocInode(fs, host, TYPE_FILE);
      past + AddFileCalls(fs, cur, name, host, chunks) ==
        if r.None? then past
        else
          var filled := past + OpenFileCalls(r.value, |fs.ci|, chunks, BLKSIZE);
          var r2 := OpenFile(r.value, |fs.ci|, chunks, BLKSIZE);
          if r2.None? then filled else filled + AddEntryCalls(r2.value, cur, |fs.ci|, name)
  {
    hide AllocInode, OpenFile, OpenFileCalls, AddEntryCalls;
    var r := AllocInode(fs, host, TYPE_FILE);
    if r.Some? {
      Regroup(past, OpenFileCalls(r.value, |fs.ci|, chunks, BLKSIZE),
              ThenEntry(OpenFile(r.value, |fs.ci|, chunks, BLKSIZE), cur, |fs.ci|, name));
    }
  }

  lemma AddDirInTurn(past: seq<Call>, fs: Fs, parent: nat, name: Name, host: nat, sub: Listing)
    requires Sane(fs) && parent < |fs.ci| && Newest(fs.ci, |fs.ci|, host).None?
    ensures var r := AllocInode(fs, host, TYPE_DIR);
      past + AddDirCalls(fs, parent, name, host, sub) ==
        if r.None? then past
        else
          var filled := past + OpenDirCalls(r.value, |fs.ci|, parent, sub);
          var r2 := OpenDir(r.value, |fs.ci|, parent, sub);
          if r2.None? then filled else filled + AddEntryCalls(r2.value, parent, |fs.ci|, name)
  {
    hide AllocInode, OpenDir, OpenDirCalls, AddEntryCalls;
    var r := AllocInode(fs, host, TYPE_DIR);
    if r.Some? {
      Regroup(past, OpenDirCalls(r.value, |fs.ci|, parent, sub),
              ThenEntry(OpenDir(r.value, |fs.ci|, parent, sub), parent, |fs.ci|, name));
    }
  }

  lemma OpenDirInTurn(past: seq<Call>, fs: Fs, cur: nat, parent: nat, es: Listing)
    requires Sane(fs) && cur < |fs.ci| && parent < |fs.ci|
    ensures var (r, dot) := (AddEntry(fs, cur, cur, DOT), past + AddEntryCalls(fs, cur, cur, DOT));
      past + OpenDirCalls(fs, cur, parent, es) ==
        if r.None? then dot
        else
          var r2 := AddEntry(r.value, cur, parent, DOTDOT);
          var dots := dot + AddEntryCalls(r.value, cur, parent, DOTDOT);
          if r2.None? then dots else dots + WalkCalls(r2.value, cur, es)
  {
    hide AddEntry, AddEntryCalls, WalkCalls;
    var r, dot := AddEntry(fs, cur, cur, DOT), AddEntryCalls(fs, cur, cur, DOT);
    if r.Some? {
      var r2, dots := AddEntry(r.value, cur, parent, DOTDOT), AddEntryCalls(r.value, cur, parent, DOTDOT);
      Regroup(past, dot, dots + if r2.None? then [] else WalkCalls(r2.value, cur, es));
      if r2.Some? {
        Regroup(past + dot, dots, WalkCalls(r2.value, cur, es));
      }
    }
  }

  lemma WalkInTurn(past: seq<Call>, fs: Fs, cur: nat, es: Listing)
    requires Sane(fs) && cur < |fs.ci| && es.Item?
    ensures var (r, visited) := (Visit(fs, cur, es.name, es.node), past + VisitCalls(fs, cur, es.name, es.node));
      past + WalkCalls(fs, cur, es) == if r.None? then visited else visited + WalkCalls(r.value, cur, es.rest)
  {
    hide Visit, VisitCalls;
    var r := Visit(fs, cur, es.name, es.node);
    if r.Some? {
      Regroup(past, VisitCalls(fs, cur, es.name, es.node), WalkCalls(r.value, cur, es.rest));
    }
  }

  // ----- no call searches

  ghost predicate AllRight(cs: seq<Call>) {
    forall c :: c in cs ==> RightCall(c)
  }

  /** The call allocates, or finds the cached block right: neither the search nor the assertion is reached. */
  ghost predicate RightCall(c: Call) {
    CacheRight(c.fs, c.cbp, c.ino)
  }

  lemma AllRightJoin(a: seq<Call>, b: seq<Call>)
    requires AllRight(a) && AllRight(b)
    ensures AllRight(a + b)
  {
  }

  lemma TopRight(fs: Fs, f: nat)
    requires BlocksOk(fs) && FileAt(fs, f) && L1_NBLKS <= fs.ci[f].nblks
    ensures RightCall(TopCall(fs, f))
  {
  }

  lemma LeafRight(fs: Fs, f: nat)
    requires BlocksOk(fs) && FileAt(fs, f) && L1_NBLKS <= fs.ci[f].nblks < LN_NBLKS && PlaceTop(fs, f).Some?
    ensures RightCall(LeafCall(PlaceTop(fs, f).value, f))
  {
    var fs1 := PlaceTop(fs, f).value;
    TopIndexed(fs, f);
    LeafCached(fs1.ci[f], fs1.cb, fs1.files[f], fs1.own[f]);
  }

  lemma PlaceRight(fs: Fs, f: nat)
    requires BlocksOk(fs) && FileAt(fs, f) && fs.ci[f].nblks < LN_NBLKS
    ensures AllRight(PlaceCalls(fs, f))
  {
    if fs.ci[f].nblks >= L1_NBLKS {
      TopRight(fs, f);
      if PlaceTop(fs, f).Some? {
        LeafRight(fs, f);
      }
    }
  }

  lemma AppendRight(fs: Fs, f: nat, size: nat)
    requires RunInv(fs) && f < |fs.ci|
    ensures AllRight(AppendCalls(fs, f, size))
  {
    assert FileAt(fs, f);
    if fs.ci[f].nblks < LN_NBLKS {
      PlaceRight(fs, f);
    }
  }

  lemma AddEntryRight(fs: Fs, cur: nat, f: nat, name: Name)
    requires RunInv(fs) && cur < |fs.ci| && f < |fs.ci|
    ensures AllRight(AddEntryCalls(fs, cur, f, name))
  {
    if |name| <= MAX_FNAME_LEN {
      var entry := Strcpy(fs.entry, name);
      SetEntryOk(fs, entry);
      var r := Store(fs.(entry := entry), EntryBytes(fs.ci[f].ino, entry));
      if r.Some? {
        StoreOk(fs.(entry := entry), EntryBytes(fs.ci[f].ino, entry));
        AppendRight(r.value, cur, NAME_SIZE);
      }
    }
  }

  lemma {:induction false} OpenFileRight(fs: Fs, f: nat, chunks: seq<Chunk>, last: nat)
    requires RunInv(fs) && f < |fs.ci|
    ensures AllRight(OpenFileCalls(fs, f, chunks, last))
    decreases |chunks|
  {
    hide AppendBlock, AppendCalls;
    if chunks != [] && last == BLKSIZE && Store(fs, chunks[0]).Some? {
      var d, fs1 := chunks[0], Store(fs, chunks[0]).value;
      StoreOk(fs, d);
      AppendRight(fs1, f, |d|);
      var r := AppendBlock(fs1, f, |d|, fs.nextIno);
      if r.Some? {
        AppendOk(fs1, f, |d|, fs.nextIno);
        OpenFileRight(r.value, f, chunks[1..], |d|);
        AllRightJoin(AppendCalls(fs1, f, |d|), OpenFileCalls(r.value, f, chunks[1..], |d|));
      }
    }
  }

  lemma OpenLinkRight(fs: Fs, f: nat, target: seq<Byte>)
    requires RunInv(fs) && f < |fs.ci|
    ensures AllRight(OpenLinkCalls(fs, f, target))
  {
    if Store(fs, target).Some? {
      StoreOk(fs, target);
      AppendRight(Store(fs, target).value, f, |target|);
    }
  }

  lemma ThenEntryRight(r: Option<Fs>, cur: nat, f: nat, name: Name)
    requires r.Some? ==> RunInv(r.value) && cur < |r.value.ci| && f < |r.value.ci|
    ensures AllRight(ThenEntry(r, cur, f, name))
  {
    if r.Some? {
      AddEntryRight(r.value, cur, f, name);
    }
  }

  lemma AddFileRight(fs: Fs, cur: nat, name: Name, host: nat, chunks: seq<Chunk>)
    requires RunInv(fs) && cur < |fs.ci|
    ensures AllRight(AddFileCalls(fs, cur, name, host, chunks))
  {
    hide AddEntryCalls, OpenFileCalls, ThenEntry, OpenFile;
    match Newest(fs.ci, |fs.ci|, host)
    case Some(f) => AddEntryRight(fs, cur, f, name);
    case None =>
      var r := AllocInode(fs, host, TYPE_FILE);
      if r.Some? {
        AllocInodeOk(fs, host, TYPE_FILE);
        OpenFileRight(r.value, |fs.ci|, chunks, BLKSIZE);
        var r2 := OpenFile(r.value, |fs.ci|, chunks, BLKSIZE);
        if r2.Some? {
          OpenFileOk(r.value, |fs.ci|, chunks, BLKSIZE);
        }
        ThenEntryRight(r2, cur, |fs.ci|, name);
        AllRightJoin(OpenFileCalls(r.value, |fs.ci|, chunks, BLKSIZE), ThenEntry(r2, cur, |fs.ci|, name));
      }
  }

  lemma AddLinkRight(fs: Fs, cur: nat, name: Name, host: nat, target: seq<Byte>)
    requires RunInv(fs) && cur < |fs.ci|
    ensures AllRight(AddLinkCalls(fs, cur, name, host, target))
  {
    hide OpenLinkCalls, ThenEntry, OpenLink;
    var r := AllocInode(fs, host, TYPE_LINK);
    if r.Some? {
      AllocInodeOk(fs, host, TYPE_LINK);
      OpenLinkRight(r.value, |fs.ci|, target);
      var r2 := OpenLink(r.value, |fs.ci|, target);
      if r2.Some? {
        OpenLinkOk(r.value, |fs.ci|, target);
      }
      ThenEntryRight(r2, cur, |fs.ci|, name);
      AllRightJoin(OpenLinkCalls(r.value, |fs.ci|, target), ThenEntry(r2, cur, |fs.ci|, name));
    }
  }

  lemma {:induction false} AddDirRight(fs: Fs, parent: nat, name: Name, host: nat, sub: Listing)
    requires RunInv(fs) && parent < |fs.ci|
    ensures AllRight(AddDirCalls(fs, parent, name, host, sub))
    decreases sub, 2
  {
    hide OpenDirCalls, ThenEntry, OpenDir;
    var r := AllocInode(fs, host, TYPE_DIR);
    if r.Some? {
      AllocInodeOk(fs, host, TYPE_DIR);
      OpenDirRight(r.value, |fs.ci|, parent, sub);
      var r2 := OpenDir(r.value, |fs.ci|, parent, sub);
      if r2.Some? {
        OpenDirOk(r.value, |fs.ci|, parent, sub);
      }
      ThenEntryRight(r2, parent, |fs.ci|, name);
      AllRightJoin(OpenDirCalls(r.value, |fs.ci|, parent, sub), ThenEntry(r2, parent, |fs.ci|, name));
    }
  }

  lemma {:induction false} OpenDirRight(fs: Fs, cur: nat, parent: nat, es: Listing)
    requires RunInv(fs) && cur < |fs.ci| && parent < |fs.ci|
    ensures AllRight(OpenDirCalls(fs, cur, parent, es))
    decreases es, 1
  {
    hide AddEntryCalls, AddEntry, WalkCalls;
    var r := AddEntry(fs, cur, cur, DOT);
    AddEntryRight(fs, cur, cur, DOT);
    if r.Some? {
      AddEntryOk(fs, cur, cur, DOT);
      var r2 := AddEntry(r.value, cur, parent, DOTDOT);
      AddEntryRight(r.value, cur, parent, DOTDOT);
      if r2.Some? {
        AddEntryOk(r.value, cur, parent, DOTDOT);
        WalkRight(r2.value, cur, es);
        AllRightJoin(AddEntryCalls(r.value, cur, parent, DOTDOT), WalkCalls(r2.value, cur, es));
      }
    }
  }

  lemma {:induction false} VisitRight(fs: Fs, cur: nat, name: Name, node: Node)
    requires RunInv(fs) && cur < |fs.ci|
    ensures AllRight(VisitCalls(fs, cur, name, node))
    decreases node, 3
  {
    hide AddFileCalls, AddLinkCalls, AddDirCalls;
    match node
    case File(host, chunks) => AddFileRight(fs, cur, name, host, chunks);
    case Link(host, target) => AddLinkRight(fs, cur, name, host, target);
    case Dir(host, sub) => AddDirRight(fs, cur, name, host, sub);
    case Special =>
  }

  lemma {:induction false} WalkRight(fs: Fs, cur: nat, es: Listing)
    requires RunInv(fs) && cur < |fs.ci|
    ensures AllRight(WalkCalls(fs, cur, es))
    decreases es, 0
  {
    match es
    case End =>
    case Item(name, node, rest) =>
      hide VisitCalls, Visit;
      VisitRight(fs, cur, name, node);
      var r := Visit(fs, cur, name, node);
      if r.Some? {
        VisitOk(fs, cur, name, node);
        WalkRight(r.value, cur, rest);
        AllRightJoin(VisitCalls(fs, cur, name, node), WalkCalls(r.value, cur, rest));
      }
  }

  /** A call of that kind counts no search, and can only fail for want of a free block. */
  lemma RightCallOnly(c: Call, f: nat)
    requires RightCall(c) && Sane(c.fs) && f < |c.fs.ci| && (c.cbp.Some? ==> c.cbp.value < |c.fs.cb|)
    ensures match UpdateCache(c.fs, f, c.cbp, c.ino)
      case None => c.ino == 0 && c.fs.nextIno >= c.fs.ninos
      case Some(r) => r.0.searches == c.fs.searches && r.0.cb[r.1].ino == (if c.ino == 0 then c.fs.nextIno else c.ino)
  {
  }
}
