/** Link counts of directories: two, one for each subdirectory, and one for each stray file. */
module SfsDirLinks {
  import opened Wrappers
  import opened Bytes
  import opened SfsModel
  import opened SfsIndex
  import opened SfsRun
  import opened SfsImage
  import opened SfsRoundTrip
  import opened SfsDirs
  import opened SfsReader
  import opened SfsLinks

  /** Entries naming the directory numbered `g` that a visit adds, in the directory numbered `dir` and below. */
  function NamedBy(node: Node, dir: nat, m: Seen, g: nat): nat {
    (if node.Dir? && dir == g then 1 else 0) + OwnLinks(node, g) + Strays(node, m, g)
  }

  /** Entries naming it that a walk adds. */
  function ListNamedBy(es: Listing, dir: nat, m: Seen, g: nat): nat {
    (if dir == g then Subdirs(es) else 0) + ListOwnLinks(es, g) + ListStrays(es, m, g)
  }

  /** All entries of the image that name inode `i`. */
  ghost function Named(fs: Fs, i: nat): nat
    requires i < |fs.ci| == |fs.files|
  {
    RefsAll(fs, |fs.ci|, fs.ci[i].ino)
  }

  ghost predicate IsDir(fs: Fs, i: nat) {
    i < |fs.ci| == |fs.files| && fs.ci[i].inode.kind == TYPE_DIR
  }

  /** Directory `i` is named by `k` entries more than before; if it is new, its number was not known. */
  ghost predicate GotAt(fs: Fs, fs': Fs, m: Seen, i: nat, k: nat)
    requires |fs.ci| == |fs.files|
  {
    && i < |fs'.ci| == |fs'.files| && Named(fs', i) == (if i < |fs.ci| then Named(fs, i) else 0) + k
    && (i >= |fs.ci| ==> fs'.ci[i].host !in m)
  }

  /** What a visit gives to every directory there is, when it works on directory `cur`. */
  ghost predicate AllGot(fs: Fs, fs': Fs, cur: nat, node: Node, m: Seen)
    requires cur < |fs.ci| == |fs.files|
  {
    forall i: nat :: IsDir(fs', i) ==> GotAt(fs, fs', m, i, NamedBy(node, fs.ci[cur].host, m, fs'.ci[i].host))
  }

  ghost predicate ListGot(fs: Fs, fs': Fs, cur: nat, es: Listing, m: Seen)
    requires cur < |fs.ci| == |fs.files|
  {
    forall i: nat :: IsDir(fs', i) ==> GotAt(fs, fs', m, i, ListNamedBy(es, fs.ci[cur].host, m, fs'.ci[i].host))
  }

  /** What open_dir gives: the directory has its ".", its parent the "..". */
  ghost predicate DirGot(fs: Fs, fs': Fs, cur: nat, parent: nat, es: Listing, m: Seen)
    requires cur < |fs.ci| == |fs.files|
  {
    forall i: nat :: IsDir(fs', i) ==> GotAt(fs, fs', m, i, DirNamedBy(fs, fs', cur, parent, es, m, i))
  }

  ghost function DirNamedBy(fs: Fs, fs': Fs, cur: nat, parent: nat, es: Listing, m: Seen, i: nat): nat
    requires cur < |fs.ci| && i < |fs'.ci|
  {
    (if i == cur then 1 else 0) + (if i == parent then 1 else 0)
    + ListNamedBy(es, fs.ci[cur].host, m, fs'.ci[i].host)
  }

  // ----- steps that do not walk

  /** add_entry names one inode. */
  lemma EntryNames(fs: Fs, cur: nat, f: nat, name: Name, i: nat)
    requires RunInv(fs) && cur < |fs.ci| && f < |fs.ci| && i < |fs.ci| && AddEntry(fs, cur, f, name).Some?
    ensures var fs' := AddEntry(fs, cur, f, name).value;
      && RunInv(fs') && Ext(fs, fs', cur) && |fs'.ci| == |fs.ci| && fs'.ci[i].host == fs.ci[i].host
      && fs'.ci[i].inode.kind == fs.ci[i].inode.kind && Named(fs', i) == Named(fs, i) + if i == f then 1 else 0
  {
    hide AddEntry;
    AddEntryOk(fs, cur, f, name);
    assert SameInode(fs, AddEntry(fs, cur, f, name).value, i, cur) && InoAt(fs, i) && InoAt(fs, f);
    AddEntryRefs(fs, cur, f, name, fs.ci[i].ino);
  }

  /** A new inode has no entries and is not named yet. */
  lemma AllocNames(fs: Fs, h: nat, kind: nat, i: nat)
    requires RunInv(fs) && LinksOk(fs) && AllocInode(fs, h, kind).Some? && kind in {TYPE_FILE, TYPE_DIR, TYPE_LINK}
    requires i <= |fs.ci|
    ensures var fs' := AllocInode(fs, h, kind).value;
      i < |fs'.ci| == |fs'.files| && Named(fs', i) == if i < |fs.ci| then Named(fs, i) else 0
  {
    var fs' := AllocInode(fs, h, kind).value;
    AllocInodeOk(fs, h, kind);
    RefsAllFrame(fs, fs', |fs.ci|, |fs.ci|, fs'.ci[i].ino);
    assert NoRefs(fs, fs.nextIno);
  }

  /** A file or link that is new names nothing, and its entry names no directory. */
  lemma NewNames(fs: Fs, h: nat, kind: nat, fs2: Fs, cur: nat, name: Name, i: nat)
    requires RunInv(fs) && LinksOk(fs) && cur < |fs.ci| && kind in {TYPE_FILE, TYPE_LINK}
    requires AllocInode(fs, h, kind).Some?
    requires var fs1 := AllocInode(fs, h, kind).value;
      RunInv(fs2) && Ext(fs1, fs2, |fs.ci|) && |fs2.ci| == |fs1.ci| && AddEntry(fs2, cur, |fs.ci|, name).Some?
    requires IsDir(AddEntry(fs2, cur, |fs.ci|, name).value, i)
    ensures i < |fs.ci| && Named(AddEntry(fs2, cur, |fs.ci|, name).value, i) == Named(fs, i)
  {
    hide AddEntry, LinksOk;
    var f, fs1 := |fs.ci|, AllocInode(fs, h, kind).value;
    AllocInodeOk(fs, h, kind);
    EntryNames(fs2, cur, f, name, i);
    assert SameInode(fs1, fs2, f, f) && SameInode(fs1, fs2, i, f);
    AllocNames(fs, h, kind, i);
    RefsAllFrame(fs1, fs2, f, |fs1.ci|, fs1.ci[i].ino);
  }

  /** Two directories of one number are one. */
  lemma SameDir(fs: Fs, m: Seen, i: nat, j: nat)
    requires Known(fs, m) && IsDir(fs, i) && IsDir(fs, j)
    ensures fs.ci[i].host == fs.ci[j].host ==> i == j
  {
    assert i < j ==> OneObject(fs, i, j);
    assert j < i ==> OneObject(fs, j, i);
  }

  /** A file that is known is a stray if it is taken for a directory. */
  lemma KnownFileNames(fs: Fs, cur: nat, name: Name, h: nat, chunks: seq<Chunk>, m: Seen, f: nat, i: nat)
    requires RunInv(fs) && IsDir(fs, cur) && Known(fs, m) && Newest(fs.ci, |fs.ci|, h) == Some(f)
    requires AddEntry(fs, cur, f, name).Some? && IsDir(AddEntry(fs, cur, f, name).value, i)
    ensures var fs' := AddEntry(fs, cur, f, name).value;
      i < |fs.ci| == |fs.files| && Named(fs', i) == Named(fs, i) + Strays(File(h, chunks), m, fs'.ci[i].host)
  {
    hide AddEntry, Known;
    KnownNewest(fs, m, h);
    AddEntryOk(fs, cur, f, name);
    EntryNames(fs, cur, f, name, i);
    if IsDir(fs, f) {
      SameDir(fs, m, i, f);
    }
  }

  lemma FileNames(fs: Fs, cur: nat, name: Name, h: nat, chunks: seq<Chunk>, m: Seen)
    requires RunInv(fs) && LinksOk(fs) && IsDir(fs, cur) && Known(fs, m) && AddFile(fs, cur, name, h, chunks).Some?
    ensures AllGot(fs, AddFile(fs, cur, name, h, chunks).value, cur, File(h, chunks), m)
  {
    hide AddEntry, OpenFile, Known, LinksOk, RolesOk, SpaceOk, DataOk;
    var fs' := AddFile(fs, cur, name, h, chunks).value;
    KnownNewest(fs, m, h);
    forall i: nat | IsDir(fs', i)
      ensures GotAt(fs, fs', m, i, NamedBy(File(h, chunks), fs.ci[cur].host, m, fs'.ci[i].host))
    {
      match Newest(fs.ci, |fs.ci|, h)
      case Some(f) => KnownFileNames(fs, cur, name, h, chunks, m, f, i);
      case None =>
        var fs1 := AllocInode(fs, h, TYPE_FILE).value;
        AllocInodeOk(fs, h, TYPE_FILE);
        OpenFileOk(fs1, |fs.ci|, chunks, BLKSIZE);
        NewNames(fs, h, TYPE_FILE, OpenFile(fs1, |fs.ci|, chunks, BLKSIZE).value, cur, name, i);
    }
  }

  lemma LinkNames(fs: Fs, cur: nat, name: Name, h: nat, target: seq<Byte>, m: Seen)
    requires RunInv(fs) && LinksOk(fs) && IsDir(fs, cur) && AddLink(fs, cur, name, h, target).Some?
    ensures AllGot(fs, AddLink(fs, cur, name, h, target).value, cur, Link(h, target), m)
  {
    hide AddEntry, OpenLink, LinksOk, RolesOk, SpaceOk, DataOk;
    var fs' := AddLink(fs, cur, name, h, target).value;
    var fs1 := AllocInode(fs, h, TYPE_LINK).value;
    AllocInodeOk(fs, h, TYPE_LINK);
    OpenLinkOk(fs1, |fs.ci|, target);
    forall i: nat | IsDir(fs', i)
      ensures GotAt(fs, fs', m, i, NamedBy(Link(h, target), fs.ci[cur].host, m, fs'.ci[i].host))
    {
      NewNames(fs, h, TYPE_LINK, OpenLink(fs1, |fs.ci|, target).value, cur, name, i);
    }
  }

  // ----- directories

  /** Numbers that are not known behind a visit had no stray files in it. */
  lemma {:induction false} NoStraysUnknown(node: Node, m: Seen, g: nat)
    requires g !in TrackNode(node, m)
    ensures Strays(node, m, g) == 0
    decreases node, 1
  {
    if node.Dir? {
      ListNoStraysUnknown(node.entries, m[node.host := Directory], g);
    }
  }

  lemma {:induction false} ListNoStraysUnknown(es: Listing, m: Seen, g: nat)
    requires g !in TrackList(es, m)
    ensures ListStrays(es, m, g) == 0
    decreases es, 0
  {
    match es
    case End =>
    case Item(name, node, rest) =>
      if Skipped(name, node) {
        ListNoStraysUnknown(rest, m, g);
      } else {
        TrackListGrows(rest, TrackNode(node, m));
        NoStraysUnknown(node, m, g);
        ListNoStraysUnknown(rest, TrackNode(node, m), g);
      }
  }

  /** The entries "." and ".." of a directory. */
  lemma DotsNames(fs: Fs, cur: nat, parent: nat, i: nat)
    requires RunInv(fs) && cur < |fs.ci| && parent < |fs.ci| && i < |fs.ci| && AddEntry(fs, cur, cur, DOT).Some?
    requires AddEntry(AddEntry(fs, cur, cur, DOT).value, cur, parent, DOTDOT).Some?
    ensures var fs2 := AddEntry(AddEntry(fs, cur, cur, DOT).value, cur, parent, DOTDOT).value;
      && |fs2.ci| == |fs2.files| == |fs.ci|
      && Named(fs2, i) == Named(fs, i) + (if i == cur then 1 else 0) + (if i == parent then 1 else 0)
  {
    hide AddEntry;
    EntryNames(fs, cur, cur, DOT, i);
    EntryNames(AddEntry(fs, cur, cur, DOT).value, cur, parent, DOTDOT, i);
  }

  lemma {:induction false} OpenDirNames(fs: Fs, cur: nat, parent: nat, es: Listing, m: Seen)
    requires RunInv(fs) && LinksOk(fs) && IsDir(fs, cur) && parent < |fs.ci| && Known(fs, m) && fs.files[cur] == []
    requires OpenDir(fs, cur, parent, es).Some?
    ensures ListFresh(es, m) && DirGot(fs, OpenDir(fs, cur, parent, es).value, cur, parent, es, m)
    decreases es, 1
  {
    hide AddEntry, Known, ListFresh, Walk, LinksOk, RolesOk, SpaceOk, DataOk;
    var fs1 := AddEntry(fs, cur, cur, DOT).value;
    var fs2 := AddEntry(fs1, cur, parent, DOTDOT).value;
    DotsAt(fs, cur, parent, m);
    AddEntryOk(fs, cur, cur, DOT);
    AddEntryLinks(fs, cur, cur, DOT);
    AddEntryLinks(fs1, cur, parent, DOTDOT);
    WalkNames(fs2, cur, es, m);
    var fs' := Walk(fs2, cur, es).value;
    forall i: nat | IsDir(fs', i) ensures GotAt(fs, fs', m, i, DirNamedBy(fs, fs', cur, parent, es, m, i)) {
      assert GotAt(fs2, fs', m, i, ListNamedBy(es, fs2.ci[cur].host, m, fs'.ci[i].host));
      if i < |fs.ci| {
        DotsNames(fs, cur, parent, i);
      }
    }
  }

  /** A new directory before its entry is added. */
  lemma {:induction false} NewDirNames(fs: Fs, cur: nat, h: nat, sub: Listing, m: Seen)
    requires RunInv(fs) && LinksOk(fs) && cur < |fs.ci| && Known(fs, m) && h !in m
    requires AllocInode(fs, h, TYPE_DIR).Some?
    requires OpenDir(AllocInode(fs, h, TYPE_DIR).value, |fs.ci|, cur, sub).Some?
    ensures var fs1 := AllocInode(fs, h, TYPE_DIR).value;
      && ListFresh(sub, m[h := Directory]) && |fs1.ci| == |fs1.files| == |fs.ci| + 1 && fs1.ci[|fs.ci|].host == h
      && DirGot(fs1, OpenDir(fs1, |fs.ci|, cur, sub).value, |fs.ci|, cur, sub, m[h := Directory])
    decreases sub, 2
  {
    hide OpenDir, Known, LinksOk;
    AllocInodeOk(fs, h, TYPE_DIR);
    AllocInodeLinks(fs, h, TYPE_DIR);
    KnownAlloc(fs, m, h, TYPE_DIR);
    OpenDirNames(AllocInode(fs, h, TYPE_DIR).value, |fs.ci|, cur, sub, m[h := Directory]);
  }

  /** One directory `i` in the state behind add_dir. */
  lemma DirNamesAt(fs: Fs, cur: nat, name: Name, h: nat, sub: Listing, m: Seen, i: nat)
    requires RunInv(fs) && LinksOk(fs) && IsDir(fs, cur) && Known(fs, m) && h !in m
    requires AllocInode(fs, h, TYPE_DIR).Some?
    requires var fs1 := AllocInode(fs, h, TYPE_DIR).value;
      && |fs1.ci| == |fs1.files| == |fs.ci| + 1 && fs1.ci[|fs.ci|].host == h
      && OpenDir(fs1, |fs.ci|, cur, sub).Some?
      && DirGot(fs1, OpenDir(fs1, |fs.ci|, cur, sub).value, |fs.ci|, cur, sub, m[h := Directory])
      && AddEntry(OpenDir(fs1, |fs.ci|, cur, sub).value, cur, |fs.ci|, name).Some?
      && IsDir(AddEntry(OpenDir(fs1, |fs.ci|, cur, sub).value, cur, |fs.ci|, name).value, i)
    ensures var fs1 := AllocInode(fs, h, TYPE_DIR).value;
      var fs' := AddEntry(OpenDir(fs1, |fs.ci|, cur, sub).value, cur, |fs.ci|, name).value;
      GotAt(fs, fs', m, i, NamedBy(Dir(h, sub), fs.ci[cur].host, m, fs'.ci[i].host))
  {
    hide OpenDir, AddEntry, Known, LinksOk, RolesOk, SpaceOk, DataOk, FieldsAt, Named, ListOwnLinks, ListStrays;
    var f, fs1 := |fs.ci|, AllocInode(fs, h, TYPE_DIR).value;
    var fs2 := OpenDir(fs1, f, cur, sub).value;
    AllocInodeOk(fs, h, TYPE_DIR);
    OpenDirOk(fs1, f, cur, sub);
    EntryNames(fs2, cur, f, name, i);
    var m1 := m[h := Directory];
    assert IsDir(fs2, i) && GotAt(fs1, fs2, m1, i, DirNamedBy(fs1, fs2, f, cur, sub, m1, i));
    if i <= f {
      AllocNames(fs, h, TYPE_DIR, i);
      assert SameInode(fs1, fs2, i, f);
    }
    DirHosts(fs, cur, m, if i < f then i else cur);
  }

  /** A cached inode's number is known, and only `cur` among the directories has its own. */
  lemma DirHosts(fs: Fs, cur: nat, m: Seen, i: nat)
    requires Known(fs, m) && IsDir(fs, cur) && i < |fs.ci|
    ensures fs.ci[i].host in m && fs.ci[cur].host in m
    ensures IsDir(fs, i) && fs.ci[i].host == fs.ci[cur].host ==> i == cur
  {
    assert FiledAt(fs, m, i) && FiledAt(fs, m, cur);
    if IsDir(fs, i) {
      SameDir(fs, m, i, cur);
    }
  }

  lemma {:induction false} DirNames(fs: Fs, cur: nat, name: Name, h: nat, sub: Listing, m: Seen)
    requires RunInv(fs) && LinksOk(fs) && IsDir(fs, cur) && Known(fs, m) && AddDir(fs, cur, name, h, sub).Some?
    ensures Fresh(Dir(h, sub), m) && AllGot(fs, AddDir(fs, cur, name, h, sub).value, cur, Dir(h, sub), m)
    decreases sub, 3
  {
    hide OpenDir, AddEntry, Known, LinksOk, RolesOk, SpaceOk, DataOk, AllocInode;
    KnownNewest(fs, m, h);
    NewDirNames(fs, cur, h, sub, m);
    var fs' := AddDir(fs, cur, name, h, sub).value;
    forall i: nat | IsDir(fs', i)
      ensures GotAt(fs, fs', m, i, NamedBy(Dir(h, sub), fs.ci[cur].host, m, fs'.ci[i].host))
    {
      DirNamesAt(fs, cur, name, h, sub, m, i);
    }
  }

  lemma {:induction false} VisitNames(fs: Fs, cur: nat, name: Name, node: Node, m: Seen)
    requires RunInv(fs) && LinksOk(fs) && IsDir(fs, cur) && Known(fs, m)
    requires !Skipped(name, node) && Visit(fs, cur, name, node).Some?
    ensures Fresh(node, m) && AllGot(fs, Visit(fs, cur, name, node).value, cur, node, m)
    decreases node, 3
  {
    hide Known, LinksOk, RunInv, AllGot;
    match node
    case File(h, chunks) => FileNames(fs, cur, name, h, chunks, m);
    case Link(h, target) => LinkNames(fs, cur, name, h, target, m);
    case Dir(h, sub) => DirNames(fs, cur, name, h, sub, m);
  }

  /** One visit and the rest of the walk. */
  lemma NamesJoinAt(fs: Fs, fs1: Fs, fs2: Fs, cur: nat, name: Name, node: Node, rest: Listing, m: Seen, i: nat)
    requires Known(fs, m) && IsDir(fs, cur) && Ext(fs, fs1, cur) && Ext(fs1, fs2, cur) && !Skipped(name, node)
    requires Fresh(node, m) && AllGot(fs, fs1, cur, node, m) && ListGot(fs1, fs2, cur, rest, TrackNode(node, m))
    requires IsDir(fs2, i)
    ensures GotAt(fs, fs2, m, i, ListNamedBy(Item(name, node, rest), fs.ci[cur].host, m, fs2.ci[i].host))
  {
    hide Known, Fresh, TrackNode;
    var m' := TrackNode(node, m);
    TrackGrows(node, m);
    DirHosts(fs, cur, m, cur);
    assert SameInode(fs, fs1, cur, cur);
    assert GotAt(fs1, fs2, m', i, ListNamedBy(rest, fs1.ci[cur].host, m', fs2.ci[i].host));
    if i < |fs1.ci| {
      assert SameInode(fs1, fs2, i, cur) && IsDir(fs1, i);
      assert GotAt(fs, fs1, m, i, NamedBy(node, fs.ci[cur].host, m, fs1.ci[i].host));
    } else {
      NotOwned(node, m, fs2.ci[i].host);
      NoStraysUnknown(node, m, fs2.ci[i].host);
    }
  }

  lemma NamesJoin(fs: Fs, fs1: Fs, fs2: Fs, cur: nat, name: Name, node: Node, rest: Listing, m: Seen)
    requires Known(fs, m) && IsDir(fs, cur) && Ext(fs, fs1, cur) && Ext(fs1, fs2, cur) && !Skipped(name, node)
    requires Fresh(node, m) && AllGot(fs, fs1, cur, node, m) && ListGot(fs1, fs2, cur, rest, TrackNode(node, m))
    ensures ListGot(fs, fs2, cur, Item(name, node, rest), m)
  {
    hide Known, Fresh, TrackNode, AllGot, ListNamedBy, GotAt;
    forall i: nat | IsDir(fs2, i)
      ensures GotAt(fs, fs2, m, i, ListNamedBy(Item(name, node, rest), fs.ci[cur].host, m, fs2.ci[i].host))
    {
      NamesJoinAt(fs, fs1, fs2, cur, name, node, rest, m, i);
    }
  }

  /** All that the next visit needs. */
  lemma VisitKeeps(fs: Fs, cur: nat, name: Name, node: Node, m: Seen)
    requires RunInv(fs) && LinksOk(fs) && IsDir(fs, cur) && Known(fs, m)
    requires !Skipped(name, node) && Visit(fs, cur, name, node).Some?
    ensures var fs1 := Visit(fs, cur, name, node).value;
      RunInv(fs1) && LinksOk(fs1) && IsDir(fs1, cur) && Known(fs1, TrackNode(node, m)) && Ext(fs, fs1, cur)
  {
    hide Known, LinksOk, RolesOk, SpaceOk, DataOk, Visit, TrackNode, ItemAt;
    VisitLinks(fs, cur, name, node);
    VisitAt(fs, cur, name, node, m);
    assert SameInode(fs, Visit(fs, cur, name, node).value, cur, cur);
  }

  /** The readdir loop. */
  lemma {:induction false} WalkNames(fs: Fs, cur: nat, es: Listing, m: Seen)
    requires RunInv(fs) && LinksOk(fs) && IsDir(fs, cur) && Known(fs, m) && Walk(fs, cur, es).Some?
    ensures ListFresh(es, m) && ListGot(fs, Walk(fs, cur, es).value, cur, es, m)
    decreases es, 0
  {
    match es
    case End =>
      forall i: nat | IsDir(fs, i) ensures GotAt(fs, fs, m, i, ListNamedBy(End, fs.ci[cur].host, m, fs.ci[i].host)) {
      }
    case Item(name, node, rest) =>
      hide AddFile, AddLink, AddDir, Known, LinksOk, RolesOk, SpaceOk, DataOk, Ext, AllGot, ListGot, Fresh, TrackNode;
      var fs1 := Visit(fs, cur, name, node).value;
      if Skipped(name, node) {
        WalkNames(fs1, cur, rest, m);
      } else {
        VisitKeeps(fs, cur, name, node, m);
        VisitNames(fs, cur, name, node, m);
        WalkOk(fs1, cur, rest);
        WalkNames(fs1, cur, rest, TrackNode(node, m));
        NamesJoin(fs, fs1, Walk(fs1, cur, rest).value, cur, name, node, rest, m);
      }
  }

  // ----- directories by their path

  /** The visible entry number `k`. */
  function Pick(es: Listing, k: nat): Option<Node> {
    match es
    case End => None
    case Item(name, node, rest) =>
      if Skipped(name, node) then Pick(rest, k) else if k == 0 then Some(node) else Pick(rest, k - 1)
  }

  /** The node of the source behind the visible entries numbered `path`. */
  function NodeOn(node: Node, path: seq<nat>): Option<Node>
    decreases |path|
  {
    if path == [] then Some(node)
    else if !node.Dir? then None
    else
      var next :- Pick(node.entries, path[0]);
      NodeOn(next, path[1..])
  }

  /** The inode number that the same entries of the image lead to. */
  function Follow(disk: map<nat, Block>, ino: nat, path: seq<nat>): Option<nat>
    decreases |path|
  {
    if path == [] then Some(ino)
    else
      var inode := ReadInode(disk, ino);
      if inode.kind != TYPE_DIR || |BlockList(disk, inode)| <= path[0] + 2 then None
      else Follow(disk, EntryIno(Get(disk, BlockList(disk, inode)[path[0] + 2])), path[1..])
  }

  lemma {:induction false} PickAt(fs: Fs, c: nat, k: nat, es: Listing, m: Seen, j: nat) returns (f: nat, m': Seen)
    requires ListAt(fs, c, k, es, m) && Pick(es, j).Some?
    ensures f < |fs.ci| && k + j < |fs.files[c]| && fs.files[c][k + j] in fs.disk
    ensures EntryIno(fs.disk[fs.files[c][k + j]]) == fs.ci[f].ino && NodeAt(fs, f, fs.ci[c].ino, Pick(es, j).value, m')
    decreases es
  {
    match es
    case Item(name, node, rest) =>
      if Skipped(name, node) {
        f, m' := PickAt(fs, c, k, rest, m, j);
      } else if j > 0 {
        f, m' := PickAt(fs, c, k + 1, rest, TrackNode(node, m), j - 1);
      } else {
        assert ItemAt(fs, c, k, name, node, m);
        f :| ChildAt(fs, c, k, name, node, f) && NodeAt(fs, f, fs.ci[c].ino, node, m);
        m' := m;
      }
  }

  /** A path to a directory of the source leads to an inode filed under its number. */
  lemma {:induction false} FollowOk(disk: map<nat, Block>, fs: Fs, junk: Junk, c: nat, up: nat, node: Node, m: Seen,
                                    path: seq<nat>, h: nat, sub: Listing)
    returns (f: nat, up': nat, m': Seen)
    requires RunInv(fs) && ImageOf(disk, fs, junk) && NodeAt(fs, c, up, node, m)
    requires NodeOn(node, path) == Some(Dir(h, sub))
    ensures IsDir(fs, f) && fs.ci[f].host == h && Follow(disk, fs.ci[c].ino, path) == Some(fs.ci[f].ino)
    ensures 2 + Subdirs(sub) <= |fs.files[f]| <= LN_NBLKS && NodeAt(fs, f, up', Dir(h, sub), m')
    decreases |path|
  {
    hide ReadInode;
    assert FileAt(fs, c);
    if path == [] {
      f, up', m' := c, up, m;
      ListLong(fs, c, 2, sub, m[h := Directory]);
    } else {
      var d, m1 := PickAt(fs, c, 2, node.entries, m[node.host := Directory], path[0]);
      InodeOnDisk(disk, fs, junk, c);
      BlockListOnDisk(disk, fs, junk, c);
      var next := Pick(node.entries, path[0]).value;
      f, up', m' := FollowOk(disk, fs, junk, d, fs.ci[c].ino, next, m1, path[1..], h, sub);
    }
  }

  lemma {:induction false} PickAlone(es: Listing, k: nat, root: Node)
    requires ListAlone(es, root) && Pick(es, k).Some?
    ensures Alone(Pick(es, k).value, root)
    decreases es
  {
    if Skipped(es.name, es.node) {
      PickAlone(es.rest, k, root);
    } else if k > 0 {
      PickAlone(es.rest, k - 1, root);
    }
  }

  lemma {:induction false} AloneOn(node: Node, path: seq<nat>, root: Node, h: nat, sub: Listing)
    requires Alone(node, root) && NodeOn(node, path) == Some(Dir(h, sub))
    ensures OwnLinks(root, h) == 2 + Subdirs(sub)
    decreases |path|
  {
    if path != [] {
      PickAlone(node.entries, path[0], root);
      AloneOn(Pick(node.entries, path[0]).value, path[1..], root, h, sub);
    }
  }
}
