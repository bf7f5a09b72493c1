/** Link counts: every inode's nlinks is the number of directory entries that name it. */
module SfsLinks {
  import opened Bytes
  import opened SfsModel
  import opened SfsRun
  import opened SfsImage
  import opened SfsRoundTrip
  import opened SfsReader

  // ----- counting entries

  ghost predicate Names(disk: map<nat, Block>, b: nat, ino: nat) {
    b in disk && EntryIno(disk[b]) == ino
  }

  /** Entries naming `ino` among the entry blocks `bs`. */
  ghost function Refs(disk: map<nat, Block>, bs: seq<nat>, ino: nat): nat {
    if bs == [] then 0
    else Refs(disk, bs[..|bs| - 1], ino) + if Names(disk, bs[|bs| - 1], ino) then 1 else 0
  }

  /** Entries naming `ino` in the directories among the first `n` inodes. */
  ghost function RefsAll(fs: Fs, n: nat, ino: nat): nat
    requires n <= |fs.ci| == |fs.files|
  {
    if n == 0 then 0
    else RefsAll(fs, n - 1, ino)
         + if fs.ci[n - 1].inode.kind == TYPE_DIR then Refs(fs.disk, fs.files[n - 1], ino) else 0
  }

  ghost predicate LinksOk(fs: Fs) {
    && |fs.ci| == |fs.files|
    && (forall i :: 0 <= i < |fs.ci| ==> LinkAt(fs, i))
    && (forall ino: nat :: NoRefs(fs, ino))
  }

  ghost predicate LinkAt(fs: Fs, i: nat)
    requires |fs.ci| == |fs.files|
  {
    i < |fs.ci| && fs.ci[i].inode.nlinks == RefsAll(fs, |fs.ci|, fs.ci[i].ino) % 0x1_0000
  }

  /** No entry names a block that has not been handed out yet. */
  ghost predicate NoRefs(fs: Fs, ino: nat)
    requires |fs.ci| == |fs.files|
  {
    ino >= fs.nextIno ==> RefsAll(fs, |fs.ci|, ino) == 0
  }

  // ----- frames

  lemma {:induction false} RefsFrame(fs: Fs, fs': Fs, cur: nat, bs: seq<nat>, ino: nat)
    requires RunInv(fs) && Ext(fs, fs', cur) && forall k :: 0 <= k < |bs| ==> bs[k] in fs.disk
    ensures Refs(fs'.disk, bs, ino) == Refs(fs.disk, bs, ino)
  {
    if bs != [] {
      var b := bs[|bs| - 1];
      assert OnDisk(fs, b) && SameBlock(fs, fs', b);
      RefsFrame(fs, fs', cur, bs[..|bs| - 1], ino);
    }
  }

  lemma FilesStored(fs: Fs, i: nat, bs: seq<nat>)
    requires RunInv(fs) && i < |fs.ci| && bs == fs.files[i]
    ensures forall k :: 0 <= k < |bs| ==> bs[k] in fs.disk
  {
    forall k | 0 <= k < |bs| ensures bs[k] in fs.disk {
      assert StoredAt(fs, i, k);
    }
  }

  /** Counts over old inodes only change in the directory that grows. */
  lemma {:induction false} RefsAllFrame(fs: Fs, fs': Fs, cur: nat, n: nat, ino: nat)
    requires RunInv(fs) && Ext(fs, fs', cur) && n <= |fs.ci|
    requires cur < n ==> fs.ci[cur].inode.kind != TYPE_DIR
    ensures RefsAll(fs', n, ino) == RefsAll(fs, n, ino)
  {
    if n > 0 {
      RefsAllFrame(fs, fs', cur, n - 1, ino);
      assert SameInode(fs, fs', n - 1, cur);
      if fs.ci[n - 1].inode.kind == TYPE_DIR {
        FilesStored(fs, n - 1, fs.files[n - 1]);
        RefsFrame(fs, fs', cur, fs.files[n - 1], ino);
      }
    }
  }

  /** Appending one entry block to directory `cur` adds one reference to the inode it names. */
  lemma {:induction false} RefsAllAppend(fs: Fs, fs': Fs, cur: nat, b: nat, n: nat, ino: nat)
    requires RunInv(fs) && Ext(fs, fs', cur) && cur < n <= |fs.ci| && fs.ci[cur].inode.kind == TYPE_DIR
    requires fs'.files[cur] == fs.files[cur] + [b]
    ensures RefsAll(fs', n, ino) == RefsAll(fs, n, ino) + if Names(fs'.disk, b, ino) then 1 else 0
  {
    assert SameInode(fs, fs', n - 1, cur);
    FilesStored(fs, n - 1, fs.files[n - 1]);
    RefsFrame(fs, fs', cur, fs.files[n - 1], ino);
    if n - 1 == cur {
      RefsAllFrame(fs, fs', cur, n - 1, ino);
      assert (fs.files[cur] + [b])[..|fs.files[cur]|] == fs.files[cur];
    } else {
      RefsAllAppend(fs, fs', cur, b, n - 1, ino);
    }
  }

  // ----- the steps

  /** add_entry adds one reference to the inode it names, and none to any other number. */
  lemma AddEntryRefs(fs: Fs, cur: nat, f: nat, name: Name, ino: nat)
    requires RunInv(fs) && cur < |fs.ci| && f < |fs.ci| && AddEntry(fs, cur, f, name).Some?
    ensures var fs' := AddEntry(fs, cur, f, name).value;
      && |fs'.files| == |fs'.ci| == |fs.ci|
      && RefsAll(fs', |fs.ci|, ino) == RefsAll(fs, |fs.ci|, ino) + if ino == fs.ci[f].ino then 1 else 0
  {
    AddEntryOk(fs, cur, f, name);
    assert InoAt(fs, f);
    EntryReads(fs.ci[f].ino, fs.entry, name);
    RefsAllAppend(fs, AddEntry(fs, cur, f, name).value, cur, fs.nextIno, |fs.ci|, ino);
  }

  lemma CountStep(refs: nat)
    ensures (refs + 1) % 0x1_0000 == Inc16(refs % 0x1_0000)
  {
    assert refs == 0x1_0000 * (refs / 0x1_0000) + refs % 0x1_0000;
  }

  lemma AddEntryLinkAt(fs: Fs, cur: nat, f: nat, name: Name, i: nat)
    requires RunInv(fs) && LinksOk(fs) && cur < |fs.ci| && f < |fs.ci| && i < |fs.ci|
    requires AddEntry(fs, cur, f, name).Some?
    ensures var fs' := AddEntry(fs, cur, f, name).value; |fs'.ci| == |fs'.files| && LinkAt(fs', i)
  {
    hide AddEntry;
    var fs' := AddEntry(fs, cur, f, name).value;
    AddEntryOk(fs, cur, f, name);
    AddEntryRefs(fs, cur, f, name, fs.ci[i].ino);
    assert LinkAt(fs, i) && LinkedAt(fs, fs', i, f) && SameInode(fs, fs', i, cur) && InoAt(fs, i) && InoAt(fs, f);
    CountStep(RefsAll(fs, |fs.ci|, fs.ci[i].ino));
  }

  lemma AddEntryLinks(fs: Fs, cur: nat, f: nat, name: Name)
    requires RunInv(fs) && LinksOk(fs) && cur < |fs.ci| && f < |fs.ci| && AddEntry(fs, cur, f, name).Some?
    ensures LinksOk(AddEntry(fs, cur, f, name).value)
  {
    hide AddEntry;
    var fs' := AddEntry(fs, cur, f, name).value;
    AddEntryOk(fs, cur, f, name);
    forall i | 0 <= i < |fs'.ci| ensures LinkAt(fs', i) {
      AddEntryLinkAt(fs, cur, f, name, i);
    }
    forall ino: nat ensures NoRefs(fs', ino) {
      assert NoRefs(fs, ino) && InoAt(fs, f);
      AddEntryRefs(fs, cur, f, name, ino);
    }
  }

  lemma AllocInodeLinks(fs: Fs, host: nat, kind: nat)
    requires RunInv(fs) && LinksOk(fs) && AllocInode(fs, host, kind).Some? && kind in {TYPE_FILE, TYPE_DIR, TYPE_LINK}
    ensures LinksOk(AllocInode(fs, host, kind).value)
  {
    var fs' := AllocInode(fs, host, kind).value;
    AllocInodeOk(fs, host, kind);
    forall ino: nat ensures RefsAll(fs', |fs'.ci|, ino) == RefsAll(fs, |fs.ci|, ino) {
      RefsAllFrame(fs, fs', |fs.ci|, |fs.ci|, ino);
    }
    assert NoRefs(fs, fs.nextIno);
    forall i | 0 <= i < |fs'.ci| ensures LinkAt(fs', i) {
      assert i < |fs.ci| ==> LinkAt(fs, i);
    }
    forall ino: nat ensures NoRefs(fs', ino) {
      assert NoRefs(fs, ino);
    }
  }

  /** Filling a file that is no directory changes no count. */
  lemma FillLinks(fs: Fs, fs': Fs, f: nat)
    requires RunInv(fs) && LinksOk(fs) && Ext(fs, fs', f) && |fs'.ci| == |fs.ci|
    requires f < |fs.ci| && fs.ci[f].inode.kind != TYPE_DIR
    requires forall i :: 0 <= i < |fs.ci| ==> fs'.ci[i].inode.nlinks == fs.ci[i].inode.nlinks
    ensures LinksOk(fs')
  {
    forall i | 0 <= i < |fs'.ci| ensures LinkAt(fs', i) {
      assert LinkAt(fs, i) && SameInode(fs, fs', i, f);
      RefsAllFrame(fs, fs', f, |fs.ci|, fs.ci[i].ino);
    }
    forall ino: nat ensures NoRefs(fs', ino) {
      assert NoRefs(fs, ino);
      RefsAllFrame(fs, fs', f, |fs.ci|, ino);
    }
  }

  lemma AddFileLinks(fs: Fs, cur: nat, name: Name, host: nat, chunks: seq<Chunk>)
    requires RunInv(fs) && LinksOk(fs) && cur < |fs.ci| && AddFile(fs, cur, name, host, chunks).Some?
    ensures LinksOk(AddFile(fs, cur, name, host, chunks).value)
  {
    match Newest(fs.ci, |fs.ci|, host)
    case Some(f) => AddEntryLinks(fs, cur, f, name);
    case None =>
      var f := |fs.ci|;
      var fs1 := AllocInode(fs, host, TYPE_FILE).value;
      AllocInodeOk(fs, host, TYPE_FILE);
      AllocInodeLinks(fs, host, TYPE_FILE);
      var fs2 := OpenFile(fs1, f, chunks, BLKSIZE).value;
      OpenFileOk(fs1, f, chunks, BLKSIZE);
      OpenFileSameLinks(fs1, f, chunks, BLKSIZE);
      FillLinks(fs1, fs2, f);
      AddEntryLinks(fs2, cur, f, name);
  }

  lemma AddLinkLinks(fs: Fs, cur: nat, name: Name, host: nat, target: seq<Byte>)
    requires RunInv(fs) && LinksOk(fs) && cur < |fs.ci| && AddLink(fs, cur, name, host, target).Some?
    ensures LinksOk(AddLink(fs, cur, name, host, target).value)
  {
    var f := |fs.ci|;
    var fs1 := AllocInode(fs, host, TYPE_LINK).value;
    AllocInodeOk(fs, host, TYPE_LINK);
    AllocInodeLinks(fs, host, TYPE_LINK);
    var fs2 := OpenLink(fs1, f, target).value;
    OpenLinkOk(fs1, f, target);
    OpenLinkSameLinks(fs1, f, target);
    FillLinks(fs1, fs2, f);
    AddEntryLinks(fs2, cur, f, name);
  }

  lemma {:induction false} AddDirLinks(fs: Fs, parent: nat, name: Name, host: nat, sub: Listing)
    requires RunInv(fs) && LinksOk(fs) && parent < |fs.ci| && AddDir(fs, parent, name, host, sub).Some?
    ensures LinksOk(AddDir(fs, parent, name, host, sub).value)
    decreases sub, 2
  {
    var f := |fs.ci|;
    var fs1 := AllocInode(fs, host, TYPE_DIR).value;
    AllocInodeOk(fs, host, TYPE_DIR);
    AllocInodeLinks(fs, host, TYPE_DIR);
    OpenDirOk(fs1, f, parent, sub);
    OpenDirLinks(fs1, f, parent, sub);
    AddEntryLinks(OpenDir(fs1, f, parent, sub).value, parent, f, name);
  }

  lemma {:induction false} OpenDirLinks(fs: Fs, cur: nat, parent: nat, es: Listing)
    requires RunInv(fs) && LinksOk(fs) && cur < |fs.ci| && parent < |fs.ci| && OpenDir(fs, cur, parent, es).Some?
    ensures LinksOk(OpenDir(fs, cur, parent, es).value)
    decreases es, 1
  {
    var fs1 := AddEntry(fs, cur, cur, DOT).value;
    AddEntryOk(fs, cur, cur, DOT);
    AddEntryLinks(fs, cur, cur, DOT);
    AddEntryOk(fs1, cur, parent, DOTDOT);
    AddEntryLinks(fs1, cur, parent, DOTDOT);
    WalkLinks(AddEntry(fs1, cur, parent, DOTDOT).value, cur, es);
  }

  /** The walk keeps every link count equal, modulo 2^16, to the number of entries naming the inode. */
  lemma {:induction false} WalkLinks(fs: Fs, cur: nat, es: Listing)
    requires RunInv(fs) && LinksOk(fs) && cur < |fs.ci| && Walk(fs, cur, es).Some?
    ensures LinksOk(Walk(fs, cur, es).value)
    decreases es, 0
  {
    match es
    case End =>
    case Item(name, node, rest) =>
      VisitOk(fs, cur, name, node);
      VisitLinks(fs, cur, name, node);
      WalkLinks(Visit(fs, cur, name, node).value, cur, rest);
  }

  lemma {:induction false} VisitLinks(fs: Fs, cur: nat, name: Name, node: Node)
    requires RunInv(fs) && LinksOk(fs) && cur < |fs.ci| && Visit(fs, cur, name, node).Some?
    ensures LinksOk(Visit(fs, cur, name, node).value)
    decreases node, 3
  {
    if !Skipped(name, node) {
      match node
      case File(host, chunks) => AddFileLinks(fs, cur, name, host, chunks);
      case Link(host, target) => AddLinkLinks(fs, cur, name, host, target);
      case Dir(host, sub) => AddDirLinks(fs, cur, name, host, sub);
    }
  }

  // ----- on the image

  /** Directory entries naming `ino`, read from the image over the inodes numbered `inodes`. */
  ghost function ImageRefs(disk: map<nat, Block>, inodes: seq<nat>, ino: nat): nat {
    if inodes == [] then 0
    else
      var inode := ReadInode(disk, inodes[|inodes| - 1]);
      ImageRefs(disk, inodes[..|inodes| - 1], ino)
      + if inode.kind == TYPE_DIR then Refs(disk, BlockList(disk, inode), ino) else 0
  }

  function InodeNumbers(fs: Fs, n: nat): (r: seq<nat>)
    requires n <= |fs.ci|
    ensures |r| == n && forall i :: 0 <= i < n ==> r[i] == fs.ci[i].ino
  {
    seq(n, i requires 0 <= i < n => fs.ci[i].ino)
  }

  lemma {:induction false} RefsOnDisk(disk: map<nat, Block>, fs: Fs, bs: seq<nat>, ino: nat)
    requires forall k :: 0 <= k < |bs| ==> bs[k] in fs.disk
    requires forall b :: b in fs.disk ==> b in disk && disk[b] == fs.disk[b]
    ensures Refs(disk, bs, ino) == Refs(fs.disk, bs, ino)
  {
    if bs != [] {
      RefsOnDisk(disk, fs, bs[..|bs| - 1], ino);
    }
  }

  lemma {:induction false} ImageRefsOk(disk: map<nat, Block>, fs: Fs, junk: Junk, n: nat, ino: nat)
    requires RunInv(fs) && ImageOf(disk, fs, junk) && n <= |fs.ci|
    ensures ImageRefs(disk, InodeNumbers(fs, n), ino) == RefsAll(fs, n, ino)
  {
    hide ReadInode;
    if n > 0 {
      ImageRefsOk(disk, fs, junk, n - 1, ino);
      assert InodeNumbers(fs, n)[..n - 1] == InodeNumbers(fs, n - 1);
      InodeOnDisk(disk, fs, junk, n - 1);
      BlockListOnDisk(disk, fs, junk, n - 1);
      FilesStored(fs, n - 1, fs.files[n - 1]);
      RefsOnDisk(disk, fs, fs.files[n - 1], ino);
    }
  }

  /** On the image, an inode's link count is the number of directory entries naming it, modulo 2^16. */
  lemma LinksOnDisk(disk: map<nat, Block>, fs: Fs, junk: Junk, i: nat)
    requires RunInv(fs) && LinksOk(fs) && ImageOf(disk, fs, junk) && i < |fs.ci|
    ensures ReadInode(disk, fs.ci[i].ino).nlinks
         == ImageRefs(disk, InodeNumbers(fs, |fs.ci|), fs.ci[i].ino) % 0x1_0000
  {
    hide ReadInode;
    InodeOnDisk(disk, fs, junk, i);
    ImageRefsOk(disk, fs, junk, |fs.ci|, fs.ci[i].ino);
    assert LinkAt(fs, i);
  }

  lemma CreateLinks(bytes: nat)
    requires Create(bytes).Some?
    ensures LinksOk(Create(bytes).value)
  {
    var fs := Create(bytes).value;
    assert forall ino: nat :: RefsAll(fs, 1, ino) == 0;
    assert LinkAt(fs, 0);
    assert forall ino: nat :: NoRefs(fs, ino);
  }
}
