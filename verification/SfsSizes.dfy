/** Sizes of directories: 256 bytes for each entry, though an entry takes a block. */
module SfsSizes {
  import opened Bytes
  import opened SfsModel
  import opened SfsRun

  ghost predicate SizesOk(fs: Fs) {
    |fs.ci| == |fs.files| && forall i :: 0 <= i < |fs.ci| ==> SizeAt(fs, i)
  }

  ghost predicate SizeAt(fs: Fs, i: nat)
    requires |fs.ci| == |fs.files|
  {
    i < |fs.ci| && (fs.ci[i].inode.kind == TYPE_DIR ==> fs.ci[i].inode.size == 256 * |fs.files[i]|)
  }

  /** Growth of a file or link that leaves the directories alone. */
  lemma FrameSizes(fs: Fs, fs': Fs, f: nat)
    requires RunInv(fs) && SizesOk(fs) && Ext(fs, fs', f) && |fs'.ci| == |fs.ci|
    requires f < |fs.ci| ==> fs.ci[f].inode.kind != TYPE_DIR
    ensures SizesOk(fs')
  {
    forall i | 0 <= i < |fs'.ci| ensures SizeAt(fs', i) {
      assert SizeAt(fs, i) && SameInode(fs, fs', i, f);
    }
  }

  lemma AddEntrySizes(fs: Fs, cur: nat, f: nat, name: Name)
    requires RunInv(fs) && SizesOk(fs) && cur < |fs.ci| && f < |fs.ci| && AddEntry(fs, cur, f, name).Some?
    ensures SizesOk(AddEntry(fs, cur, f, name).value)
  {
    hide AddEntry;
    var fs' := AddEntry(fs, cur, f, name).value;
    AddEntryOk(fs, cur, f, name);
    forall i | 0 <= i < |fs'.ci| ensures SizeAt(fs', i) {
      assert SizeAt(fs, i) && SameInode(fs, fs', i, cur);
    }
  }

  lemma AllocSizes(fs: Fs, h: nat, kind: nat)
    requires RunInv(fs) && SizesOk(fs) && AllocInode(fs, h, kind).Some? && kind in {TYPE_FILE, TYPE_DIR, TYPE_LINK}
    ensures SizesOk(AllocInode(fs, h, kind).value)
  {
    var fs' := AllocInode(fs, h, kind).value;
    AllocInodeOk(fs, h, kind);
    forall i | 0 <= i < |fs'.ci| ensures SizeAt(fs', i) {
      assert i < |fs.ci| ==> SizeAt(fs, i);
    }
  }

  lemma AddFileSizes(fs: Fs, cur: nat, name: Name, h: nat, chunks: seq<Chunk>)
    requires RunInv(fs) && SizesOk(fs) && cur < |fs.ci| && AddFile(fs, cur, name, h, chunks).Some?
    ensures SizesOk(AddFile(fs, cur, name, h, chunks).value)
  {
    hide AddEntry, OpenFile;
    match Newest(fs.ci, |fs.ci|, h)
    case Some(f) => AddEntrySizes(fs, cur, f, name);
    case None =>
      var fs1 := AllocInode(fs, h, TYPE_FILE).value;
      AllocInodeOk(fs, h, TYPE_FILE);
      AllocSizes(fs, h, TYPE_FILE);
      OpenFileOk(fs1, |fs.ci|, chunks, BLKSIZE);
      FrameSizes(fs1, OpenFile(fs1, |fs.ci|, chunks, BLKSIZE).value, |fs.ci|);
      AddEntrySizes(OpenFile(fs1, |fs.ci|, chunks, BLKSIZE).value, cur, |fs.ci|, name);
  }

  lemma AddLinkSizes(fs: Fs, cur: nat, name: Name, h: nat, target: seq<Byte>)
    requires RunInv(fs) && SizesOk(fs) && cur < |fs.ci| && AddLink(fs, cur, name, h, target).Some?
    ensures SizesOk(AddLink(fs, cur, name, h, target).value)
  {
    hide AddEntry, OpenLink;
    var fs1 := AllocInode(fs, h, TYPE_LINK).value;
    AllocInodeOk(fs, h, TYPE_LINK);
    AllocSizes(fs, h, TYPE_LINK);
    OpenLinkOk(fs1, |fs.ci|, target);
    FrameSizes(fs1, OpenLink(fs1, |fs.ci|, target).value, |fs.ci|);
    AddEntrySizes(OpenLink(fs1, |fs.ci|, target).value, cur, |fs.ci|, name);
  }

  lemma {:induction false} AddDirSizes(fs: Fs, parent: nat, name: Name, h: nat, sub: Listing)
    requires RunInv(fs) && SizesOk(fs) && parent < |fs.ci| && AddDir(fs, parent, name, h, sub).Some?
    ensures SizesOk(AddDir(fs, parent, name, h, sub).value)
    decreases sub, 2
  {
    hide AddEntry, OpenDir;
    var fs1 := AllocInode(fs, h, TYPE_DIR).value;
    AllocInodeOk(fs, h, TYPE_DIR);
    AllocSizes(fs, h, TYPE_DIR);
    OpenDirOk(fs1, |fs.ci|, parent, sub);
    OpenDirSizes(fs1, |fs.ci|, parent, sub);
    AddEntrySizes(OpenDir(fs1, |fs.ci|, parent, sub).value, parent, |fs.ci|, name);
  }

  lemma {:induction false} OpenDirSizes(fs: Fs, cur: nat, parent: nat, es: Listing)
    requires RunInv(fs) && SizesOk(fs) && cur < |fs.ci| && parent < |fs.ci| && OpenDir(fs, cur, parent, es).Some?
    ensures SizesOk(OpenDir(fs, cur, parent, es).value)
    decreases es, 1
  {
    hide AddEntry;
    var fs1 := AddEntry(fs, cur, cur, DOT).value;
    AddEntryOk(fs, cur, cur, DOT);
    AddEntrySizes(fs, cur, cur, DOT);
    AddEntryOk(fs1, cur, parent, DOTDOT);
    AddEntrySizes(fs1, cur, parent, DOTDOT);
    WalkSizes(AddEntry(fs1, cur, parent, DOTDOT).value, cur, es);
  }

  /** The walk keeps the size of every directory at 256 bytes for each of its entries. */
  lemma {:induction false} WalkSizes(fs: Fs, cur: nat, es: Listing)
    requires RunInv(fs) && SizesOk(fs) && cur < |fs.ci| && Walk(fs, cur, es).Some?
    ensures SizesOk(Walk(fs, cur, es).value)
    decreases es, 0
  {
    match es
    case End =>
    case Item(name, node, rest) =>
      VisitOk(fs, cur, name, node);
      VisitSizes(fs, cur, name, node);
      hide Visit, SizesOk;
      WalkSizes(Visit(fs, cur, name, node).value, cur, rest);
  }

  lemma {:induction false} VisitSizes(fs: Fs, cur: nat, name: Name, node: Node)
    requires RunInv(fs) && SizesOk(fs) && cur < |fs.ci| && Visit(fs, cur, name, node).Some?
    ensures SizesOk(Visit(fs, cur, name, node).value)
    decreases node, 3
  {
    if !Hidden(name) {
      match node
      case File(h, chunks) => AddFileSizes(fs, cur, name, h, chunks);
      case Link(h, target) => AddLinkSizes(fs, cur, name, h, target);
      case Dir(h, sub) => AddDirSizes(fs, cur, name, h, sub);
      case Special =>
    }
  }
}
