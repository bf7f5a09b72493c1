/** Which block numbers the parts of a file, a symbolic link and a directory get: they are handed out in order. */
module SfsLayout {
  import opened Bytes
  import opened SfsModel
  import opened SfsIndex
  import opened SfsRun
  import opened SfsSpace

  /** A symbolic link: inode, target, entry. */
  lemma LinkNumbers(fs: Fs, cur: nat, name: Name, h: nat, target: seq<Byte>)
    requires RunInv(fs) && cur < |fs.ci| && AddLink(fs, cur, name, h, target).Some?
    ensures var (fs', f, b) := (AddLink(fs, cur, name, h, target).value, |fs.ci|, fs.nextIno);
      && f < |fs'.ci| == |fs'.files| && fs'.ci[f].ino == b && fs'.files[f] == [b + 1]
      && fs'.files[cur] == fs.files[cur] + [b + 2]
  {
    hide AddEntry, OpenLink, RolesOk, SpaceOk, DataOk, FieldsAt;
    var fs1 := AllocInode(fs, h, TYPE_LINK).value;
    AllocInodeOk(fs, h, TYPE_LINK);
    var fs2 := OpenLink(fs1, |fs.ci|, target).value;
    OpenLinkOk(fs1, |fs.ci|, target);
    OpenLinkNext(fs1, |fs.ci|, target);
    AddEntryOk(fs2, cur, |fs.ci|, name);
    assert SameInode(fs1, fs2, |fs.ci|, |fs.ci|);
    assert SameInode(fs2, AddEntry(fs2, cur, |fs.ci|, name).value, |fs.ci|, cur);
  }

  lemma OpenLinkNext(fs: Fs, f: nat, target: seq<Byte>)
    requires RunInv(fs) && f < |fs.ci| == |fs.files| && fs.files[f] == [] && OpenLink(fs, f, target).Some?
    ensures OpenLink(fs, f, target).value.nextIno == fs.nextIno + 1
  {
    StoreOk(fs, target);
    AppendOk(Store(fs, target).value, f, |target|, fs.nextIno);
  }

  /** The number of data block `k` of a file whose blocks are stored from number `b` on: index blocks lie between. */
  function DataNumber(b: nat, k: nat): nat {
    b + k + if k <= 12 then 0 else if k <= 1036 then 1 else 2 + (k - 1036 + 1023) / 1024
  }

  lemma NumberIs(b: nat, k: nat)
    ensures DataNumber(b, k) == b + k + IndexCost(k)
  {
  }

  /** The blocks of inode `f` were stored from number `b` on, and nothing since. */
  ghost predicate Stored(fs: Fs, f: nat, b: nat) {
    && f < |fs.ci| == |fs.files| && fs.nextIno == DataNumber(b, |fs.files[f]|)
    && forall k :: 0 <= k < |fs.files[f]| ==> fs.files[f][k] == DataNumber(b, k)
  }

  lemma ChunkStored(fs: Fs, f: nat, d: Chunk, b: nat)
    requires RunInv(fs) && Stored(fs, f, b) && StoreChunk(fs, f, d).Some?
    ensures var fs' := StoreChunk(fs, f, d).value;
      RunInv(fs') && Stored(fs', f, b) && |fs'.files[f]| == |fs.files[f]| + 1
  {
    hide Store, AppendBlock, DataNumber, IndexCost, IndexInv, RolesOk, SpaceOk, DataOk;
    StoreOk(fs, d);
    AppendOk(Store(fs, d).value, f, |d|, fs.nextIno);
    NumberIs(b, |fs.files[f]|);
    NumberIs(b, |fs.files[f]| + 1);
  }

  lemma {:induction false} FileBlocks(fs: Fs, f: nat, chunks: seq<Chunk>, last: nat, b: nat)
    requires RunInv(fs) && Stored(fs, f, b) && OpenFile(fs, f, chunks, last).Some?
    ensures var fs' := OpenFile(fs, f, chunks, last).value;
      Stored(fs', f, b) && |fs'.files[f]| == |fs.files[f]| + |chunks|
    decreases |chunks|
  {
    if chunks != [] {
      hide Store, AppendBlock, RolesOk, SpaceOk, DataOk;
      ChunkStored(fs, f, chunks[0], b);
      FileBlocks(StoreChunk(fs, f, chunks[0]).value, f, chunks[1..], |chunks[0]|, b);
    }
  }

  /** A new regular file: inode, data blocks with their index blocks, entry. */
  lemma FileNumbers(fs: Fs, cur: nat, name: Name, h: nat, chunks: seq<Chunk>)
    requires RunInv(fs) && cur < |fs.ci| && AddFile(fs, cur, name, h, chunks).Some?
    requires Newest(fs.ci, |fs.ci|, h).None?
    ensures var (fs', f, b) := (AddFile(fs, cur, name, h, chunks).value, |fs.ci|, fs.nextIno);
      && f < |fs'.ci| == |fs'.files| && fs'.ci[f].ino == b && |fs'.files[f]| == |chunks|
      && (forall k :: 0 <= k < |chunks| ==> fs'.files[f][k] == DataNumber(b + 1, k))
      && fs'.files[cur] == fs.files[cur] + [DataNumber(b + 1, |chunks|)]
  {
    hide AddEntry, OpenFile, RolesOk, SpaceOk, DataOk, FieldsAt;
    var f, fs1 := |fs.ci|, AllocInode(fs, h, TYPE_FILE).value;
    AllocInodeOk(fs, h, TYPE_FILE);
    OpenFileOk(fs1, f, chunks, BLKSIZE);
    FileBlocks(fs1, f, chunks, BLKSIZE, fs.nextIno + 1);
    var fs2 := OpenFile(fs1, f, chunks, BLKSIZE).value;
    AddEntryOk(fs2, cur, f, name);
    assert SameInode(fs1, fs2, f, f) && SameInode(fs1, fs2, cur, f);
    assert SameInode(fs2, AddEntry(fs2, cur, f, name).value, f, cur);
  }

  /** A directory: inode, ".", "..", its contents, and last its entry. */
  lemma DirNumbers(fs: Fs, parent: nat, name: Name, h: nat, sub: Listing)
    requires RunInv(fs) && parent < |fs.ci| && AddDir(fs, parent, name, h, sub).Some?
    ensures var (fs', f, b) := (AddDir(fs, parent, name, h, sub).value, |fs.ci|, fs.nextIno);
      && f < |fs'.ci| == |fs'.files| && fs'.ci[f].ino == b && |fs'.files[f]| >= 2
      && fs'.files[f][0] == b + 1 && fs'.files[f][1] == b + 2
      && |fs'.files[parent]| == |fs.files[parent]| + 1 && fs'.files[parent][|fs.files[parent]|] >= b + 3
  {
    hide AddEntry, OpenDir, RolesOk, SpaceOk, DataOk, FieldsAt;
    var f, fs1 := |fs.ci|, AllocInode(fs, h, TYPE_DIR).value;
    AllocInodeOk(fs, h, TYPE_DIR);
    OpenDirOk(fs1, f, parent, sub);
    DotNumbers(fs1, f, parent, sub);
    var fs2 := OpenDir(fs1, f, parent, sub).value;
    AddEntryOk(fs2, parent, f, name);
    assert SameInode(fs1, fs2, f, f) && SameInode(fs1, fs2, parent, f);
    assert SameInode(fs2, AddEntry(fs2, parent, f, name).value, f, parent);
  }

  lemma DotNumbers(fs: Fs, f: nat, parent: nat, sub: Listing)
    requires RunInv(fs) && f < |fs.ci| == |fs.files| && parent < |fs.ci| && fs.files[f] == []
    requires OpenDir(fs, f, parent, sub).Some?
    ensures var fs' := OpenDir(fs, f, parent, sub).value;
      && f < |fs'.files| && |fs'.files[f]| >= 2 && fs'.nextIno >= fs.nextIno + 2
      && fs'.files[f][0] == fs.nextIno && fs'.files[f][1] == fs.nextIno + 1
  {
    hide AddEntry, Walk, RolesOk, SpaceOk, DataOk, FieldsAt;
    var fs1 := AddEntry(fs, f, f, DOT).value;
    AddEntryOk(fs, f, f, DOT);
    AddEntryOk(fs1, f, parent, DOTDOT);
    var fs2 := AddEntry(fs1, f, parent, DOTDOT).value;
    WalkOk(fs2, f, sub);
    assert SameInode(fs2, Walk(fs2, f, sub).value, f, f);
  }
}
