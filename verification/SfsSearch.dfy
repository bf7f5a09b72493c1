/** What the search of update_cache would find, if a run ever came to it. */
module SfsSearch {
  import opened Wrappers
  import opened Bytes
  import opened SfsModel
  import opened SfsIndex
  import opened SfsRun
  import opened SfsImage
  import opened SfsRoundTrip
  import opened SfsSpace
  import opened SfsBuild

  /** A search would find a block only if the block's number happens to hash to chain 0, where all are filed. */
  lemma {:induction false} SearchFinds(cb: seq<CacheBlock>, n: nat, ino: nat)
    requires n <= |cb|
    ensures SearchIndex(cb, n, ino).Some? <==>
      && ino % 0x1_0000_0000 * 0x9e370001 % 0x1_0000_0000 / 0x40_0000 == 0
      && exists x :: 0 <= x < n && cb[x].ino == ino
  {
    if n > 0 {
      SearchFinds(cb, n - 1, ino);
    }
  }

  /** The thirteenth block of a file takes the number behind it for an index block. */
  lemma ThirteenthBlock(fs: Fs, f: nat, d: Chunk)
    requires RunInv(fs) && f < |fs.ci| && |fs.files[f]| == NDIRECT && StoreChunk(fs, f, d).Some?
    ensures var fs' := StoreChunk(fs, f, d).value;
      RunInv(fs') && Ext(fs, fs', f) && fs.nextIno + 1 < |fs'.role| && fs'.role[fs.nextIno + 1].OfIndex?
  {
    StoreOk(fs, d);
    var fs1 := Store(fs, d).value;
    AppendOk(fs1, f, |d|, fs.nextIno);
    ExtNew(fs, fs1, |fs.ci|, f);
    var fs' := StoreChunk(fs, f, d).value;
    ExtTrans(fs, fs1, fs', f);
    assert FileAt(fs1, f);
    assert fs1.ci[f].inode.indirect == 0;
    assert fs'.cb[|fs1.cb|].ino == fs1.nextIno;
    assert IndexAt(fs', |fs1.cb|);
  }

  /** open_file in two parts. */
  lemma {:induction false} OpenFileSplits(fs: Fs, f: nat, a: seq<Chunk>, b: seq<Chunk>, last: nat)
    requires Sane(fs) && f < |fs.ci|
    ensures var r := OpenFile(fs, f, a, last);
      OpenFile(fs, f, a + b, last) ==
        if r.None? then None else OpenFile(r.value, f, b, if a == [] then last else |a[|a| - 1]|)
    decreases |a|
  {
    if a == [] {
      assert a + b == b;
    } else if last == BLKSIZE {
      hide Store, AppendBlock;
      assert (a + b)[1..] == a[1..] + b;
      var r := StoreChunk(fs, f, a[0]);
      if r.Some? {
        OpenFileSplits(r.value, f, a[1..], b, |a[0]|);
      }
    }
  }

  const FULL: Chunk := Zeros(BLKSIZE)

  /** A file of thirteen blocks in a fresh file system. */
  function Thirteen(): Listing {
    Item([97], File(5, seq(13, _ => FULL)), End)
  }

  lemma TwelveBlocks(fs: Fs, f: nat, a: seq<Chunk>)
    requires RunInv(fs) && f < |fs.ci| == |fs.files| && fs.files[f] == [] && fs.ci[f].inode.size == 0
    requires |a| == 12 && OpenFile(fs, f, a, BLKSIZE).Some?
    ensures var fs' := OpenFile(fs, f, a, BLKSIZE).value;
      RunInv(fs') && Ext(fs, fs', f) && f < |fs'.ci| && |fs'.files[f]| == 12 && fs'.nextIno == fs.nextIno + 12
  {
    NoContent(fs, f, a);
    OpenFileOk(fs, f, a, BLKSIZE);
    OpenFileAt(fs, f, [], a, BLKSIZE);
    OpenFileNeed(fs, f, a, BLKSIZE);
  }

  lemma LastChunk(fs: Fs, f: nat, d: Chunk)
    requires Sane(fs) && f < |fs.ci|
    ensures OpenFile(fs, f, [d], BLKSIZE) == StoreChunk(fs, f, d)
  {
    hide Store, AppendBlock;
    assert [d][1..] == [];
  }

  /** Filled in a fresh inode when six blocks are taken, the file gets block 19 for its index. */
  lemma IndexBlock19(fs: Fs, f: nat, cs: seq<Chunk>)
    requires RunInv(fs) && f < |fs.ci| == |fs.files| && fs.nextIno == 6 && fs.files[f] == [] && fs.ci[f].inode.size == 0
    requires |cs| == 13 && cs[11] == FULL && OpenFile(fs, f, cs, BLKSIZE).Some?
    ensures var fs' := OpenFile(fs, f, cs, BLKSIZE).value;
      RunInv(fs') && Ext(fs, fs', f) && 19 < |fs'.role| && fs'.role[19].OfIndex?
  {
    assert Sane(fs);
    hide OpenFile, RunInv, Ext, StoreChunk;
    var a, d := cs[..12], cs[12];
    assert a + [d] == cs && a[11] == cs[11] && |FULL| == BLKSIZE;
    OpenFileSplits(fs, f, a, [d], BLKSIZE);
    TwelveBlocks(fs, f, a);
    var s := OpenFile(fs, f, a, BLKSIZE).value;
    LastChunk(s, f, d);
    ThirteenthBlock(s, f, d);
    ExtTrans(fs, s, StoreChunk(s, f, d).value, f);
  }

  lemma ThirteenNeed()
    ensures SourceNeed(Thirteen()) == Need(18, 3, {0, 5}, true)
  {
    var cs: seq<Chunk> := seq(13, _ => FULL);
    assert PlusEntry(PlusEntry(Need(0, 0, {0}, true))) == Need(2, 2, {0}, true);
    assert ReadsFull(cs) && FileCost(13) == 14;
    assert NodeNeed(File(5, cs), 2, {0}) == Need(16, 3, {0, 5}, true);
    hide NodeNeed, PlusEntry;
    assert ListNeed(End, Need(18, 3, {0, 5}, true)) == Need(18, 3, {0, 5}, true);
  }

  /** The start of a run: two entries in the root, which is the only inode. */
  lemma AfterDots(bytes: nat)
    requires bytes == 32 * BLKSIZE && Create(bytes).Some? && AddEntry(Create(bytes).value, 0, 0, DOT).Some?
    requires AddEntry(AddEntry(Create(bytes).value, 0, 0, DOT).value, 0, 0, DOTDOT).Some?
    ensures var fs := AddEntry(AddEntry(Create(bytes).value, 0, 0, DOT).value, 0, 0, DOTDOT).value;
      RunInv(fs) && fs.nextIno == 5 && |fs.ci| == 1 && fs.ci[0].host == 0
  {
    hide AddEntry, RunInv;
    var fs0 := Create(bytes).value;
    CreateOk(bytes);
    assert fs0.nextIno == 3 && |fs0.files[0]| == 0 && fs0.ci[0].host == 0;
    AddEntryOk(fs0, 0, 0, DOT);
    var fs1 := AddEntry(fs0, 0, 0, DOT).value;
    assert SameInode(fs0, fs1, 0, 0);
    AddEntryOk(fs1, 0, 0, DOTDOT);
    assert SameInode(fs1, AddEntry(fs1, 0, 0, DOTDOT).value, 0, 0);
  }

  /** add_file on a new host file, from block 5 on: its inode is number 5. */
  lemma NewInode(fs: Fs, cs: seq<Chunk>)
    requires RunInv(fs) && fs.nextIno == 5 && |fs.ci| == 1 && fs.ci[0].host == 0
    requires AddFile(fs, 0, [97], 5, cs).Some?
    ensures AllocInode(fs, 5, TYPE_FILE).Some?
    ensures var fs1 := AllocInode(fs, 5, TYPE_FILE).value;
      && RunInv(fs1) && fs1.nextIno == 6 && |fs1.ci| == |fs1.files| == 2 && fs1.files[1] == []
      && fs1.ci[1].inode.size == 0 && OpenFile(fs1, 1, cs, BLKSIZE).Some?
      && AddFile(fs, 0, [97], 5, cs) == AddEntry(OpenFile(fs1, 1, cs, BLKSIZE).value, 0, 1, [97])
  {
    hide OpenFile, AddEntry;
    assert Newest(fs.ci, 1, 5).None?;
    AllocInodeOk(fs, 5, TYPE_FILE);
  }

  lemma AddThirteen(fs: Fs, cs: seq<Chunk>)
    requires RunInv(fs) && fs.nextIno == 5 && |fs.ci| == 1 && fs.ci[0].host == 0
    requires |cs| == 13 && cs[11] == FULL && AddFile(fs, 0, [97], 5, cs).Some?
    ensures var fs' := AddFile(fs, 0, [97], 5, cs).value;
      RunInv(fs') && 19 < |fs'.role| && fs'.role[19].OfIndex?
  {
    hide OpenFile, AddEntry, AddFile, AllocInode;
    NewInode(fs, cs);
    var fs1 := AllocInode(fs, 5, TYPE_FILE).value;
    IndexBlock19(fs1, 1, cs);
    var fs2 := OpenFile(fs1, 1, cs, BLKSIZE).value;
    hide RunInv;
    AddEntryOk(fs2, 0, 1, [97]);
    RoleKept(fs2, AddEntry(fs2, 0, 1, [97]).value, 0, 19);
  }

  lemma RoleKept(fs: Fs, fs': Fs, cur: nat, b: nat)
    requires Ext(fs, fs', cur) && b < |fs.role|
    ensures b < |fs'.role| && fs'.role[b] == fs.role[b]
  {
    assert SameBlock(fs, fs', b);
  }

  /** The walk over that source is one add_file behind the two entries. */
  lemma WalkedThirteen(bytes: nat)
    requires Walked(bytes, Thirteen()).Some?
    ensures var cs: seq<Chunk> := seq(13, _ => FULL);
      && Create(bytes).Some? && AddEntry(Create(bytes).value, 0, 0, DOT).Some?
      && var r := AddEntry(AddEntry(Create(bytes).value, 0, 0, DOT).value, 0, 0, DOTDOT);
         r.Some? && |r.value.ci| > 0 && Walked(bytes, Thirteen()) == AddFile(r.value, 0, [97], 5, cs)
  {
    hide AddEntry, AddFile, Create;
    var cs: seq<Chunk> := seq(13, _ => FULL);
    var es := Thirteen();
    assert es == Item([97], File(5, cs), End);
    var fs := AddEntry(AddEntry(Create(bytes).value, 0, 0, DOT).value, 0, 0, DOTDOT).value;
    var r := Visit(fs, 0, [97], File(5, cs));
    assert r == AddFile(fs, 0, [97], 5, cs);
    assert Walk(fs, 0, es) == if r.None? then None else Walk(r.value, 0, End);
  }

  /**
   * In this run block 19 is an index block, and a search for it would miss it: it is filed in chain 0, and its own
   * number hashes elsewhere.
   */
  lemma SearchWouldMiss()
    ensures Walked(32 * BLKSIZE, Thirteen()).Some?
    ensures var cb := Walked(32 * BLKSIZE, Thirteen()).value.cb;
      (exists x :: 0 <= x < |cb| && cb[x].ino == 19) && SearchIndex(cb, |cb|, 19).None?
  {
    hide AddEntry, AddFile, RunInv, SourceNeed, Close, Create, OpenDir, FULL, Thirteen;
    var bytes, cs: seq<Chunk> := 32 * BLKSIZE, seq(13, _ => FULL);
    var junk: Junk := seq(13, _ => 0);
    ThirteenNeed();
    SucceedsIfFits(bytes, Thirteen(), junk);
    WalkedThirteen(bytes);
    AfterDots(bytes);
    AddThirteen(AddEntry(AddEntry(Create(bytes).value, 0, 0, DOT).value, 0, 0, DOTDOT).value, cs);
    Missed(Walked(bytes, Thirteen()).value);
  }

  lemma Missed(fs: Fs)
    requires RunInv(fs) && 19 < |fs.role| && fs.role[19].OfIndex?
    ensures (exists x :: 0 <= x < |fs.cb| && fs.cb[x].ino == 19) && SearchIndex(fs.cb, |fs.cb|, 19).None?
  {
    assert UsedAt(fs, 19);
    SearchFinds(fs.cb, |fs.cb|, 19);
    assert Hash32(19) != Hash32(0);
  }
}
