/** Blocks appended to several files in any order: each file's index stays a plain sequence. */
module SfsAppends {
  import opened Wrappers
  import opened SfsModel
  import opened SfsIndex
  import opened SfsRun
  import opened SfsImage
  import opened SfsSpace

  /** One block of data for inode `f`. */
  datatype Fill = Fill(f: nat, d: Chunk)

  function Fills(fs: Fs, ops: seq<Fill>): Option<Fs>
    requires Sane(fs)
    decreases |ops|
  {
    if ops == [] then Some(fs)
    else if ops[0].f >= |fs.ci| then None
    else
      var fs1 :- StoreChunk(fs, ops[0].f, ops[0].d);
      Fills(fs1, ops[1..])
  }

  /** The numbers of the blocks that `f` is given. */
  function Given(fs: Fs, ops: seq<Fill>, f: nat): seq<nat>
    requires Sane(fs) && Fills(fs, ops).Some?
    decreases |ops|
  {
    if ops == [] then []
    else
      (if ops[0].f == f then [fs.nextIno] else []) + Given(StoreChunk(fs, ops[0].f, ops[0].d).value, ops[1..], f)
  }

  lemma ChunkFiles(fs: Fs, f: nat, d: Chunk)
    requires RunInv(fs) && f < |fs.ci| && StoreChunk(fs, f, d).Some?
    ensures var fs' := StoreChunk(fs, f, d).value;
      RunInv(fs') && fs'.files == fs.files[f := fs.files[f] + [fs.nextIno]] && |fs'.ci| == |fs.ci|
  {
    StoreOk(fs, d);
    AppendOk(Store(fs, d).value, f, |d|, fs.nextIno);
  }

  lemma FillsStep(fs: Fs, ops: seq<Fill>, f: nat)
    requires RunInv(fs) && Fills(fs, ops).Some? && f < |fs.ci| && ops != []
    ensures ops[0].f < |fs.ci| && StoreChunk(fs, ops[0].f, ops[0].d).Some?
    ensures var fs1 := StoreChunk(fs, ops[0].f, ops[0].d).value;
      && RunInv(fs1) && |fs1.ci| == |fs.ci| && Fills(fs, ops) == Fills(fs1, ops[1..])
      && fs.files[f] + Given(fs, ops, f) == fs1.files[f] + Given(fs1, ops[1..], f)
  {
    hide StoreChunk;
    ChunkFiles(fs, ops[0].f, ops[0].d);
    var fs1 := StoreChunk(fs, ops[0].f, ops[0].d).value;
    if ops[0].f == f {
      assert fs.files[f] + ([fs.nextIno] + Given(fs1, ops[1..], f))
          == fs.files[f] + [fs.nextIno] + Given(fs1, ops[1..], f);
    } else {
      assert [] + Given(fs1, ops[1..], f) == Given(fs1, ops[1..], f);
    }
  }

  lemma {:induction false} FillsOk(fs: Fs, ops: seq<Fill>, f: nat)
    requires RunInv(fs) && Fills(fs, ops).Some? && f < |fs.ci|
    ensures var fs' := Fills(fs, ops).value;
      RunInv(fs') && |fs'.ci| == |fs.ci| && fs'.files[f] == fs.files[f] + Given(fs, ops, f)
    decreases |ops|
  {
    if ops == [] {
      assert fs.files[f] + [] == fs.files[f];
    } else {
      hide Fills, Given, StoreChunk;
      FillsStep(fs, ops, f);
      FillsOk(StoreChunk(fs, ops[0].f, ops[0].d).value, ops[1..], f);
    }
  }

  /** Flushed now, the inode of `f` leads to block `b` for position `k`. */
  ghost predicate LeadsTo(fs: Fs, junk: Junk, f: nat, k: nat, b: nat) {
    && f < |fs.ci| && k < LN_NBLKS && Close(fs, junk).Some?
    && var disk := Close(fs, junk).value.disk;
       var inode := ReadInode(disk, fs.ci[f].ino);
       |inode.direct| == NDIRECT && Lookup(disk, inode, k) == b
  }

  lemma Leads(fs: Fs, junk: Junk, f: nat, k: nat)
    requires RunInv(fs) && f < |fs.ci| && k < |fs.files[f]|
    ensures LeadsTo(fs, junk, f, k, fs.files[f][k])
  {
    CloseHolds(fs, junk);
    InodeOnDisk(Close(fs, junk).value.disk, fs, junk, f);
    LookupOnDisk(Close(fs, junk).value.disk, fs, junk, f, k);
  }

  /**
   * After any interleaving of appends, flushed at any moment: looking up k through direct, indirect and
   * double-indirect blocks yields the k-th block number given to the file; the index has cost exactly the
   * blocks it needs, and update_cache has never searched.
   */
  lemma LookupAfterFills(fs: Fs, ops: seq<Fill>, junk: Junk, f: nat, k: nat)
    requires RunInv(fs) && Fills(fs, ops).Some? && f < |fs.ci|
    requires k < |fs.files[f] + Given(fs, ops, f)|
    ensures LeadsTo(Fills(fs, ops).value, junk, f, k, (fs.files[f] + Given(fs, ops, f))[k])
    ensures var (fs', s) := (Fills(fs, ops).value, fs.files[f] + Given(fs, ops, f));
      fs'.searches == 0 && |s| <= LN_NBLKS && f < |fs'.own| && |fs'.own[f]| == IndexCost(|s|)
  {
    FillsOk(fs, ops, f);
    hide Fills, Given, LeadsTo;
    Leads(Fills(fs, ops).value, junk, f, k);
    assert FileAt(Fills(fs, ops).value, f);
  }
}
