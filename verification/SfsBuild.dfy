/** Whole runs of the image builder: what holds of every image it finishes. */
module SfsBuild {
  import opened Wrappers
  import opened Basics
  import opened Bytes
  import opened SfsModel
  import opened SfsIndex
  import opened SfsRun
  import opened SfsImage
  import opened SfsRoundTrip
  import opened SfsDirs
  import opened SfsReader
  import opened SfsLinks
  import opened SfsDirLinks
  import opened SfsSpace
  import opened SfsCalls

  /** create_sfs and the walk: the state before close_sfs. */
  function Walked(bytes: nat, es: Listing): Option<Fs> {
    var fs :- Create(bytes);
    OpenDir(fs, 0, 0, es)
  }

  /** create_img: the whole run. */
  function Build(bytes: nat, es: Listing, junk: Junk): Option<Fs> {
    var fs :- Walked(bytes, es);
    Close(fs, junk)
  }

  lemma WalkedOk(bytes: nat, es: Listing)
    requires Walked(bytes, es).Some?
    ensures RunInv(Walked(bytes, es).value)
  {
    CreateOk(bytes);
    OpenDirOk(Create(bytes).value, 0, 0, es);
  }

  /** Every block number below next_ino is written exactly once in the run, and no other block at all. */
  lemma WriteOnce(bytes: nat, es: Listing, junk: Junk)
    requires Build(bytes, es, junk).Some?
    ensures var fs := Build(bytes, es, junk).value;
      NoDup(fs.log) && forall b: nat :: b in fs.log <==> b < fs.nextIno
  {
    WalkedOk(bytes, es);
    CloseWritesOnce(Walked(bytes, es).value, junk);
  }

  /**
   * In every run, one that fails included, every call of update_cache allocates or finds its cached block right:
   * no call searches, and none can fail the assertion behind the search.
   */
  lemma CacheAlwaysRight(bytes: nat, es: Listing)
    ensures AllRight(RunCalls(bytes, es))
    ensures Walked(bytes, es).Some? ==> Walked(bytes, es).value.searches == 0
  {
    hide OpenDirCalls, OpenDir, Create;
    if Create(bytes).Some? {
      CreateOk(bytes);
      OpenDirRight(Create(bytes).value, 0, 0, es);
    }
    if Walked(bytes, es).Some? {
      WalkedOk(bytes, es);
    }
  }

  lemma ImageHolds(bytes: nat, es: Listing, junk: Junk)
    requires Build(bytes, es, junk).Some?
    ensures RunInv(Walked(bytes, es).value)
    ensures ImageOf(Build(bytes, es, junk).value.disk, Walked(bytes, es).value, junk)
    ensures Build(bytes, es, junk).value.ninos == Walked(bytes, es).value.ninos
    ensures Build(bytes, es, junk).value.nextIno == Walked(bytes, es).value.nextIno
  {
    WalkedOk(bytes, es);
    CloseHolds(Walked(bytes, es).value, junk);
  }

  /**
   * The free bitmap and the superblock: a bit is set exactly for the blocks never handed out, their number
   * is the superblock's unused_blocks, and the bits fill the blocks reserved by create_sfs.
   */
  lemma FreeMap(bytes: nat, es: Listing, junk: Junk, b: nat)
    requires Build(bytes, es, junk).Some? && b < 32768 * ((Build(bytes, es, junk).value.ninos + 32767) / 32768)
    ensures var fs := Build(bytes, es, junk).value;
      FreeBit(fs.disk, b) <==> fs.nextIno <= b < fs.ninos
  {
    hide Walked, Close, RunInv, ImageOf, FreeBit;
    ImageHolds(bytes, es, junk);
    FreeBitOnDisk(Build(bytes, es, junk).value.disk, Walked(bytes, es).value, junk, b);
  }

  lemma MagicBytes(b: Block)
    requires U32(b, 0) == 0x2f8dbe2a
    ensures b[..4] == [0x2a, 0xbe, 0x8d, 0x2f]
  {
  }

  lemma SuperBlock(bytes: nat, es: Listing, junk: Junk)
    requires Build(bytes, es, junk).Some?
    ensures var fs := Build(bytes, es, junk).value;
      && Get(fs.disk, 0)[..4] == [0x2a, 0xbe, 0x8d, 0x2f] && U32(Get(fs.disk, 0), 4) == fs.ninos
      && U32(Get(fs.disk, 0), 8) == FreeCount(fs.disk, 32768 * ((fs.ninos + 32767) / 32768)) == fs.ninos - fs.nextIno
      && (forall k :: 0 <= k < 18 ==> Get(fs.disk, 0)[12 + k] == "simple file system"[k] as int)
      && Get(fs.disk, 0)[30] == 0
  {
    hide Walked, Close, RunInv, ImageOf, U32, Get, FreeCount;
    var disk := Build(bytes, es, junk).value.disk;
    ImageHolds(bytes, es, junk);
    SuperOnDisk(disk, Walked(bytes, es).value, junk);
    forall k | 0 <= k < 18 ensures Get(disk, 0)[12 + k] == "simple file system"[k] as int {
      InfoOnDisk(disk, Walked(bytes, es).value, junk, k);
    }
    MagicBytes(Get(disk, 0));
    assert Get(disk, 0)[30] == 0 by {
      InfoOnDisk(disk, Walked(bytes, es).value, junk, 0);
    }
  }

  /** The inode numbers in the image of a run. */
  function ImageInodes(bytes: nat, es: Listing): seq<nat>
    requires Walked(bytes, es).Some?
  {
    var fs := Walked(bytes, es).value;
    InodeNumbers(fs, |fs.ci|)
  }

  /** Every inode's nlinks is, modulo 2^16, the number of entries naming it in the directories of the image. */
  lemma LinkCounts(bytes: nat, es: Listing, junk: Junk, ino: nat)
    requires Build(bytes, es, junk).Some? && ino in ImageInodes(bytes, es)
    ensures var disk := Build(bytes, es, junk).value.disk;
      ReadInode(disk, ino).nlinks == ImageRefs(disk, ImageInodes(bytes, es), ino) % 0x1_0000
  {
    hide ReadInode, ImageRefs, OpenDir, Close, Create;
    var fs0, fs := Create(bytes).value, Walked(bytes, es).value;
    ImageHolds(bytes, es, junk);
    CreateOk(bytes);
    CreateLinks(bytes);
    OpenDirLinks(fs0, 0, 0, es);
    var i :| 0 <= i < |fs.ci| && ImageInodes(bytes, es)[i] == ino;
    LinksOnDisk(Build(bytes, es, junk).value.disk, fs, junk, i);
  }

  /** The links of a directory numbered `g`: those of the source, and one for each stray file. */
  function DirLinks(es: Listing, g: nat): nat {
    OwnLinks(Dir(0, es), g) + ListStrays(es, ROOT_SEEN, g)
  }

  ghost predicate LinkedAs(fs: Fs, es: Listing, i: nat) {
    i < |fs.ci| && fs.ci[i].inode.nlinks == DirLinks(es, fs.ci[i].host) % 0x1_0000
  }

  lemma FreshKnown(bytes: nat)
    requires Create(bytes).Some?
    ensures Known(Create(bytes).value, ROOT_SEEN)
  {
    var fs := Create(bytes).value;
    assert FiledAt(fs, ROOT_SEEN, 0) && KnownAt(fs, ROOT_SEEN, 0);
  }

  lemma WalkedAt(bytes: nat, es: Listing)
    requires Walked(bytes, es).Some?
    ensures var fs := Walked(bytes, es).value;
      && RunInv(fs) && Known(fs, TrackList(es, ROOT_SEEN))
      && NodeAt(fs, 0, 1, Dir(0, es), map[])
  {
    var fs0 := Create(bytes).value;
    CreateOk(bytes);
    FreshKnown(bytes);
    OpenDirOk(fs0, 0, 0, es);
    assert map[][0 := Directory] == ROOT_SEEN;
    assert SameInode(fs0, Walked(bytes, es).value, 0, 0);
    OpenDirAt(fs0, 0, 0, es, ROOT_SEEN);
  }

  lemma RootUnnamed(bytes: nat)
    requires Create(bytes).Some?
    ensures Named(Create(bytes).value, 0) == 0
  {
    var fs := Create(bytes).value;
    assert RefsAll(fs, 0, 1) == 0 && Refs(fs.disk, fs.files[0], 1) == 0;
  }

  /** The equation for one directory: what the walk predicts is what DirLinks says. */
  lemma DirLinked(fs0: Fs, fs: Fs, es: Listing, i: nat)
    requires IsDir(fs0, 0) && |fs0.ci| == 1 && fs0.ci[0].host == 0 && Named(fs0, 0) == 0
    requires IsDir(fs, i) && fs.ci[0].host == 0 && LinksOk(fs) && DirGot(fs0, fs, 0, 0, es, ROOT_SEEN)
    ensures LinkedAs(fs, es, i)
  {
    hide RefsAll;
    assert LinkAt(fs, i) && GotAt(fs0, fs, ROOT_SEEN, i, DirNamedBy(fs0, fs, 0, 0, es, ROOT_SEEN, i));
  }

  /** The links of every directory after the walk, and no two directories of the source with one number. */
  lemma WalkedLinks(bytes: nat, es: Listing)
    requires Walked(bytes, es).Some?
    ensures var fs := Walked(bytes, es).value;
      forall i: nat :: IsDir(fs, i) ==> LinkedAs(fs, es, i)
    ensures Alone(Dir(0, es), Dir(0, es))
  {
    hide OpenDir, Known, ListFresh, Alone, Named, DirGot, LinksOk, LinkedAs, RolesOk, SpaceOk, DataOk, FieldsAt;
    var fs0, fs := Create(bytes).value, Walked(bytes, es).value;
    CreateOk(bytes);
    CreateLinks(bytes);
    FreshKnown(bytes);
    RootUnnamed(bytes);
    OpenDirOk(fs0, 0, 0, es);
    OpenDirLinks(fs0, 0, 0, es);
    OpenDirNames(fs0, 0, 0, es, ROOT_SEEN);
    assert SameInode(fs0, fs, 0, 0);
    forall i: nat | IsDir(fs, i) ensures LinkedAs(fs, es, i) {
      DirLinked(fs0, fs, es, i);
    }
    assert map[][0 := Directory] == ROOT_SEEN;
    AloneIfFresh(Dir(0, es), map[], Dir(0, es));
  }

  lemma WalkedCounted(bytes: nat, es: Listing)
    requires Walked(bytes, es).Some? && ToldApart(es, ROOT_SEEN)
    ensures Counted(Walked(bytes, es).value, Dir(0, es)) && Alone(Dir(0, es), Dir(0, es))
  {
    hide Walked, ToldApart, Alone;
    var fs := Walked(bytes, es).value;
    WalkedOk(bytes, es);
    WalkedLinks(bytes, es);
    forall i | 0 <= i < |fs.ci| && fs.ci[i].inode.kind == TYPE_DIR ensures CountedAt(fs, Dir(0, es), i) {
      assert IsDir(fs, i) && LinkedAs(fs, es, i);
      NoStraysIn(es, ROOT_SEEN, fs.ci[i].host);
    }
  }

  lemma PathLinks(disk: map<nat, Block>, fs: Fs, junk: Junk, es: Listing, path: seq<nat>, h: nat, sub: Listing)
    requires RunInv(fs) && ImageOf(disk, fs, junk) && NodeAt(fs, 0, 1, Dir(0, es), map[])
    requires Alone(Dir(0, es), Dir(0, es)) && forall i: nat :: IsDir(fs, i) ==> LinkedAs(fs, es, i)
    requires NodeOn(Dir(0, es), path) == Some(Dir(h, sub))
    ensures Follow(disk, 1, path).Some?
    ensures var inode := ReadInode(disk, Follow(disk, 1, path).value);
      && inode.kind == 2 && 2 + Subdirs(sub) <= 32768
      && inode.nlinks == (2 + Subdirs(sub) + ListStrays(es, ROOT_SEEN, h)) % 0x1_0000
  {
    hide ReadInode, NodeOn, Follow, NodeAt, Alone, ImageOf, IndexInv, RolesOk, SpaceOk, DataOk, FieldsAt;
    hide OwnLinks, ListStrays, Subdirs;
    AloneOn(Dir(0, es), path, Dir(0, es), h, sub);
    var f, up, m := FollowOk(disk, fs, junk, 0, 1, Dir(0, es), map[], path, h, sub);
    InodeOnDisk(disk, fs, junk, f);
    assert LinkedAs(fs, es, f);
  }

  /**
   * In every finished image, the entries that lead to a directory of the source lead to an inode whose link count is
   * two, plus its subdirectories, plus the regular files that were taken for it, modulo 2^16; so it is right if and
   * only if their number is a multiple of 2^16.
   */
  lemma DirectoryLinks(bytes: nat, es: Listing, junk: Junk, path: seq<nat>, h: nat, sub: Listing)
    requires Build(bytes, es, junk).Some? && NodeOn(Dir(0, es), path) == Some(Dir(h, sub))
    ensures var disk := Build(bytes, es, junk).value.disk;
      var strays := ListStrays(es, ROOT_SEEN, h);
      && Follow(disk, 1, path).Some?
      && var inode := ReadInode(disk, Follow(disk, 1, path).value);
         && inode.kind == 2 && inode.nlinks == (2 + Subdirs(sub) + strays) % 0x1_0000
         && (inode.nlinks == 2 + Subdirs(sub) <==> strays % 0x1_0000 == 0)
  {
    hide Walked, Close, ReadInode, NodeOn, Follow, NodeAt, Known, Alone, RunInv, ImageOf, ListStrays;
    var fs, disk := Walked(bytes, es).value, Build(bytes, es, junk).value.disk;
    ImageHolds(bytes, es, junk);
    WalkedAt(bytes, es);
    WalkedLinks(bytes, es);
    PathLinks(disk, fs, junk, es, path, h, sub);
  }

  // ----- space

  /** What the source needs on top of the superblock, the root inode and the freemap. */
  function SourceNeed(es: Listing): Need {
    ListNeed(es, PlusEntry(PlusEntry(Need(0, 0, {0}, true))))
  }

  /**
   * A run succeeds if and only if the source keeps the limits and its blocks fit; it then uses exactly the
   * blocks predicted.
   */
  lemma SucceedsIfFits(bytes: nat, es: Listing, junk: Junk)
    ensures var (blocks, need) := (bytes / 4096 % 0x1_0000_0000, SourceNeed(es));
      var n := if blocks > 524288 then 524288 else blocks;
      var first := 2 + (n + 32767) / 32768;
      && (Build(bytes, es, junk).Some? <==> first < n && need.fits && first + need.blocks <= n)
      && (Build(bytes, es, junk).Some? ==>
            Build(bytes, es, junk).value.ninos == n && Build(bytes, es, junk).value.nextIno == first + need.blocks)
  {
    hide OpenDir, Close;
    if Create(bytes).Some? {
      var fs := Create(bytes).value;
      CreateOk(bytes);
      assert Hosts(fs) == {0} by {
        assert fs.ci[0].host == 0;
      }
      OpenDirNeed(fs, 0, 0, es);
      if Walked(bytes, es).Some? {
        OpenDirOk(fs, 0, 0, es);
        CloseHolds(Walked(bytes, es).value, junk);
        CloseWritesOnce(Walked(bytes, es).value, junk);
      }
    }
  }

  /**
   * An empty source directory takes five blocks: superblock, root inode, freemap and the two fixed entries. The
   * image file must have that many modulo 2^32, so one of exactly 16 TiB is taken for an empty one.
   */
  lemma SmallestImage(bytes: nat, junk: Junk)
    ensures Build(bytes, End, junk).Some? <==> bytes / 4096 % 0x1_0000_0000 >= 5
    ensures Build(0x1000_0000_0000, End, junk).None?
  {
    hide Build, OpenDir, Close;
    SucceedsIfFits(bytes, End, junk);
    SucceedsIfFits(0x1000_0000_0000, End, junk);
    assert SourceNeed(End) == Need(2, 2, {0}, true);
  }

  // ----- the round trip

  /** Inode numbers of the regular files among the first `n` inodes, by host number. */
  function InoMap(ci: seq<CacheInode>, n: nat): map<nat, nat>
    requires n <= |ci|
  {
    if n == 0 then map[]
    else if ci[n - 1].inode.kind == TYPE_FILE then InoMap(ci, n - 1)[ci[n - 1].host := ci[n - 1].ino]
    else InoMap(ci, n - 1)
  }

  ghost predicate Source(fs: Fs, m: map<nat, nat>, n: nat, h: nat) {
    exists i: nat :: i < n && NumberedAt(fs, m, i) && fs.ci[i].host == h
  }

  lemma {:induction false} InoMapOk(fs: Fs, seen: Seen, n: nat)
    requires n <= |fs.ci| && Known(fs, seen)
    ensures forall i :: 0 <= i < n && fs.ci[i].inode.kind == TYPE_FILE ==> NumberedAt(fs, InoMap(fs.ci, n), i)
    ensures forall h: nat :: h in InoMap(fs.ci, n) ==> Source(fs, InoMap(fs.ci, n), n, h)
  {
    if n > 0 {
      InoMapOk(fs, seen, n - 1);
      var m0, m := InoMap(fs.ci, n - 1), InoMap(fs.ci, n);
      forall i | 0 <= i < n && fs.ci[i].inode.kind == TYPE_FILE ensures NumberedAt(fs, m, i) {
        if i < n - 1 {
          assert NumberedAt(fs, m0, i) && OneObject(fs, i, n - 1);
        }
      }
      forall h: nat | h in m ensures Source(fs, m, n, h) {
        if fs.ci[n - 1].inode.kind == TYPE_FILE && h == fs.ci[n - 1].host {
          assert NumberedAt(fs, m, n - 1);
        } else {
          assert Source(fs, m0, n - 1, h);
          var i: nat :| i < n - 1 && NumberedAt(fs, m0, i) && fs.ci[i].host == h;
          assert NumberedAt(fs, m, i);
        }
      }
    }
  }

  ghost predicate Injective(m: map<nat, nat>) {
    forall h: nat, g: nat :: h in m && g in m && h != g ==> m[h] != m[g]
  }

  lemma InoMapInjective(fs: Fs, seen: Seen)
    requires RunInv(fs) && Known(fs, seen)
    ensures Injective(InoMap(fs.ci, |fs.ci|))
  {
    var m := InoMap(fs.ci, |fs.ci|);
    InoMapOk(fs, seen, |fs.ci|);
    forall h: nat, g: nat | h in m && g in m && h != g ensures m[h] != m[g] {
      assert Source(fs, m, |fs.ci|, h) && Source(fs, m, |fs.ci|, g);
      var i: nat :| i < |fs.ci| && NumberedAt(fs, m, i) && fs.ci[i].host == h;
      var j: nat :| j < |fs.ci| && NumberedAt(fs, m, j) && fs.ci[j].host == g;
      assert InoAt(fs, i) && InoAt(fs, j);
    }
  }

  /**
   * The finished image, read from block 1, is the visible part of the source, in order, with every file's bytes
   * and every link's target; regular files have numbers in `inoOf`, different ones for different host files, and
   * every directory's link count is two plus its subdirectories.
   */
  ghost predicate ComesBack(disk: map<nat, Block>, es: Listing, inoOf: map<nat, nat>) {
    && Injective(inoOf) && Covers(inoOf, es)
    && forall fuel: nat :: fuel > DepthList(es) ==> ReadsAs(disk, es, inoOf, fuel)
  }

  ghost predicate ReadsAs(disk: map<nat, Block>, es: Listing, inoOf: map<nat, nat>, fuel: nat)
    requires Covers(inoOf, es)
  {
    ReadNode(disk, 1, 1, fuel) == Some(BDir(2 + Subdirs(es), ExpectedList(es, inoOf)))
  }

  lemma RootReads(disk: map<nat, Block>, fs: Fs, junk: Junk, inoOf: map<nat, nat>, es: Listing, fuel: nat)
    requires RunInv(fs) && ImageOf(disk, fs, junk) && Numbered(fs, inoOf) && NodeAt(fs, 0, 1, Dir(0, es), map[])
    requires Counted(fs, Dir(0, es)) && Alone(Dir(0, es), Dir(0, es))
    requires ToldApart(es, ROOT_SEEN) && fuel > DepthList(es)
    ensures Covers(inoOf, es) && ReadsAs(disk, es, inoOf, fuel)
  {
    hide ReadNode, ImageOf, Numbered, NodeAt, Counted, Alone, ToldApart, IndexInv, RolesOk, SpaceOk, DataOk, FieldsAt;
    assert map[][0 := Directory] == ROOT_SEEN;
    NodeReads(disk, fs, junk, inoOf, Dir(0, es), 0, 1, Dir(0, es), map[], fuel);
  }

  /**
   * Image round trip: the source comes back if every regular file met in the walk has a number that is new or is
   * filed, last, for a regular file of the same bytes.
   */
  lemma RoundTrip(bytes: nat, es: Listing, junk: Junk) returns (inoOf: map<nat, nat>)
    requires Build(bytes, es, junk).Some? && ToldApart(es, ROOT_SEEN)
    ensures ComesBack(Build(bytes, es, junk).value.disk, es, inoOf)
  {
    hide Walked, Close, ReadNode, InoMap, RunInv, ImageOf, Known, NodeAt, Counted, Alone, ToldApart, Covers;
    var fs := Walked(bytes, es).value;
    var disk := Build(bytes, es, junk).value.disk;
    WalkedAt(bytes, es);
    WalkedCounted(bytes, es);
    CloseHolds(fs, junk);
    inoOf := InoMap(fs.ci, |fs.ci|);
    InoMapOk(fs, TrackList(es, ROOT_SEEN), |fs.ci|);
    InoMapInjective(fs, TrackList(es, ROOT_SEEN));
    RootReads(disk, fs, junk, inoOf, es, DepthList(es) + 1);
    forall fuel: nat | fuel > DepthList(es) ensures ReadsAs(disk, es, inoOf, fuel) {
      RootReads(disk, fs, junk, inoOf, es, fuel);
    }
  }

  /** Otherwise it does not, whatever the inode numbers: the image of a successful run tells exactly that. */
  lemma RoundTripIff(bytes: nat, es: Listing, junk: Junk)
    requires Build(bytes, es, junk).Some?
    ensures (exists inoOf :: ComesBack(Build(bytes, es, junk).value.disk, es, inoOf)) <==> ToldApart(es, ROOT_SEEN)
  {
    hide Walked, Close, ReadNode, RunInv, ImageOf, Known, NodeAt, ToldApart, ExpectedList;
    var fs, disk := Walked(bytes, es).value, Build(bytes, es, junk).value.disk;
    if ToldApart(es, ROOT_SEEN) {
      var inoOf := RoundTrip(bytes, es, junk);
    }
    if inoOf :| ComesBack(disk, es, inoOf) {
      WalkedAt(bytes, es);
      CloseHolds(fs, junk);
      RootTells(disk, fs, junk, inoOf, es, DepthList(es) + 1);
    }
  }

  lemma RootTells(disk: map<nat, Block>, fs: Fs, junk: Junk, inoOf: map<nat, nat>, es: Listing, fuel: nat)
    requires RunInv(fs) && ImageOf(disk, fs, junk) && NodeAt(fs, 0, 1, Dir(0, es), map[])
    requires Covers(inoOf, es) && ReadsAs(disk, es, inoOf, fuel)
    ensures ToldApart(es, ROOT_SEEN)
  {
    hide ReadNode, ImageOf, NodeAt;
    assert map[][0 := Directory] == ROOT_SEEN;
    NodeTells(disk, fs, junk, inoOf, 0, 1, Dir(0, es), map[], fuel);
  }

  /** Two files of one number, as below a mount point. */
  const FIRST: Chunk := [1]
  const SECOND: Chunk := [2]
  const SHARED := Item([97], File(5, [FIRST]), Item([98], File(5, [SECOND]), End))

  lemma NewSmallFile(h: nat, d: Chunk, entries: nat, seen: set<nat>)
    requires h !in seen && entries < NDIRECT
    ensures NodeNeed(File(h, [d]), entries, seen) == Need(3, entries + 1, seen + {h}, true)
  {
    assert FileCost(1) == 1 && ReadsFull([d]);
  }

  lemma KnownFile(h: nat, d: Chunk, entries: nat, seen: set<nat>)
    requires h in seen && entries < NDIRECT
    ensures NodeNeed(File(h, [d]), entries, seen) == Need(1, entries + 1, seen, true)
  {
  }

  lemma SharedNeed()
    ensures SourceNeed(SHARED).fits && SourceNeed(SHARED).blocks == 6
  {
    var rest, seen := Item([98], File(5, [SECOND]), End), {0} + {5};
    assert PlusEntry(PlusEntry(Need(0, 0, {0}, true))) == Need(2, 2, {0}, true);
    NewSmallFile(5, FIRST, 2, {0});
    KnownFile(5, SECOND, 3, seen);
    hide NodeNeed, PlusEntry;
    assert ListNeed(rest, Need(5, 3, seen, true)) == ListNeed(End, Need(6, 4, seen, true));
    assert ListNeed(SHARED, Need(2, 2, {0}, true)) == ListNeed(rest, Need(5, 3, seen, true));
  }

  lemma SharedMistaken()
    ensures !ToldApart(SHARED, ROOT_SEEN)
  {
    var rest := Item([98], File(5, [SECOND]), End);
    assert [FIRST][..0] == [] && [SECOND][..0] == [];
    assert Flat([FIRST]) == [1] && Flat([SECOND]) == [2];
    hide Flat;
    assert !NodeToldApart(File(5, [SECOND]), TrackNode(File(5, [FIRST]), ROOT_SEEN));
    assert !ToldApart(rest, TrackNode(File(5, [FIRST]), ROOT_SEEN));
  }

  /** Only st_ino is looked at: the second name gets the first file's inode, and the run succeeds. */
  lemma SharedNumber(junk: Junk)
    ensures Build(9 * 4096, SHARED, junk).Some?
    ensures forall inoOf :: !ComesBack(Build(9 * 4096, SHARED, junk).value.disk, SHARED, inoOf)
  {
    hide Build, ToldApart, SourceNeed, ComesBack;
    SharedNeed();
    SharedMistaken();
    SucceedsIfFits(9 * 4096, SHARED, junk);
    RoundTripIff(9 * 4096, SHARED, junk);
  }

  /** A file with the number of a directory met before it. */
  const STRAY := Item([97], Dir(5, End), Item([98], File(5, [FIRST]), End))

  lemma StrayNeed()
    ensures SourceNeed(STRAY).fits && SourceNeed(STRAY).blocks == 7
  {
    var rest, seen := Item([98], File(5, [FIRST]), End), {0} + {5};
    assert PlusEntry(PlusEntry(Need(0, 0, {0}, true))) == Need(2, 2, {0}, true);
    assert PlusEntry(PlusEntry(Need(1, 0, seen, true))) == Need(3, 2, seen, true);
    assert ListNeed(End, Need(3, 2, seen, true)) == Need(3, 2, seen, true);
    assert NodeNeed(Dir(5, End), 2, {0}) == Need(4, 3, seen, true);
    KnownFile(5, FIRST, 3, seen);
    hide NodeNeed, PlusEntry;
    assert ListNeed(rest, Need(6, 3, seen, true)) == ListNeed(End, Need(7, 4, seen, true));
    assert ListNeed(STRAY, Need(2, 2, {0}, true)) == ListNeed(rest, Need(6, 3, seen, true));
  }

  lemma StrayShape()
    ensures NodeOn(Dir(0, STRAY), [0]) == Some(Dir(5, End)) && ListStrays(STRAY, ROOT_SEEN, 5) == 1
  {
    var rest, m := Item([98], File(5, [FIRST]), End), ROOT_SEEN[5 := Directory];
    assert [0][1..] == [];
    assert TrackNode(Dir(5, End), ROOT_SEEN) == m && Strays(Dir(5, End), ROOT_SEEN, 5) == 0;
    assert Strays(File(5, [FIRST]), m, 5) == 1;
    assert ListStrays(rest, m, 5) == 1 + ListStrays(End, TrackNode(File(5, [FIRST]), m), 5);
  }

  /** It becomes a name of the empty directory, whose link count is then three. */
  lemma StrayFile(junk: Junk)
    ensures Build(10 * 4096, STRAY, junk).Some?
    ensures var disk := Build(10 * 4096, STRAY, junk).value.disk;
      Follow(disk, 1, [0]).Some? && ReadInode(disk, Follow(disk, 1, [0]).value).nlinks == 3
  {
    hide Build, Follow, ReadInode, SourceNeed, ListStrays, NodeOn;
    StrayNeed();
    StrayShape();
    SucceedsIfFits(10 * 4096, STRAY, junk);
    DirectoryLinks(10 * 4096, STRAY, junk, [0], 5, End);
  }

  // ----- exactly which names survive

  ghost predicate NamesFit(es: Listing) {
    match es
    case End => true
    case Item(name, node, rest) =>
      && (Skipped(name, node) || (|name| <= 252 && (node.Dir? ==> NamesFit(node.entries))))
      && NamesFit(rest)
  }

  ghost predicate SameNames(es: Listing, back: BackList) {
    match es
    case End => back == BEnd
    case Item(name, node, rest) =>
      if Skipped(name, node) then SameNames(rest, back)
      else back.BItem? && back.name == name
           && (node.Dir? ==> back.node.BDir? && SameNames(node.entries, back.node.items))
           && SameNames(rest, back.rest)
  }

  /** Clipping changes no name if and only if every visible one has at most 252 bytes. */
  lemma {:induction false} NamesSurvive(es: Listing, inoOf: map<nat, nat>)
    requires Covers(inoOf, es)
    ensures SameNames(es, ExpectedList(es, inoOf)) <==> NamesFit(es)
  {
    match es
    case End =>
    case Item(name, node, rest) =>
      NamesSurvive(rest, inoOf);
      if node.Dir? && !Skipped(name, node) {
        NamesSurvive(node.entries, inoOf);
      }
      assert Clip(name) == name <==> |name| <= 252;
  }

  /** In the finished image the names are those of the source if and only if they fit, though 255 are accepted. */
  lemma NamesComeBack(bytes: nat, es: Listing, junk: Junk, fuel: nat)
    requires Build(bytes, es, junk).Some? && ToldApart(es, ROOT_SEEN) && fuel > DepthList(es)
    ensures var back := ReadNode(Build(bytes, es, junk).value.disk, 1, 1, fuel);
      back.Some? && back.value.BDir? && (SameNames(es, back.value.items) <==> NamesFit(es))
  {
    hide Build, ReadNode, ToldApart, Covers, SameNames, NamesFit;
    var inoOf := RoundTrip(bytes, es, junk);
    assert ReadsAs(Build(bytes, es, junk).value.disk, es, inoOf, fuel);
    NamesSurvive(es, inoOf);
  }

  const LONG_NAME: Name := seq(253, _ => 97)
  const LONG := Item(LONG_NAME, File(5, []), End)

  lemma LongNeed()
    ensures SourceNeed(LONG).fits && SourceNeed(LONG).blocks == 4
  {
    assert PlusEntry(PlusEntry(Need(0, 0, {0}, true))) == Need(2, 2, {0}, true);
    assert NodeNeed(File(5, []), 2, {0}) == Need(2, 3, {0} + {5}, true);
    hide NodeNeed, PlusEntry;
    assert ListNeed(LONG, Need(2, 2, {0}, true)) == ListNeed(End, Need(4, 3, {0} + {5}, true));
  }

  lemma LongShape()
    ensures DepthList(LONG) == 0 && ToldApart(LONG, ROOT_SEEN) && !Skipped(LONG.name, LONG.node)
  {
    assert 5 !in ROOT_SEEN;
    assert NodeToldApart(LONG.node, ROOT_SEEN);
    assert ToldApart(End, TrackNode(LONG.node, ROOT_SEEN));
  }

  /** A name of 253 bytes is accepted, and comes back a byte shorter. */
  lemma LongName(junk: Junk, fuel: nat)
    requires fuel > 0
    ensures Build(7 * 4096, LONG, junk).Some?
    ensures var back := ReadNode(Build(7 * 4096, LONG, junk).value.disk, 1, 1, fuel);
      && back.Some? && back.value.BDir? && back.value.items.BItem?
      && back.value.items.name == LONG_NAME[..252] && !SameNames(LONG, back.value.items)
  {
    hide Build, ReadNode, SourceNeed, ToldApart;
    LongShape();
    LongNeed();
    SucceedsIfFits(7 * 4096, LONG, junk);
    var inoOf := RoundTrip(7 * 4096, LONG, junk);
    assert ReadsAs(Build(7 * 4096, LONG, junk).value.disk, LONG, inoOf, fuel);
  }
}
