/** The entries of the directories in a finished image: which names they hold, and what size the directories have. */
module SfsEntries {
  import opened Wrappers
  import opened Bytes
  import opened SfsModel
  import opened SfsIndex
  import opened SfsRun
  import opened SfsImage
  import opened SfsRoundTrip
  import opened SfsReader
  import opened SfsDirLinks
  import opened SfsSizes
  import opened SfsBuild

  /** The first 252 bytes of every name that does not begin with a dot, special files left out. */
  function VisibleNames(es: Listing): seq<seq<Byte>> {
    match es
    case End => []
    case Item(name, node, rest) =>
      if node.Special? || (|name| > 0 && name[0] == 46) then VisibleNames(rest)
      else [if |name| <= 252 then name else name[..252]] + VisibleNames(rest)
  }

  lemma {:induction false} VisibleShown(es: Listing, k: nat)
    requires k < |VisibleNames(es)|
    ensures VisibleNames(es)[k] != [] ==> VisibleNames(es)[k][0] != 46
    decreases es
  {
    if Skipped(es.name, es.node) {
      VisibleShown(es.rest, k);
    } else if k > 0 {
      VisibleShown(es.rest, k - 1);
    }
  }

  // ----- the image

  function NamesIn(disk: map<nat, Block>, bs: seq<nat>): seq<seq<Byte>> {
    if bs == [] then [] else [EntryName(Get(disk, bs[0]))] + NamesIn(disk, bs[1..])
  }

  /** The names in directory `ino`, read from the image. */
  function DirNames(disk: map<nat, Block>, ino: nat): seq<seq<Byte>> {
    NamesIn(disk, BlockList(disk, ReadInode(disk, ino)))
  }

  lemma {:induction false} ListNames(disk: map<nat, Block>, fs: Fs, junk: Junk, c: nat, k: nat, es: Listing, m: Seen)
    requires ImageOf(disk, fs, junk) && ListAt(fs, c, k, es, m) && k <= |fs.files[c]|
    ensures NamesIn(disk, fs.files[c][k..]) == VisibleNames(es)
    decreases es
  {
    match es
    case End =>
    case Item(name, node, rest) =>
      hide ImageOf, NodeAt, TrackNode, EntryName, EntryIno, Get;
      if Skipped(name, node) {
        ListNames(disk, fs, junk, c, k, rest, m);
      } else {
        var f: nat :| ChildAt(fs, c, k, name, node, f) && NodeAt(fs, f, fs.ci[c].ino, node, m);
        EntryOnDisk(disk, fs, junk, c, k, fs.ci[f].ino, name);
        ListNames(disk, fs, junk, c, k + 1, rest, TrackNode(node, m));
      }
  }

  /** Directory `c` on the image. */
  lemma DirOnDisk(disk: map<nat, Block>, fs: Fs, junk: Junk, c: nat, up: nat, es: Listing, m: Seen)
    requires RunInv(fs) && ImageOf(disk, fs, junk) && DirAt(fs, c, up, es, m)
    ensures DirNames(disk, fs.ci[c].ino) == [[46], [46, 46]] + VisibleNames(es)
  {
    hide ReadInode, EntryName, EntryIno;
    var bs := fs.files[c];
    InodeOnDisk(disk, fs, junk, c);
    BlockListOnDisk(disk, fs, junk, c);
    EntryOnDisk(disk, fs, junk, c, 0, fs.ci[c].ino, DOT);
    EntryOnDisk(disk, fs, junk, c, 1, up, DOTDOT);
    ListLong(fs, c, 2, es, m);
    ListNames(disk, fs, junk, c, 2, es, m);
    assert bs[0..] == bs && NamesIn(disk, bs) == [[46]] + ([[46, 46]] + NamesIn(disk, bs[2..]));
  }

  lemma {:induction false} NamesCount(disk: map<nat, Block>, bs: seq<nat>)
    ensures |NamesIn(disk, bs)| == |bs|
  {
    if bs != [] {
      NamesCount(disk, bs[1..]);
    }
  }

  lemma WalkedSizes(bytes: nat, es: Listing)
    requires Walked(bytes, es).Some?
    ensures SizesOk(Walked(bytes, es).value)
  {
    hide OpenDir;
    CreateOk(bytes);
    assert SizeAt(Create(bytes).value, 0);
    OpenDirSizes(Create(bytes).value, 0, 0, es);
  }

  /** In every finished image a directory's size is 256 bytes for each of its blocks. */
  lemma DirectorySizes(bytes: nat, es: Listing, junk: Junk, ino: nat)
    requires Build(bytes, es, junk).Some? && ino in ImageInodes(bytes, es)
    ensures var inode := ReadInode(Build(bytes, es, junk).value.disk, ino);
      inode.kind == 2 ==> inode.size == 256 * inode.blocks
  {
    hide ReadInode, OpenDir, Close, Create, SizesOk;
    var fs := Walked(bytes, es).value;
    ImageHolds(bytes, es, junk);
    WalkedSizes(bytes, es);
    var i :| 0 <= i < |fs.ci| && ImageInodes(bytes, es)[i] == ino;
    InodeOnDisk(Build(bytes, es, junk).value.disk, fs, junk, i);
    InodeSize(fs, i);
  }

  lemma InodeSize(fs: Fs, i: nat)
    requires RunInv(fs) && SizesOk(fs) && i < |fs.ci|
    ensures fs.ci[i].inode.blocks == |fs.files[i]|
    ensures fs.ci[i].inode.kind == 2 ==> fs.ci[i].inode.size == 256 * fs.ci[i].inode.blocks
  {
    assert FileAt(fs, i) && SizeAt(fs, i);
  }

  lemma PathEntries(disk: map<nat, Block>, fs: Fs, junk: Junk, es: Listing, path: seq<nat>, h: nat, sub: Listing)
    requires RunInv(fs) && ImageOf(disk, fs, junk) && NodeAt(fs, 0, 1, Dir(0, es), map[]) && SizesOk(fs)
    requires NodeOn(Dir(0, es), path) == Some(Dir(h, sub))
    ensures Follow(disk, 1, path).Some?
    ensures var ino := Follow(disk, 1, path).value;
      && DirNames(disk, ino) == [[46], [46, 46]] + VisibleNames(sub)
      && ReadInode(disk, ino).blocks == 2 + |VisibleNames(sub)|
      && ReadInode(disk, ino).size == 256 * (2 + |VisibleNames(sub)|)
  {
    hide ReadInode, NodeOn, Follow, ImageOf, SizesOk, VisibleNames, IndexInv, RolesOk, SpaceOk, DataOk;
    var f, up, m := FollowOk(disk, fs, junk, 0, 1, Dir(0, es), map[], path, h, sub);
    DirOnDisk(disk, fs, junk, f, up, sub, m[h := Directory]);
    InodeOnDisk(disk, fs, junk, f);
    InodeSize(fs, f);
    BlockListOnDisk(disk, fs, junk, f);
    NamesCount(disk, fs.files[f]);
  }

  /**
   * In every finished image the path of a directory of the source leads to a directory that holds ".", ".." and the
   * visible names, in order, and has 256 bytes and a block for each.
   */
  lemma DirectoryEntries(bytes: nat, es: Listing, junk: Junk, path: seq<nat>, h: nat, sub: Listing)
    requires Build(bytes, es, junk).Some? && NodeOn(Dir(0, es), path) == Some(Dir(h, sub))
    ensures var disk := Build(bytes, es, junk).value.disk;
      && Follow(disk, 1, path).Some?
      && var ino := Follow(disk, 1, path).value;
         && DirNames(disk, ino) == [[46], [46, 46]] + VisibleNames(sub)
         && ReadInode(disk, ino).blocks == 2 + |VisibleNames(sub)|
         && ReadInode(disk, ino).size == 256 * (2 + |VisibleNames(sub)|)
  {
    hide Walked, Close, ReadInode, NodeOn, Follow, NodeAt, Known, RunInv, ImageOf, SizesOk, VisibleNames, DirNames;
    var fs, disk := Walked(bytes, es).value, Build(bytes, es, junk).value.disk;
    ImageHolds(bytes, es, junk);
    WalkedAt(bytes, es);
    WalkedSizes(bytes, es);
    PathEntries(disk, fs, junk, es, path, h, sub);
  }

  /** The root, and no name in it but the two fixed ones begins with a dot. */
  lemma RootEntries(bytes: nat, es: Listing, junk: Junk)
    requires Build(bytes, es, junk).Some?
    ensures var disk := Build(bytes, es, junk).value.disk;
      && DirNames(disk, 1) == [[46], [46, 46]] + VisibleNames(es)
      && ReadInode(disk, 1).size == 256 * (2 + |VisibleNames(es)|)
    ensures var names := DirNames(Build(bytes, es, junk).value.disk, 1);
      forall k :: 2 <= k < |names| && names[k] != [] ==> names[k][0] != 46
  {
    hide Build, ReadInode, DirNames, VisibleNames;
    DirectoryEntries(bytes, es, junk, [], 0, es);
    var names := DirNames(Build(bytes, es, junk).value.disk, 1);
    forall k | 2 <= k < |names| && names[k] != [] ensures names[k][0] != 46 {
      VisibleShown(es, k - 2);
    }
  }
}
