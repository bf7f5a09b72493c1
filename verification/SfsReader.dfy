/** A reader for finished images, and the round trip: what it returns is the source directory. */
module SfsReader {
  import opened Wrappers
  import opened Bytes
  import opened SfsModel
  import opened SfsIndex
  import opened SfsRun
  import opened SfsImage
  import opened SfsRoundTrip
  import opened SfsDirs

  // ----- the reader

  /** What the reader returns: regular files carry their inode number, so that sharing can be seen. */
  datatype Back = BFile(ino: nat, data: seq<Byte>) | BLink(data: seq<Byte>) | BDir(nlinks: nat, items: BackList)
  datatype BackList = BEnd | BItem(name: seq<Byte>, node: Back, rest: BackList)

  function BlockList(disk: map<nat, Block>, inode: Inode): (bs: seq<nat>)
    requires |inode.direct| == NDIRECT
    ensures |bs| <= LN_NBLKS
    ensures forall k :: 0 <= k < |bs| ==> bs[k] == Lookup(disk, inode, k)
  {
    seq(if inode.blocks <= LN_NBLKS then inode.blocks else 0,
        k requires 0 <= k < LN_NBLKS => Lookup(disk, inode, k))
  }

  function ReadData(disk: map<nat, Block>, bs: seq<nat>): (d: seq<Byte>)
    ensures |d| == BLKSIZE * |bs|
  {
    if bs == [] then [] else ReadData(disk, bs[..|bs| - 1]) + Get(disk, bs[|bs| - 1])
  }

  function ReadBytes(disk: map<nat, Block>, inode: Inode): seq<Byte>
    requires |inode.direct| == NDIRECT
  {
    var d := ReadData(disk, BlockList(disk, inode));
    if inode.size <= |d| then d[..inode.size] else d
  }

  predicate IsEntry(b: Block, ino: nat, name: Name) {
    EntryIno(b) == ino && EntryName(b) == name
  }

  /**
   * The node at inode `ino`, a child of directory `up`. A directory must begin with "." naming itself and
   * ".." naming its parent. Regular files have type 1, directories 2, symbolic links 3. `fuel` bounds the depth,
   * since a damaged image may have cycles.
   */
  function ReadNode(disk: map<nat, Block>, ino: nat, up: nat, fuel: nat): Option<Back>
    decreases fuel, 1, 0
  {
    var inode := ReadInode(disk, ino);
    if inode.kind == 1 then Some(BFile(ino, ReadBytes(disk, inode)))
    else if inode.kind == 3 then Some(BLink(ReadBytes(disk, inode)))
    else if inode.kind != 2 || fuel == 0 then None
    else
      var bs := BlockList(disk, inode);
      if |bs| < 2 || !IsEntry(Get(disk, bs[0]), ino, [46]) || !IsEntry(Get(disk, bs[1]), up, [46, 46]) then None
      else
        var items :- ReadList(disk, bs[2..], ino, fuel - 1);
        Some(BDir(inode.nlinks, items))
  }

  function ReadList(disk: map<nat, Block>, bs: seq<nat>, dir: nat, fuel: nat): Option<BackList>
    decreases fuel, 2, |bs|
  {
    if bs == [] then Some(BEnd)
    else
      var b := Get(disk, bs[0]);
      var node :- ReadNode(disk, EntryIno(b), dir, fuel);
      var rest :- ReadList(disk, bs[1..], dir, fuel);
      Some(BItem(EntryName(b), node, rest))
  }

  // ----- what it should return

  /** The number of every visible regular file has an inode number. */
  predicate CoversNode(inoOf: map<nat, nat>, node: Node)
    decreases node, 1
  {
    match node
    case File(h, chunks) => h in inoOf
    case Dir(h, sub) => Covers(inoOf, sub)
    case _ => true
  }

  predicate Covers(inoOf: map<nat, nat>, es: Listing)
    decreases es, 0
  {
    match es
    case End => true
    case Item(name, node, rest) => (Skipped(name, node) || CoversNode(inoOf, node)) && Covers(inoOf, rest)
  }

  /** The source as it should come back, given the inode number of each host file. */
  function Expected(node: Node, inoOf: map<nat, nat>): Back
    requires !node.Special? && CoversNode(inoOf, node)
    decreases node, 1
  {
    match node
    case File(h, chunks) => BFile(inoOf[h], Flat(chunks))
    case Link(h, target) => BLink(target)
    case Dir(h, sub) => BDir(2 + Subdirs(sub), ExpectedList(sub, inoOf))
  }

  function ExpectedList(es: Listing, inoOf: map<nat, nat>): BackList
    requires Covers(inoOf, es)
    decreases es, 0
  {
    match es
    case End => BEnd
    case Item(name, node, rest) =>
      if Skipped(name, node) then ExpectedList(rest, inoOf)
      else BItem(Clip(name), Expected(node, inoOf), ExpectedList(rest, inoOf))
  }

  function Depth(node: Node): nat {
    match node
    case Dir(h, sub) => 1 + DepthList(sub)
    case _ => 0
  }

  function DepthList(es: Listing): nat {
    match es
    case End => 0
    case Item(name, node, rest) =>
      var d, r := Depth(node), DepthList(rest);
      if d < r then r else d
  }

  // ----- file contents

  lemma {:induction false} ReadFull(disk: map<nat, Block>, bs: seq<nat>, data: seq<seq<Byte>>)
    requires |bs| == |data|
    requires forall k :: 0 <= k < |data| ==> |data[k]| == BLKSIZE && BlockHas(disk, bs[k], data[k])
    ensures ReadData(disk, bs) == Flat(data) && Total(data) == BLKSIZE * |data|
  {
    if data != [] {
      var n := |data| - 1;
      ReadFull(disk, bs[..n], data[..n]);
      assert BlockHas(disk, bs[n], data[n]) && Pad(data[n]) == data[n];
    }
  }

  lemma ReadContent(disk: map<nat, Block>, bs: seq<nat>, data: seq<seq<Byte>>)
    requires |bs| == |data| && Full(data)
    requires forall k :: 0 <= k < |data| ==> BlockHas(disk, bs[k], data[k])
    ensures Total(data) <= BLKSIZE * |data| && ReadData(disk, bs)[..Total(data)] == Flat(data)
  {
    if data != [] {
      var n := |data| - 1;
      ReadFull(disk, bs[..n], data[..n]);
      assert BlockHas(disk, bs[n], data[n]) && Pad(data[n])[..|data[n]|] == data[n];
    }
  }

  lemma BlockListOnDisk(disk: map<nat, Block>, fs: Fs, junk: Junk, f: nat)
    requires RunInv(fs) && ImageOf(disk, fs, junk) && f < |fs.ci|
    ensures |fs.ci[f].inode.direct| == NDIRECT && BlockList(disk, fs.ci[f].inode) == fs.files[f]
  {
    assert FileAt(fs, f) && SaneInode(fs.ci[f], |fs.cb|);
    var bs := BlockList(disk, fs.ci[f].inode);
    forall k | 0 <= k < |bs| ensures bs[k] == fs.files[f][k] {
      LookupOnDisk(disk, fs, junk, f, k);
    }
  }

  lemma ContentOnDisk(disk: map<nat, Block>, fs: Fs, junk: Junk, f: nat, data: seq<seq<Byte>>)
    requires RunInv(fs) && ImageOf(disk, fs, junk) && ContentAt(fs, f, data)
    ensures |fs.ci[f].inode.direct| == NDIRECT && ReadBytes(disk, fs.ci[f].inode) == Flat(data)
  {
    BlockListOnDisk(disk, fs, junk, f);
    forall k | 0 <= k < |data| ensures BlockHas(disk, fs.files[f][k], data[k]) {
      assert BlockHas(fs.disk, fs.files[f][k], data[k]);
    }
    ReadContent(disk, fs.files[f], data);
  }

  // ----- the round trip

  /** Host numbers of regular files, with the inode numbers they got. */
  ghost predicate Numbered(fs: Fs, inoOf: map<nat, nat>) {
    forall i :: 0 <= i < |fs.ci| && fs.ci[i].inode.kind == TYPE_FILE ==> NumberedAt(fs, inoOf, i)
  }

  ghost predicate NumberedAt(fs: Fs, inoOf: map<nat, nat>, i: nat) {
    i < |fs.ci| && fs.ci[i].host in inoOf && inoOf[fs.ci[i].host] == fs.ci[i].ino
  }

  /** A file that was taken for what it is. */
  lemma FileReads(disk: map<nat, Block>, fs: Fs, junk: Junk, inoOf: map<nat, nat>,
                  c: nat, up: nat, h: nat, chunks: seq<Chunk>, fuel: nat)
    requires RunInv(fs) && ImageOf(disk, fs, junk) && Numbered(fs, inoOf) && FoundAs(fs, c, h, Regular(Flat(chunks)))
    ensures h in inoOf && ReadNode(disk, fs.ci[c].ino, up, fuel) == Some(BFile(inoOf[h], Flat(chunks)))
  {
    InodeOnDisk(disk, fs, junk, c);
    var data: seq<seq<Byte>> :| ContentAt(fs, c, data) && Flat(data) == Flat(chunks);
    ContentOnDisk(disk, fs, junk, c, data);
    assert NumberedAt(fs, inoOf, c);
  }

  lemma LinkReads(disk: map<nat, Block>, fs: Fs, junk: Junk, c: nat, up: nat, target: seq<Byte>, fuel: nat)
    requires RunInv(fs) && ImageOf(disk, fs, junk) && ContentAt(fs, c, [target]) && fs.ci[c].inode.kind == TYPE_LINK
    ensures ReadNode(disk, fs.ci[c].ino, up, fuel) == Some(BLink(target))
  {
    InodeOnDisk(disk, fs, junk, c);
    ContentOnDisk(disk, fs, junk, c, [target]);
    assert [target][..0] == [] && Flat([target]) == [] + target == target;
  }

  /** A directory reads as its entries. */
  lemma DirReads(disk: map<nat, Block>, fs: Fs, junk: Junk, c: nat, up: nat, sub: Listing, m: Seen, fuel: nat)
    requires RunInv(fs) && ImageOf(disk, fs, junk) && DirAt(fs, c, up, sub, m)
    ensures |fs.files[c]| >= 2
    ensures ReadNode(disk, fs.ci[c].ino, up, fuel) ==
      if fuel == 0 || ReadList(disk, fs.files[c][2..], fs.ci[c].ino, fuel - 1).None? then None
      else Some(BDir(fs.ci[c].inode.nlinks, ReadList(disk, fs.files[c][2..], fs.ci[c].ino, fuel - 1).value))
  {
    InodeOnDisk(disk, fs, junk, c);
    BlockListOnDisk(disk, fs, junk, c);
    var bs := fs.files[c];
    assert IsEntry(Get(disk, bs[0]), fs.ci[c].ino, DOT) && IsEntry(Get(disk, bs[1]), up, DOTDOT);
  }

  /** Every directory has the links that the directories of its number in the source have. */
  ghost predicate Counted(fs: Fs, root: Node) {
    forall i :: 0 <= i < |fs.ci| && fs.ci[i].inode.kind == TYPE_DIR ==> CountedAt(fs, root, i)
  }

  ghost predicate CountedAt(fs: Fs, root: Node, i: nat) {
    i < |fs.ci| && fs.ci[i].inode.nlinks == OwnLinks(root, fs.ci[i].host) % 0x1_0000
  }

  lemma {:induction false} ListLong(fs: Fs, c: nat, k: nat, es: Listing, m: Seen)
    requires ListAt(fs, c, k, es, m)
    ensures k + Subdirs(es) <= |fs.files[c]|
    decreases es
  {
    match es
    case End =>
    case Item(name, node, rest) =>
      if Skipped(name, node) {
        ListLong(fs, c, k, rest, m);
      } else {
        ListLong(fs, c, k + 1, rest, TrackNode(node, m));
      }
  }

  /** A directory has fewer than 2^16 entries. */
  lemma DirCount(fs: Fs, c: nat, up: nat, h: nat, sub: Listing, m: Seen, root: Node)
    requires RunInv(fs) && Counted(fs, root) && NodeAt(fs, c, up, Dir(h, sub), m) && Alone(Dir(h, sub), root)
    ensures fs.ci[c].inode.nlinks == 2 + Subdirs(sub)
  {
    assert FileAt(fs, c) && CountedAt(fs, root, c);
    ListLong(fs, c, 2, sub, m[h := Directory]);
  }

  lemma {:induction false} NodeReads(disk: map<nat, Block>, fs: Fs, junk: Junk, inoOf: map<nat, nat>, root: Node,
                                     c: nat, up: nat, node: Node, m: Seen, fuel: nat)
    requires RunInv(fs) && ImageOf(disk, fs, junk) && Numbered(fs, inoOf) && Counted(fs, root) && Alone(node, root)
    requires NodeAt(fs, c, up, node, m) && NodeToldApart(node, m) && !node.Special? && fuel >= Depth(node)
    ensures CoversNode(inoOf, node) && ReadNode(disk, fs.ci[c].ino, up, fuel) == Some(Expected(node, inoOf))
    decreases node, 1
  {
    hide ReadNode, ReadList;
    match node
    case File(h, chunks) => FileReads(disk, fs, junk, inoOf, c, up, h, chunks, fuel);
    case Link(h, target) => LinkReads(disk, fs, junk, c, up, target, fuel);
    case Dir(h, sub) =>
      DirReads(disk, fs, junk, c, up, sub, m[h := Directory], fuel);
      DirCount(fs, c, up, h, sub, m, root);
      ListReads(disk, fs, junk, inoOf, root, c, 2, sub, m[h := Directory], fuel - 1);
  }

  lemma EntryOnDisk(disk: map<nat, Block>, fs: Fs, junk: Junk, c: nat, k: nat, ino: nat, name: Name)
    requires ImageOf(disk, fs, junk) && EntryAt(fs, c, k, ino, name)
    ensures var b := Get(disk, fs.files[c][k]); EntryIno(b) == ino && EntryName(b) == Clip(name)
    ensures fs.files[c][k..] == [fs.files[c][k]] + fs.files[c][k + 1..]
  {
  }

  lemma {:induction false} ListReads(disk: map<nat, Block>, fs: Fs, junk: Junk, inoOf: map<nat, nat>, root: Node,
                                     c: nat, k: nat, es: Listing, m: Seen, fuel: nat)
    requires RunInv(fs) && ImageOf(disk, fs, junk) && Numbered(fs, inoOf) && Counted(fs, root) && ListAlone(es, root)
    requires ListAt(fs, c, k, es, m) && ToldApart(es, m) && k <= |fs.files[c]| && fuel >= DepthList(es)
    ensures Covers(inoOf, es)
    ensures ReadList(disk, fs.files[c][k..], fs.ci[c].ino, fuel) == Some(ExpectedList(es, inoOf))
    decreases es, 0
  {
    match es
    case End =>
    case Item(name, node, rest) =>
      hide ReadNode, RunInv, ImageOf, Numbered, Counted, Alone, NodeAt, NodeToldApart, TrackNode;
      hide Get, EntryIno, EntryName, Clip, Expected, CoversNode;
      if Skipped(name, node) {
        ListReads(disk, fs, junk, inoOf, root, c, k, rest, m, fuel);
      } else {
        var f: nat :| ChildAt(fs, c, k, name, node, f) && NodeAt(fs, f, fs.ci[c].ino, node, m);
        NodeReads(disk, fs, junk, inoOf, root, f, fs.ci[c].ino, node, m, fuel);
        ListReads(disk, fs, junk, inoOf, root, c, k + 1, rest, TrackNode(node, m), fuel);
        EntryOnDisk(disk, fs, junk, c, k, fs.ci[f].ino, name);
      }
  }

  // ----- and only if

  /** What an inode that a file's entry names gives back. */
  lemma FileTells(disk: map<nat, Block>, fs: Fs, junk: Junk, c: nat, up: nat, h: nat, v: Object,
                  ino: nat, d: seq<Byte>, fuel: nat)
    requires RunInv(fs) && ImageOf(disk, fs, junk) && FoundAs(fs, c, h, v)
    requires ReadNode(disk, fs.ci[c].ino, up, fuel) == Some(BFile(ino, d))
    ensures v == Regular(d)
  {
    InodeOnDisk(disk, fs, junk, c);
    if v.Regular? {
      var data: seq<seq<Byte>> :| ContentAt(fs, c, data) && Flat(data) == v.data;
      ContentOnDisk(disk, fs, junk, c, data);
    }
  }

  /** A node that comes back was told apart. */
  lemma {:induction false} NodeTells(disk: map<nat, Block>, fs: Fs, junk: Junk, inoOf: map<nat, nat>,
                                     c: nat, up: nat, node: Node, m: Seen, fuel: nat)
    requires RunInv(fs) && ImageOf(disk, fs, junk)
    requires NodeAt(fs, c, up, node, m) && !node.Special? && CoversNode(inoOf, node)
    requires ReadNode(disk, fs.ci[c].ino, up, fuel) == Some(Expected(node, inoOf))
    ensures NodeToldApart(node, m)
    decreases node, 1
  {
    hide ReadNode, ReadList;
    match node
    case File(h, chunks) => FileTells(disk, fs, junk, c, up, h, Taken(m, h, chunks), inoOf[h], Flat(chunks), fuel);
    case Link(h, target) =>
    case Dir(h, sub) =>
      DirReads(disk, fs, junk, c, up, sub, m[h := Directory], fuel);
      ListTells(disk, fs, junk, inoOf, c, 2, sub, m[h := Directory], fuel - 1);
  }

  /** The first entry and the rest of a list that was read. */
  lemma ReadListSplits(disk: map<nat, Block>, bs: seq<nat>, dir: nat, fuel: nat, back: BackList)
    requires bs != [] && ReadList(disk, bs, dir, fuel) == Some(back)
    ensures back.BItem? && ReadNode(disk, EntryIno(Get(disk, bs[0])), dir, fuel) == Some(back.node)
    ensures ReadList(disk, bs[1..], dir, fuel) == Some(back.rest)
  {
    hide ReadNode, Get, EntryIno, EntryName;
  }

  lemma {:induction false} ListTells(disk: map<nat, Block>, fs: Fs, junk: Junk, inoOf: map<nat, nat>,
                                     c: nat, k: nat, es: Listing, m: Seen, fuel: nat)
    requires RunInv(fs) && ImageOf(disk, fs, junk)
    requires ListAt(fs, c, k, es, m) && k <= |fs.files[c]| && Covers(inoOf, es)
    requires ReadList(disk, fs.files[c][k..], fs.ci[c].ino, fuel) == Some(ExpectedList(es, inoOf))
    ensures ToldApart(es, m)
    decreases es, 0
  {
    match es
    case End =>
    case Item(name, node, rest) =>
      hide ReadNode, ReadList, RunInv, ImageOf, NodeAt, NodeToldApart, TrackNode;
      hide Get, EntryIno, EntryName, Clip, Expected;
      if Skipped(name, node) {
        ListTells(disk, fs, junk, inoOf, c, k, rest, m, fuel);
      } else {
        var f: nat :| ChildAt(fs, c, k, name, node, f) && NodeAt(fs, f, fs.ci[c].ino, node, m);
        EntryOnDisk(disk, fs, junk, c, k, fs.ci[f].ino, name);
        ReadListSplits(disk, fs.files[c][k..], fs.ci[c].ino, fuel, ExpectedList(es, inoOf));
        assert fs.files[c][k..][1..] == fs.files[c][k + 1..];
        NodeTells(disk, fs, junk, inoOf, f, fs.ci[c].ino, node, m, fuel);
        ListTells(disk, fs, junk, inoOf, c, k + 1, rest, TrackNode(node, m), fuel);
      }
  }
}
