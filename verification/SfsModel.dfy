/**
 * The state of the SFS image builder and the effect of every operation on it, as values.
 * A `cache_inode *` or `cache_block *` is the position of the record in allocation order;
 * a run that ends in `bug(...)` or a failed assertion yields `None`.
 */
module SfsModel {
  import opened Basics
  import opened Wrappers
  import opened Bytes

  const NDIRECT := 12
  const NENTRY := 1024
  const L1_NBLKS := 1036
  const LN_NBLKS := 32768
  const MAX_NBLKS := 524288
  const HASH_SIZE := 1024
  const NAME_SIZE := 256
  const MAX_FNAME_LEN := 255
  /** Bytes of a name that reach the disk: the write covers 256 bytes, four of them the inode number. */
  const NAME_ON_DISK := 252
  const MAGIC := 0x2f8dbe2a

  const TYPE_FILE := 1
  const TYPE_DIR := 2
  const TYPE_LINK := 3

  /** A C string: no NUL inside. */
  type Name = s: seq<Byte> | 0 !in s
  /** What one successful read(2) delivers. */
  type Chunk = s: seq<Byte> | 1 <= |s| <= BLKSIZE witness [0]

  datatype Inode = Inode(size: nat, kind: nat, nlinks: nat, blocks: nat,
                         direct: seq<nat>, indirect: nat, dbIndirect: nat)
  datatype CacheInode = CacheInode(inode: Inode, host: nat, ino: nat, nblks: nat,
                                   l1: Option<nat>, l2: Option<nat>)
  datatype CacheBlock = CacheBlock(ino: nat, cache: seq<nat>)

  /** What a block number was handed out for. */
  datatype Role = Meta | Data(at: nat) | OfInode(i: nat) | OfIndex(x: nat)

  /**
   * The first eight fields are the builder's own; `disk` and `log` record the pwrite calls.
   * The others are history that no operation looks at: the blocks appended to each inode, the index
   * blocks each inode owns in allocation order, the owner of each index block, the role of each
   * block number, and how often update_cache fell back on searching.
   */
  datatype Fs = Fs(
    ninos: nat, nextIno: nat, unused: int,
    ci: seq<CacheInode>, cb: seq<CacheBlock>, entry: seq<Byte>,
    disk: map<nat, Block>, log: seq<nat>,
    files: seq<seq<nat>>, own: seq<seq<nat>>, owner: seq<(nat, nat)>, role: seq<Role>, searches: nat)

  /** The source directory as readdir, lstat, read and readlink deliver it. */
  datatype Node =
    | File(host: nat, chunks: seq<Chunk>)
    | Link(host: nat, target: seq<Byte>)
    | Dir(host: nat, entries: Listing)
    | Special
  datatype Listing = End | Item(name: Name, node: Node, rest: Listing)

  /** Every array has its C size and every pointer points somewhere. */
  predicate Sane(fs: Fs) {
    && |fs.ci| == |fs.files| == |fs.own|
    && |fs.entry| == NAME_SIZE
    && (forall x :: 0 <= x < |fs.cb| ==> |fs.cb[x].cache| == NENTRY)
    && (forall f :: 0 <= f < |fs.ci| ==> SaneInode(fs.ci[f], |fs.cb|))
  }

  predicate SaneInode(c: CacheInode, ncb: nat) {
    && |c.inode.direct| == NDIRECT
    && (c.l1.Some? ==> c.l1.value < ncb)
    && (c.l2.Some? ==> c.l2.value < ncb)
  }

  // ----- allocation and block writes (lines 173-221, 287-310)

  function Hash32(val: nat): (h: nat)
    ensures h < HASH_SIZE
  {
    val % M32 * 0x9e370001 % M32 / 0x40_0000
  }

  function AllocIno(fs: Fs, role: Role): Option<Fs> {
    if fs.nextIno < fs.ninos then
      Some(fs.(unused := fs.unused - 1, nextIno := fs.nextIno + 1, role := fs.role + [role]))
    else None
  }

  function WriteBlock(fs: Fs, data: seq<Byte>, ino: nat): Option<Fs> {
    if |data| <= BLKSIZE && ino < fs.ninos then
      Some(fs.(disk := fs.disk[ino := Pad(data)], log := fs.log + [ino]))
    else None
  }

  /** sfs_alloc_ino followed by write_block: the new block is number `fs.nextIno`. */
  function Store(fs: Fs, data: seq<Byte>): (r: Option<Fs>)
    ensures r.Some? && Sane(fs) ==> Sane(r.value) && r.value.ci == fs.ci
  {
    var fs1 :- AllocIno(fs, Data(|fs.log|));
    WriteBlock(fs1, data, fs.nextIno)
  }

  function EmptyInode(kind: nat, host: nat, ino: nat): CacheInode {
    CacheInode(Inode(0, kind, 0, 0, seq(NDIRECT, _ => 0), 0, 0), host, ino, 0, None, None)
  }

  /** alloc_cache_inode with ino == 0: the new record is number `|fs.ci|`. */
  function AllocInode(fs: Fs, host: nat, kind: nat): (r: Option<Fs>)
    ensures r.Some? && Sane(fs) ==> Sane(r.value) && |r.value.ci| == |fs.ci| + 1
  {
    var fs1 :- AllocIno(fs, OfInode(|fs.ci|));
    Some(fs1.(ci := fs.ci + [EmptyInode(kind, host, fs.nextIno)],
              files := fs.files + [[]], own := fs.own + [[]]))
  }

  /** Newest-first search over the first `n` inodes ever allocated. */
  function Newest(ci: seq<CacheInode>, n: nat, host: nat): (r: Option<nat>)
    requires n <= |ci|
    ensures r.Some? ==> r.value < n && ci[r.value].host == host
    ensures r.None? ==> forall i :: 0 <= i < n ==> ci[i].host != host
  {
    if n == 0 then None
    else if ci[n - 1].host == host then Some(n - 1)
    else Newest(ci, n - 1, host)
  }

  /** alloc_cache_block on behalf of inode `f`: the new record is number `|fs.cb|`. */
  function AllocIndex(fs: Fs, f: nat): (r: Option<Fs>)
    requires f < |fs.own|
    ensures r.Some? && Sane(fs) ==> Sane(r.value)
  {
    var fs1 :- AllocIno(fs, OfIndex(|fs.cb|));
    Some(fs1.(cb := fs.cb + [CacheBlock(fs.nextIno, seq(NENTRY, _ => 0))],
              own := fs.own[f := fs.own[f] + [|fs.cb|]],
              owner := fs.owner + [(f, |fs.own[f]|)]))
  }

  /** search_cache_block: index blocks are all filed under hash32(0), newest first. */
  function SearchIndex(cb: seq<CacheBlock>, n: nat, ino: nat): (r: Option<nat>)
    requires n <= |cb|
    ensures r.Some? ==> r.value < n && cb[r.value].ino == ino
  {
    if n == 0 || Hash32(ino) != Hash32(0) then None
    else if cb[n - 1].ino == ino then Some(n - 1)
    else SearchIndex(cb, n - 1, ino)
  }

  // ----- the block index of a file (lines 376-426)

  /** update_cache on the pair `*cbp`, `*inop`: the new state, and the new value of `*cbp`. */
  function UpdateCache(fs: Fs, f: nat, cbp: Option<nat>, ino: nat): (r: Option<(Fs, nat)>)
    requires Sane(fs) && f < |fs.ci|
    requires cbp.Some? ==> cbp.value < |fs.cb|
    ensures r.Some? ==> Sane(r.value.0) && r.value.1 < |r.value.0.cb| && r.value.0.ci == fs.ci
    ensures r.Some? ==> |fs.cb| <= |r.value.0.cb|
  {
    if ino == 0 then
      var fs1 :- AllocIndex(fs, f);
      Some((fs1, |fs.cb|))
    else if cbp.None? || fs.cb[cbp.value].ino != ino then
      var x :- SearchIndex(fs.cb, |fs.cb|, ino);
      Some((fs.(searches := fs.searches + 1), x))
    else
      Some((fs, cbp.value))
  }

  /** Entry `k` of index block `x` becomes `v`. */
  function Poke(cb: seq<CacheBlock>, x: nat, k: nat, v: nat): seq<CacheBlock>
    requires x < |cb| && k < |cb[x].cache|
  {
    cb[x := cb[x].(cache := cb[x].cache[k := v])]
  }

  function PlaceDirect(fs: Fs, f: nat, ino: nat): (r: Fs)
    requires Sane(fs) && f < |fs.ci| && fs.ci[f].nblks < NDIRECT
    ensures Sane(r) && |r.ci| == |fs.ci|
  {
    var c := fs.ci[f];
    fs.(ci := fs.ci[f := c.(inode := c.inode.(direct := c.inode.direct[c.nblks := ino]))])
  }

  function PlaceSingle(fs: Fs, f: nat, ino: nat): (r: Option<Fs>)
    requires Sane(fs) && f < |fs.ci| && NDIRECT <= fs.ci[f].nblks < L1_NBLKS
    ensures r.Some? ==> Sane(r.value) && |r.value.ci| == |fs.ci|
  {
    var c := fs.ci[f];
    var u :- UpdateCache(fs, f, c.l1, c.inode.indirect);
    Some(u.0.(cb := Poke(u.0.cb, u.1, c.nblks - NDIRECT, ino),
              ci := fs.ci[f := c.(l1 := Some(u.1), inode := c.inode.(indirect := u.0.cb[u.1].ino))]))
  }

  /** The top block of the double-indirect index, found or allocated. */
  function PlaceTop(fs: Fs, f: nat): (r: Option<Fs>)
    requires Sane(fs) && f < |fs.ci|
    ensures r.Some? ==> Sane(r.value) && |r.value.ci| == |fs.ci| && r.value.ci[f].l2.Some?
    ensures r.Some? ==> r.value.ci[f].nblks == fs.ci[f].nblks
  {
    var c := fs.ci[f];
    var u :- UpdateCache(fs, f, c.l2, c.inode.dbIndirect);
    Some(u.0.(ci := fs.ci[f := c.(l2 := Some(u.1), inode := c.inode.(dbIndirect := u.0.cb[u.1].ino))]))
  }

  /** The block number goes to entry `k` of the leaf that entry `j` of the top block `y` names. */
  function PlaceLeafAt(fs: Fs, f: nat, y: nat, j: nat, k: nat, ino: nat): (r: Option<Fs>)
    requires Sane(fs) && f < |fs.ci| && y < |fs.cb| && j < NENTRY && k < NENTRY
    ensures r.Some? ==> Sane(r.value) && |r.value.ci| == |fs.ci|
  {
    var c := fs.ci[f];
    var u :- UpdateCache(fs, f, c.l1, fs.cb[y].cache[j]);
    Some(u.0.(cb := Poke(Poke(u.0.cb, y, j, u.0.cb[u.1].ino), u.1, k, ino), ci := fs.ci[f := c.(l1 := Some(u.1))]))
  }

  function PlaceLeaf(fs: Fs, f: nat, ino: nat): (r: Option<Fs>)
    requires Sane(fs) && f < |fs.ci| && L1_NBLKS <= fs.ci[f].nblks < LN_NBLKS && fs.ci[f].l2.Some?
    ensures r.Some? ==> Sane(r.value) && |r.value.ci| == |fs.ci|
  {
    var m := fs.ci[f].nblks - L1_NBLKS;
    PlaceLeafAt(fs, f, fs.ci[f].l2.value, m / NENTRY, m % NENTRY, ino)
  }

  function Place(fs: Fs, f: nat, ino: nat): (r: Option<Fs>)
    requires Sane(fs) && f < |fs.ci| && fs.ci[f].nblks < LN_NBLKS
    ensures r.Some? ==> Sane(r.value) && |r.value.ci| == |fs.ci|
  {
    if fs.ci[f].nblks < NDIRECT then Some(PlaceDirect(fs, f, ino))
    else if fs.ci[f].nblks < L1_NBLKS then PlaceSingle(fs, f, ino)
    else
      var fs1 :- PlaceTop(fs, f);
      PlaceLeaf(fs1, f, ino)
  }

  /** The tail of append_block: count a block of `size` bytes. */
  function Count(fs: Fs, f: nat, size: nat, ino: nat): Fs
    requires f < |fs.ci| == |fs.files|
  {
    var c := fs.ci[f];
    var inode := c.inode.(size := (c.inode.size + size) % M32, blocks := c.inode.blocks + 1);
    fs.(ci := fs.ci[f := c.(nblks := c.nblks + 1, inode := inode)],
        files := fs.files[f := fs.files[f] + [ino]])
  }

  function AppendBlock(fs: Fs, f: nat, size: nat, ino: nat): (r: Option<Fs>)
    requires Sane(fs) && f < |fs.ci|
    ensures r.Some? ==> Sane(r.value) && |r.value.ci| == |fs.ci|
  {
    if size > BLKSIZE || fs.ci[f].nblks >= LN_NBLKS then None
    else
      var fs1 :- Place(fs, f, ino);
      Some(Count(fs1, f, size, ino))
  }

  // ----- directory entries (lines 428-437)

  /** The static entry buffer after strcpy: bytes behind the NUL keep their old values. */
  function Strcpy(entry: seq<Byte>, name: Name): seq<Byte>
    requires |entry| == NAME_SIZE && |name| <= MAX_FNAME_LEN
  {
    name + [0] + entry[|name| + 1..]
  }

  function EntryBytes(ino: nat, entry: seq<Byte>): (b: seq<Byte>)
    requires |entry| == NAME_SIZE
    ensures |b| == NAME_SIZE
  {
    Words([ino]) + entry[..NAME_ON_DISK]
  }

  /** A 16-bit counter goes up by one. */
  function Inc16(n: nat): nat {
    if n == 0xFFFF then 0 else n + 1
  }

  function CountLink(fs: Fs, f: nat): Fs
    requires f < |fs.ci|
  {
    var c := fs.ci[f];
    fs.(ci := fs.ci[f := c.(inode := c.inode.(nlinks := Inc16(c.inode.nlinks)))])
  }

  function AddEntry(fs: Fs, cur: nat, f: nat, name: Name): (r: Option<Fs>)
    requires Sane(fs) && cur < |fs.ci| && f < |fs.ci|
    ensures r.Some? ==> Sane(r.value) && |r.value.ci| == |fs.ci|
  {
    if fs.ci[cur].inode.kind != TYPE_DIR || |name| > MAX_FNAME_LEN then None
    else
      var entry := Strcpy(fs.entry, name);
      var fs1 :- Store(fs.(entry := entry), EntryBytes(fs.ci[f].ino, entry));
      var fs2 :- AppendBlock(fs1, cur, NAME_SIZE, fs.nextIno);
      Some(CountLink(fs2, f))
  }

  // ----- the walk over the source directory (lines 439-542)

  const DOT: Name := [46]
  const DOTDOT: Name := [46, 46]

  /** Names that open_dir passes over. */
  predicate Hidden(name: Name) {
    name == DOT || name == DOTDOT || (|name| > 0 && name[0] == 46)
  }

  function OpenFile(fs: Fs, f: nat, chunks: seq<Chunk>, last: nat): (r: Option<Fs>)
    requires Sane(fs) && f < |fs.ci|
    ensures r.Some? ==> Sane(r.value) && |r.value.ci| == |fs.ci|
    decreases |chunks|
  {
    if chunks == [] then Some(fs)
    else if last != BLKSIZE then None
    else
      var fs1 :- Store(fs, chunks[0]);
      var fs2 :- AppendBlock(fs1, f, |chunks[0]|, fs.nextIno);
      OpenFile(fs2, f, chunks[1..], |chunks[0]|)
  }

  function OpenLink(fs: Fs, f: nat, target: seq<Byte>): (r: Option<Fs>)
    requires Sane(fs) && f < |fs.ci|
    ensures r.Some? ==> Sane(r.value) && |r.value.ci| == |fs.ci|
  {
    if |target| >= BLKSIZE then None
    else
      var fs1 :- Store(fs, target);
      AppendBlock(fs1, f, |target|, fs.nextIno)
  }

  function AddFile(fs: Fs, cur: nat, name: Name, host: nat, chunks: seq<Chunk>): (r: Option<Fs>)
    requires Sane(fs) && cur < |fs.ci|
    ensures r.Some? ==> Sane(r.value) && |fs.ci| <= |r.value.ci|
  {
    match Newest(fs.ci, |fs.ci|, host)
    case Some(f) => AddEntry(fs, cur, f, name)
    case None =>
      var fs1 :- AllocInode(fs, host, TYPE_FILE);
      var fs2 :- OpenFile(fs1, |fs.ci|, chunks, BLKSIZE);
      AddEntry(fs2, cur, |fs.ci|, name)
  }

  function AddLink(fs: Fs, cur: nat, name: Name, host: nat, target: seq<Byte>): (r: Option<Fs>)
    requires Sane(fs) && cur < |fs.ci|
    ensures r.Some? ==> Sane(r.value) && |fs.ci| <= |r.value.ci|
  {
    var fs1 :- AllocInode(fs, host, TYPE_LINK);
    var fs2 :- OpenLink(fs1, |fs.ci|, target);
    AddEntry(fs2, cur, |fs.ci|, name)
  }

  function AddDir(fs: Fs, parent: nat, name: Name, host: nat, sub: Listing): (r: Option<Fs>)
    requires Sane(fs) && parent < |fs.ci|
    ensures r.Some? ==> Sane(r.value) && |fs.ci| <= |r.value.ci|
    decreases sub, 2
  {
    if Newest(fs.ci, |fs.ci|, host).Some? then None
    else
      var fs1 :- AllocInode(fs, host, TYPE_DIR);
      var fs2 :- OpenDir(fs1, |fs.ci|, parent, sub);
      AddEntry(fs2, parent, |fs.ci|, name)
  }

  function OpenDir(fs: Fs, cur: nat, parent: nat, es: Listing): (r: Option<Fs>)
    requires Sane(fs) && cur < |fs.ci| && parent < |fs.ci|
    ensures r.Some? ==> Sane(r.value) && |fs.ci| <= |r.value.ci|
    decreases es, 1
  {
    var fs1 :- AddEntry(fs, cur, cur, DOT);
    var fs2 :- AddEntry(fs1, cur, parent, DOTDOT);
    Walk(fs2, cur, es)
  }

  /** One directory entry of the source. */
  function Visit(fs: Fs, cur: nat, name: Name, node: Node): (r: Option<Fs>)
    requires Sane(fs) && cur < |fs.ci|
    ensures r.Some? ==> Sane(r.value) && |fs.ci| <= |r.value.ci|
    decreases node, 3
  {
    if Hidden(name) then Some(fs)
    else if |name| > MAX_FNAME_LEN then None
    else match node
      case File(host, chunks) => AddFile(fs, cur, name, host, chunks)
      case Link(host, target) => AddLink(fs, cur, name, host, target)
      case Dir(host, sub) => AddDir(fs, cur, name, host, sub)
      case Special => Some(fs)
  }

  /** The readdir loop. */
  function Walk(fs: Fs, cur: nat, es: Listing): (r: Option<Fs>)
    requires Sane(fs) && cur < |fs.ci|
    ensures r.Some? ==> Sane(r.value) && |fs.ci| <= |r.value.ci|
    decreases es, 0
  {
    match es
    case End => Some(fs)
    case Item(name, node, rest) =>
      var fs1 :- Visit(fs, cur, name, node);
      Walk(fs1, cur, rest)
  }

  // ----- the empty file system (lines 223-254)

  function FreemapBlocks(ninos: nat): nat {
    (ninos + BLKBITS - 1) / BLKBITS
  }

  /** No files yet: the root inode in block 1, `next` blocks handed out. */
  function EmptyFs(ninos: nat, next: nat): (r: Fs)
    ensures Sane(r) && |r.ci| == 1
  {
    Fs(ninos, next, ninos - next,
       [EmptyInode(TYPE_DIR, 0, 1)], [], Zeros(NAME_SIZE), map[], [],
       [[]], [[]], [], seq(next, b => if b == 1 then OfInode(0) else Meta), 0)
  }

  /** The block count is a uint32_t before it is compared: an image of 16 TiB has none. */
  function ImageBlocks(bytes: nat): nat {
    var n := bytes / BLKSIZE % M32;
    if n > MAX_NBLKS then MAX_NBLKS else n
  }

  /** create_sfs on an image file of `bytes` bytes; a surplus only draws a warning. */
  function Create(bytes: nat): (r: Option<Fs>)
    ensures r.Some? ==> Sane(r.value) && |r.value.ci| == 1
  {
    var ninos := ImageBlocks(bytes);
    var next := 2 + FreemapBlocks(ninos);
    if next >= ninos then None else Some(EmptyFs(ninos, next))
  }
}
