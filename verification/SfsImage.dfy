/** close_sfs: the freemap, the superblock and the flush of both caches; and how an image is read back. */
module SfsImage {
  import opened Wrappers
  import opened Basics
  import opened Bytes
  import opened SfsModel
  import opened SfsIndex
  import opened SfsRun
  import Bitmap

  // ----- what close_sfs writes, in its order

  datatype Item = Freemap(k: nat) | Super | Index(x: nat) | InodeOf(i: nat)

  /** "simple file system" and its NUL; the 13 bytes behind it are whatever malloc returned. */
  const INFO: seq<Byte> := [115, 105, 109, 112, 108, 101, 32, 102, 105, 108, 101, 32, 115, 121, 115, 116, 101, 109, 0]
  type Junk = j: seq<Byte> | |j| == 13 witness [0, 0, 0, 0, 0, 0, 0, 0, 0, 0, 0, 0, 0]

  function InodeWords(i: Inode): seq<nat> {
    [i.size, i.kind + 0x1_0000 * i.nlinks, i.blocks] + i.direct + [i.indirect, i.dbIndirect]
  }

  function ItemIno(fs: Fs, it: Item): nat {
    match it
    case Freemap(k) => 2 + k
    case Super => 0
    case Index(x) => if x < |fs.cb| then fs.cb[x].ino else 0
    case InodeOf(i) => if i < |fs.ci| then fs.ci[i].ino else 0
  }

  function ItemBytes(fs: Fs, junk: Junk, it: Item): seq<Byte> {
    match it
    case Freemap(k) => Words(Bitmap.FreeWords(k * BLKBITS, fs.nextIno, fs.ninos))
    case Super => Words([MAGIC, fs.ninos, if fs.unused >= 0 then fs.unused else 0]) + INFO + junk
    case Index(x) => if x < |fs.cb| then Words(fs.cb[x].cache) else []
    case InodeOf(i) => if i < |fs.ci| then Words(InodeWords(fs.ci[i].inode)) else []
  }

  /** Chain `h` of the inode table, newest first. */
  function Chain(ci: seq<CacheInode>, n: nat, h: nat): seq<Item>
    requires n <= |ci|
  {
    if n == 0 then []
    else if Hash32(ci[n - 1].host) == h then [InodeOf(n - 1)] + Chain(ci, n - 1, h)
    else Chain(ci, n - 1, h)
  }

  /** Chain `h` of the block table, newest first: everything was filed under hash32(0). */
  function IndexChain(n: nat, h: nat): seq<Item> {
    if n == 0 || h != Hash32(0) then [] else [Index(n - 1)] + IndexChain(n - 1, h)
  }

  function Flush(fs: Fs, h: nat): seq<Item>
    decreases HASH_SIZE - h
  {
    if h >= HASH_SIZE then []
    else IndexChain(|fs.cb|, h) + Chain(fs.ci, |fs.ci|, h) + Flush(fs, h + 1)
  }

  function FreemapItems(n: nat): seq<Item> {
    seq(n, k requires 0 <= k < n => Freemap(k))
  }

  function Items(fs: Fs): seq<Item> {
    FreemapItems(FreemapBlocks(fs.ninos)) + [Super] + Flush(fs, 0)
  }

  datatype Write = Write(ino: nat, data: seq<Byte>)

  /** A series of write_block calls. */
  function WriteAll(fs: Fs, ws: seq<Write>): Option<Fs>
    decreases |ws|
  {
    if ws == [] then Some(fs)
    else
      var fs1 :- WriteBlock(fs, ws[0].data, ws[0].ino);
      WriteAll(fs1, ws[1..])
  }

  function Writes(fs: Fs, junk: Junk, items: seq<Item>): (ws: seq<Write>)
    ensures |ws| == |items|
    ensures forall k :: 0 <= k < |ws| ==> ws[k] == Write(ItemIno(fs, items[k]), ItemBytes(fs, junk, items[k]))
  {
    seq(|items|, k requires 0 <= k < |items| => Write(ItemIno(fs, items[k]), ItemBytes(fs, junk, items[k])))
  }

  function Close(fs: Fs, junk: Junk): Option<Fs> {
    WriteAll(fs, Writes(fs, junk, Items(fs)))
  }

  // ----- each item exactly once

  lemma NoDupConcat<T>(a: seq<T>, b: seq<T>)
    requires NoDup(a) && NoDup(b) && forall x :: x in a ==> x !in b
    ensures NoDup(a + b)
  {
    var s := a + b;
    forall i, j | 0 <= i < j < |s| ensures s[i] != s[j] {
      if i < |a| <= j {
        assert s[i] in a && s[j] in b;
      }
    }
  }

  lemma {:induction false} ChainMembers(ci: seq<CacheInode>, n: nat, h: nat)
    requires n <= |ci|
    ensures NoDup(Chain(ci, n, h))
    ensures forall it :: it in Chain(ci, n, h) <==> it.InodeOf? && it.i < n && Hash32(ci[it.i].host) == h
  {
    if n > 0 {
      ChainMembers(ci, n - 1, h);
      if Hash32(ci[n - 1].host) == h {
        NoDupConcat([InodeOf(n - 1)], Chain(ci, n - 1, h));
      }
    }
  }

  lemma {:induction false} IndexChainMembers(n: nat, h: nat)
    ensures NoDup(IndexChain(n, h))
    ensures forall it :: it in IndexChain(n, h) <==> it.Index? && it.x < n && h == Hash32(0)
  {
    if n > 0 && h == Hash32(0) {
      IndexChainMembers(n - 1, h);
      NoDupConcat([Index(n - 1)], IndexChain(n - 1, h));
    }
  }

  ghost predicate FlushedFrom(fs: Fs, h: nat, it: Item) {
    || (it.Index? && it.x < |fs.cb| && h <= Hash32(0))
    || (it.InodeOf? && it.i < |fs.ci| && h <= Hash32(fs.ci[it.i].host))
  }

  lemma {:induction false} FlushMembers(fs: Fs, h: nat)
    requires h <= HASH_SIZE
    ensures NoDup(Flush(fs, h))
    ensures forall it :: it in Flush(fs, h) <==> FlushedFrom(fs, h, it)
    decreases HASH_SIZE - h
  {
    if h < HASH_SIZE {
      var a, b, c := IndexChain(|fs.cb|, h), Chain(fs.ci, |fs.ci|, h), Flush(fs, h + 1);
      IndexChainMembers(|fs.cb|, h);
      ChainMembers(fs.ci, |fs.ci|, h);
      FlushMembers(fs, h + 1);
      hide Hash32, Chain, IndexChain;
      NoDupConcat(a, b);
      NoDupConcat(a + b, c);
      assert Flush(fs, h) == a + b + c;
      forall it ensures it in Flush(fs, h) <==> FlushedFrom(fs, h, it) {
        assert it in Flush(fs, h) <==> it in a || it in b || it in c;
      }
    }
  }

  ghost predicate IsItem(fs: Fs, it: Item) {
    match it
    case Freemap(k) => k < FreemapBlocks(fs.ninos)
    case Super => true
    case Index(x) => x < |fs.cb|
    case InodeOf(i) => i < |fs.ci|
  }

  /** The freemap loop and the two hash tables enumerate everything once. */
  lemma ItemsMembers(fs: Fs)
    ensures NoDup(Items(fs)) && forall it :: it in Items(fs) <==> IsItem(fs, it)
  {
    var n := FreemapBlocks(fs.ninos);
    var a, c := FreemapItems(n), Flush(fs, 0);
    FlushMembers(fs, 0);
    NoDupConcat(a, [Super]);
    NoDupConcat(a + [Super], c);
    assert forall k :: 0 <= k < n ==> a[k] == Freemap(k);
    forall it ensures it in Items(fs) <==> IsItem(fs, it) {
      assert it in Items(fs) <==> it in a || it == Super || it in c;
      if it.Freemap? && it.k < n {
        assert a[it.k] == it;
      }
    }
  }

  // ----- the finished image

  function Inos(ws: seq<Write>): (r: seq<nat>)
    ensures |r| == |ws| && forall k :: 0 <= k < |r| ==> r[k] == ws[k].ino
  {
    seq(|ws|, k requires 0 <= k < |ws| => ws[k].ino)
  }

  ghost predicate Writable(ninos: nat, ws: seq<Write>) {
    && (forall i, j :: 0 <= i < j < |ws| ==> ws[i].ino != ws[j].ino)
    && (forall k :: 0 <= k < |ws| ==> ws[k].ino < ninos && |ws[k].data| <= BLKSIZE)
  }

  lemma {:induction false} WriteAllLog(fs: Fs, ws: seq<Write>)
    requires Writable(fs.ninos, ws)
    ensures WriteAll(fs, ws).Some? && WriteAll(fs, ws).value.log == fs.log + Inos(ws)
    ensures WriteAll(fs, ws).value == fs.(disk := WriteAll(fs, ws).value.disk, log := WriteAll(fs, ws).value.log)
    decreases |ws|
  {
    hide Pad;
    if ws != [] {
      var fs1 := WriteBlock(fs, ws[0].data, ws[0].ino).value;
      WriteAllLog(fs1, ws[1..]);
      assert fs.log + Inos(ws) == fs.log + [ws[0].ino] + Inos(ws[1..]);
    }
  }

  /** Each write of distinct blocks stays, and so does everything else. */
  lemma {:induction false} WriteAllOk(fs: Fs, ws: seq<Write>)
    requires Writable(fs.ninos, ws)
    ensures WriteAll(fs, ws).Some? && WriteAll(fs, ws).value.log == fs.log + Inos(ws)
    ensures WriteAll(fs, ws).value == fs.(disk := WriteAll(fs, ws).value.disk, log := WriteAll(fs, ws).value.log)
    ensures var disk := WriteAll(fs, ws).value.disk;
      && (forall k :: 0 <= k < |ws| ==> ws[k].ino in disk && disk[ws[k].ino] == Pad(ws[k].data))
      && (forall b :: b in fs.disk && b !in Inos(ws) ==> b in disk && disk[b] == fs.disk[b])
    decreases |ws|
  {
    hide Pad;
    WriteAllLog(fs, ws);
    if ws != [] {
      var fs1 := WriteBlock(fs, ws[0].data, ws[0].ino).value;
      assert Inos(ws) == [ws[0].ino] + Inos(ws[1..]);
      WriteAllOk(fs1, ws[1..]);
      assert ws[0].ino !in Inos(ws[1..]);
    }
  }

  lemma ItemSizes(fs: Fs, junk: Junk, it: Item)
    requires RunInv(fs) && IsItem(fs, it)
    ensures ItemIno(fs, it) < fs.nextIno <= fs.ninos && |ItemBytes(fs, junk, it)| <= BLKSIZE
    ensures match it
      case Index(x) => fs.role[ItemIno(fs, it)] == OfIndex(x)
      case InodeOf(i) => fs.role[ItemIno(fs, it)] == OfInode(i)
      case _ => fs.role[ItemIno(fs, it)] == Meta
  {
    match it
    case Freemap(k) => assert MetaAt(fs, 2 + k);
    case Super =>
    case Index(x) => assert IndexAt(fs, x);
    case InodeOf(i) => assert InoAt(fs, i) && SaneInode(fs.ci[i], |fs.cb|);
  }

  lemma ItemsApart(fs: Fs, junk: Junk, a: Item, b: Item)
    requires RunInv(fs) && IsItem(fs, a) && IsItem(fs, b) && a != b
    ensures ItemIno(fs, a) != ItemIno(fs, b)
  {
    ItemSizes(fs, junk, a);
    ItemSizes(fs, junk, b);
  }

  lemma ItemsWritable(fs: Fs, junk: Junk)
    requires RunInv(fs)
    ensures Writable(fs.ninos, Writes(fs, junk, Items(fs)))
  {
    var items := Items(fs);
    var ws := Writes(fs, junk, items);
    ItemsMembers(fs);
    forall i, j | 0 <= i < j < |ws| ensures ws[i].ino != ws[j].ino {
      assert items[i] in items && items[j] in items;
      ItemsApart(fs, junk, items[i], items[j]);
    }
    forall k | 0 <= k < |ws| ensures ws[k].ino < fs.ninos && |ws[k].data| <= BLKSIZE {
      assert items[k] in items;
      ItemSizes(fs, junk, items[k]);
    }
  }

  /** Blocks that close_sfs writes were handed out, and not for data. */
  lemma ItemBlocks(fs: Fs, junk: Junk, b: nat)
    requires RunInv(fs) && b in Inos(Writes(fs, junk, Items(fs)))
    ensures b < fs.nextIno && !fs.role[b].Data?
  {
    var items := Items(fs);
    var inos := Inos(Writes(fs, junk, items));
    var k :| 0 <= k < |inos| && inos[k] == b;
    ItemsMembers(fs);
    assert items[k] in items;
    ItemSizes(fs, junk, items[k]);
  }

  lemma ItemWritten(fs: Fs, junk: Junk, it: Item)
    requires IsItem(fs, it)
    ensures ItemIno(fs, it) in Inos(Writes(fs, junk, Items(fs)))
  {
    var items := Items(fs);
    ItemsMembers(fs);
    assert it in items;
    var k :| 0 <= k < |items| && items[k] == it;
    assert Inos(Writes(fs, junk, items))[k] == ItemIno(fs, it);
  }

  lemma RoleWritten(fs: Fs, junk: Junk, b: nat)
    requires UsedAt(fs, b) && !fs.role[b].Data?
    ensures b in Inos(Writes(fs, junk, Items(fs)))
  {
    match fs.role[b]
    case OfInode(i) => ItemWritten(fs, junk, InodeOf(i));
    case OfIndex(x) => ItemWritten(fs, junk, Index(x));
    case Meta =>
      if b == 0 {
        ItemWritten(fs, junk, Super);
      } else {
        ItemWritten(fs, junk, Freemap(b - 2));
      }
  }

  /**
   * Write-once: close_sfs never fails, and afterwards every block number below next_ino has been
   * written exactly once over the whole run, and none above.
   */
  lemma CloseWritesOnce(fs: Fs, junk: Junk)
    requires RunInv(fs)
    ensures Close(fs, junk).Some? && Close(fs, junk).value.nextIno == fs.nextIno
    ensures NoDup(Close(fs, junk).value.log)
    ensures forall b: nat :: b in Close(fs, junk).value.log <==> b < fs.nextIno
  {
    var ws := Writes(fs, junk, Items(fs));
    ItemsWritable(fs, junk);
    WriteAllOk(fs, ws);
    forall b | b in Inos(ws) ensures b < fs.nextIno && !fs.role[b].Data? {
      ItemBlocks(fs, junk, b);
    }
    forall b | b in fs.log ensures b < fs.nextIno && fs.role[b].Data? {
      var t :| 0 <= t < |fs.log| && fs.log[t] == b;
      assert LogAt(fs, t);
    }
    forall i, j | 0 <= i < j < |fs.log| ensures fs.log[i] != fs.log[j] {
      assert LogAt(fs, i) && LogAt(fs, j);
    }
    NoDupConcat(fs.log, Inos(ws));
    forall b: nat | b < fs.nextIno ensures b in fs.log + Inos(ws) {
      assert UsedAt(fs, b);
      if !fs.role[b].Data? {
        RoleWritten(fs, junk, b);
      }
    }
  }

  /** The image holds every block stored during the walk and every item of close_sfs. */
  ghost predicate ImageOf(disk: map<nat, Block>, fs: Fs, junk: Junk) {
    && (forall b :: b in fs.disk ==> b in disk && disk[b] == fs.disk[b])
    && (forall it :: IsItem(fs, it) ==> ItemOn(disk, fs, junk, it))
  }

  ghost predicate ItemOn(disk: map<nat, Block>, fs: Fs, junk: Junk, it: Item) {
    && |ItemBytes(fs, junk, it)| <= BLKSIZE && ItemIno(fs, it) in disk
    && disk[ItemIno(fs, it)] == Pad(ItemBytes(fs, junk, it))
  }

  lemma CloseHolds(fs: Fs, junk: Junk)
    requires RunInv(fs)
    ensures Close(fs, junk).Some? && ImageOf(Close(fs, junk).value.disk, fs, junk)
    ensures Close(fs, junk).value.ninos == fs.ninos && Close(fs, junk).value.nextIno == fs.nextIno
  {
    var items := Items(fs);
    var ws := Writes(fs, junk, items);
    ItemsWritable(fs, junk);
    WriteAllOk(fs, ws);
    ItemsMembers(fs);
    var disk := Close(fs, junk).value.disk;
    forall it | IsItem(fs, it) ensures ItemOn(disk, fs, junk, it) {
      assert it in items;
      var k :| 0 <= k < |items| && items[k] == it;
      assert ws[k] == Write(ItemIno(fs, it), ItemBytes(fs, junk, it));
    }
    forall b | b in fs.disk ensures b in disk && disk[b] == fs.disk[b] {
      assert OnDisk(fs, b);
      if b in Inos(ws) {
        ItemBlocks(fs, junk, b);
      }
    }
  }

  // ----- the order of the writes

  /** The numbers of the index blocks, the newest first. */
  function NewestFirst(cb: seq<CacheBlock>): seq<nat> {
    if cb == [] then [] else [cb[|cb| - 1].ino] + NewestFirst(cb[..|cb| - 1])
  }

  function WrittenTo(fs: Fs, junk: Junk, items: seq<Item>): seq<nat> {
    Inos(Writes(fs, junk, items))
  }

  lemma WrittenJoin(fs: Fs, junk: Junk, a: seq<Item>, b: seq<Item>)
    ensures WrittenTo(fs, junk, a + b) == WrittenTo(fs, junk, a) + WrittenTo(fs, junk, b)
  {
    hide ItemIno, ItemBytes;
  }

  lemma {:induction false} ChainWritten(fs: Fs, junk: Junk, n: nat)
    requires n <= |fs.cb|
    ensures WrittenTo(fs, junk, IndexChain(n, 0)) == NewestFirst(fs.cb[..n])
  {
    assert Hash32(0) == 0;
    hide Hash32, WrittenTo;
    if n > 0 {
      ChainWritten(fs, junk, n - 1);
      WrittenJoin(fs, junk, [Index(n - 1)], IndexChain(n - 1, 0));
      assert WrittenTo(fs, junk, [Index(n - 1)]) == [fs.cb[n - 1].ino] by {
        OneWritten(fs, junk, Index(n - 1));
      }
      assert fs.cb[..n][..n - 1] == fs.cb[..n - 1];
    } else {
      NoneWritten(fs, junk);
    }
  }

  lemma OneWritten(fs: Fs, junk: Junk, it: Item)
    ensures WrittenTo(fs, junk, [it]) == [ItemIno(fs, it)]
  {
    hide ItemIno, ItemBytes;
  }

  lemma NoneWritten(fs: Fs, junk: Junk)
    ensures WrittenTo(fs, junk, []) == []
  {
  }

  lemma FreemapWritten(fs: Fs, junk: Junk, n: nat)
    ensures WrittenTo(fs, junk, FreemapItems(n)) == seq(n, k => 2 + k)
  {
    hide ItemBytes;
  }

  lemma SuperFirst(fs: Fs)
    ensures ItemIno(fs, Super) == 0
  {
  }

  lemma FlushBegins(fs: Fs)
    ensures Flush(fs, 0) == IndexChain(|fs.cb|, 0) + (Chain(fs.ci, |fs.ci|, 0) + Flush(fs, 1))
  {
    hide IndexChain, Chain;
  }

  lemma LogBegins(fs: Fs, junk: Junk)
    requires Writable(fs.ninos, Writes(fs, junk, Items(fs)))
    ensures Close(fs, junk).Some? && Close(fs, junk).value.log == fs.log + WrittenTo(fs, junk, Items(fs))
  {
    hide Writes, Items, WriteAll;
    WriteAllLog(fs, Writes(fs, junk, Items(fs)));
  }

  lemma ItemsWritten(fs: Fs, junk: Junk)
    ensures seq(FreemapBlocks(fs.ninos), k => 2 + k) + [0] + NewestFirst(fs.cb) <= WrittenTo(fs, junk, Items(fs))
  {
    hide Flush, WrittenTo, IndexChain, Chain, FreemapItems, ItemIno, NewestFirst, FreemapBlocks;
    var f := FreemapBlocks(fs.ninos);
    FlushBegins(fs);
    var a, c := IndexChain(|fs.cb|, 0), Chain(fs.ci, |fs.ci|, 0) + Flush(fs, 1);
    assert Items(fs) == FreemapItems(f) + [Super] + (a + c) == FreemapItems(f) + [Super] + a + c;
    WrittenJoin(fs, junk, FreemapItems(f) + [Super] + a, c);
    WrittenJoin(fs, junk, FreemapItems(f) + [Super], a);
    WrittenJoin(fs, junk, FreemapItems(f), [Super]);
    FreemapWritten(fs, junk, f);
    OneWritten(fs, junk, Super);
    SuperFirst(fs);
    ChainWritten(fs, junk, |fs.cb|);
    assert fs.cb[..|fs.cb|] == fs.cb;
  }

  /** close_sfs writes the freemap from block 2 on, the superblock, and then the index blocks, the newest first. */
  lemma CloseOrder(fs: Fs, junk: Junk)
    requires RunInv(fs)
    ensures Close(fs, junk).Some?
    ensures var first := seq((fs.ninos + 32767) / 32768, k => 2 + k) + [0] + NewestFirst(fs.cb);
      fs.log + first <= Close(fs, junk).value.log
  {
    hide Close, WrittenTo, Items, RunInv, NewestFirst, Writable;
    ItemsWritable(fs, junk);
    ItemsWritten(fs, junk);
    LogBegins(fs, junk);
    assert FreemapBlocks(fs.ninos) == (fs.ninos + 32767) / 32768;
  }

  // ----- reading the image back

  function Get(disk: map<nat, Block>, b: nat): Block {
    if b in disk then disk[b] else Zeros(BLKSIZE)
  }

  function DecodeInode(b: Block): Inode {
    Inode(U32(b, 0), U16(b, 4), U16(b, 6), U32(b, 8), DecodeDirect(b), U32(b, 60), U32(b, 64))
  }

  function DecodeDirect(b: Block): (d: seq<nat>)
    ensures |d| == NDIRECT && forall k :: 0 <= k < NDIRECT ==> d[k] == U32(b, 12 + 4 * k)
  {
    seq(NDIRECT, k requires 0 <= k < NDIRECT => U32(b, 12 + 4 * k))
  }

  function ReadInode(disk: map<nat, Block>, ino: nat): Inode {
    DecodeInode(Get(disk, ino))
  }

  /** Block `k` of a file, through the direct, indirect and double-indirect index. */
  function Lookup(disk: map<nat, Block>, inode: Inode, k: nat): nat
    requires |inode.direct| == NDIRECT && k < LN_NBLKS
  {
    if k < 12 then inode.direct[k]
    else if k < 1036 then U32(Get(disk, inode.indirect), 4 * (k - 12))
    else
      var m := k - 1036;
      U32(Get(disk, U32(Get(disk, inode.dbIndirect), 4 * (m / 1024))), 4 * (m % 1024))
  }

  lemma BlockWord(ws: seq<nat>, k: nat)
    requires |ws| <= NENTRY && k < |ws| && ws[k] < M32
    ensures U32(Pad(Words(ws)), 4 * k) == ws[k]
  {
    WordsRead(ws, Zeros(BLKSIZE - |Words(ws)|), k);
  }

  ghost predicate Encodable(i: Inode) {
    && |i.direct| == NDIRECT && (forall k :: 0 <= k < NDIRECT ==> i.direct[k] < M32)
    && i.size < M32 && i.kind < 0x1_0000 && i.nlinks < 0x1_0000 && i.blocks < M32
    && i.indirect < M32 && i.dbIndirect < M32
  }

  lemma InodeWord(i: Inode, k: nat)
    requires Encodable(i) && k < |InodeWords(i)|
    ensures U32(Pad(Words(InodeWords(i))), 4 * k) == InodeWords(i)[k]
  {
    if 3 <= k < 15 {
      assert InodeWords(i)[k] == i.direct[k - 3];
    }
    BlockWord(InodeWords(i), k);
  }

  lemma DirectDecodes(i: Inode)
    requires Encodable(i)
    ensures DecodeDirect(Pad(Words(InodeWords(i)))) == i.direct
  {
    var d := DecodeDirect(Pad(Words(InodeWords(i))));
    forall k | 0 <= k < NDIRECT ensures d[k] == i.direct[k] {
      InodeWord(i, 3 + k);
    }
  }

  /** The on-disk inode record: decoding inverts encoding. */
  lemma DecodeEncode(i: Inode)
    requires Encodable(i)
    ensures DecodeInode(Pad(Words(InodeWords(i)))) == i
  {
    var ws := InodeWords(i);
    DirectDecodes(i);
    InodeWord(i, 0);
    InodeWord(i, 2);
    InodeWord(i, 15);
    InodeWord(i, 16);
    HalfWords(ws, Zeros(BLKSIZE - |Words(ws)|), 1, i.kind, i.nlinks);
  }

  lemma FileBlocksSmall(fs: Fs, f: nat, k: nat)
    requires RunInv(fs) && f < |fs.ci|
    ensures At(fs.files[f], k) < fs.nextIno
  {
    if k < |fs.files[f]| {
      assert StoredAt(fs, f, k) && OnDisk(fs, fs.files[f][k]);
    }
  }

  /** The inode of every file is read back exactly as it was cached. */
  lemma InodeOnDisk(disk: map<nat, Block>, fs: Fs, junk: Junk, f: nat)
    requires RunInv(fs) && ImageOf(disk, fs, junk) && f < |fs.ci|
    ensures ReadInode(disk, fs.ci[f].ino) == fs.ci[f].inode
  {
    assert IsItem(fs, InodeOf(f)) && ItemOn(disk, fs, junk, InodeOf(f));
    assert FileAt(fs, f) && FieldsAt(fs, f) && SaneInode(fs.ci[f], |fs.cb|);
    var own := fs.own[f];
    if |own| >= 1 {
      assert IndexAt(fs, own[0]);
    }
    if |own| >= 2 {
      assert IndexAt(fs, own[1]);
    }
    forall k | 0 <= k < NDIRECT ensures fs.ci[f].inode.direct[k] < M32 {
      FileBlocksSmall(fs, f, k);
    }
    DecodeEncode(fs.ci[f].inode);
  }

  lemma IndexOnDisk(disk: map<nat, Block>, fs: Fs, junk: Junk, x: nat, k: nat)
    requires RunInv(fs) && ImageOf(disk, fs, junk) && x < |fs.cb| && k < NENTRY && fs.cb[x].cache[k] < M32
    ensures U32(Get(disk, fs.cb[x].ino), 4 * k) == fs.cb[x].cache[k]
  {
    assert IsItem(fs, Index(x)) && ItemOn(disk, fs, junk, Index(x));
    BlockWord(fs.cb[x].cache, k);
  }

  /**
   * Index refinement on the image: following the index of any inode gives back the sequence of blocks
   * appended to it.
   */
  lemma LookupOnDisk(disk: map<nat, Block>, fs: Fs, junk: Junk, f: nat, k: nat)
    requires RunInv(fs) && ImageOf(disk, fs, junk) && f < |fs.ci| && k < |fs.files[f]|
    ensures |fs.files[f]| <= LN_NBLKS && |fs.ci[f].inode.direct| == NDIRECT
    ensures Lookup(disk, fs.ci[f].inode, k) == fs.files[f][k]
  {
    var s, own := fs.files[f], fs.own[f];
    assert FileAt(fs, f) && SaneInode(fs.ci[f], |fs.cb|);
    FileBlocksSmall(fs, f, k);
    if NDIRECT <= k < L1_NBLKS {
      IndexOnDisk(disk, fs, junk, own[0], k - NDIRECT);
    } else if L1_NBLKS <= k {
      var j := (k - L1_NBLKS) / NENTRY;
      assert own[2..][j] == own[2 + j];
      assert IndexAt(fs, own[2 + j]);
      IndexOnDisk(disk, fs, junk, own[1], j);
      IndexOnDisk(disk, fs, junk, own[2 + j], (k - L1_NBLKS) % NENTRY);
    }
  }

  // ----- the free bitmap

  /** The freemap bit of block `b`. */
  ghost predicate FreeBit(disk: map<nat, Block>, b: nat) {
    Bitmap.Bit(U32(Get(disk, 2 + b / 32768), 4 * (b % 32768 / 32)), b % 32768 % 32)
  }

  ghost function FreeCount(disk: map<nat, Block>, n: nat): nat {
    if n == 0 then 0 else FreeCount(disk, n - 1) + if FreeBit(disk, n - 1) then 1 else 0
  }

  lemma FreeWordOnDisk(disk: map<nat, Block>, fs: Fs, junk: Junk, k: nat, j: nat)
    requires ImageOf(disk, fs, junk) && k < FreemapBlocks(fs.ninos) && j < BLKBITS
    ensures Bitmap.Bit(U32(Get(disk, 2 + k), 4 * (j / 32)), j % 32) <==> fs.nextIno <= k * BLKBITS + j < fs.ninos
  {
    hide U32, Words, Pad, Bitmap.Bit, Bitmap.FreeWords;
    assert IsItem(fs, Freemap(k)) && ItemOn(disk, fs, junk, Freemap(k));
    Bitmap.FreeWordsOk(k * BLKBITS, fs.nextIno, fs.ninos, j);
    BlockWord(Bitmap.FreeWords(k * BLKBITS, fs.nextIno, fs.ninos), j / 32);
  }

  /** The reserved blocks hold a bit for every block number, and it is set exactly for the unused ones. */
  lemma FreeBitOnDisk(disk: map<nat, Block>, fs: Fs, junk: Junk, b: nat)
    requires ImageOf(disk, fs, junk) && b < BLKBITS * FreemapBlocks(fs.ninos)
    ensures FreeBit(disk, b) <==> fs.nextIno <= b < fs.ninos
  {
    hide U32, Bitmap.Bit;
    FreeWordOnDisk(disk, fs, junk, b / BLKBITS, b % BLKBITS);
  }

  lemma {:induction false} FreeCountOnDisk(disk: map<nat, Block>, fs: Fs, junk: Junk, n: nat)
    requires RunInv(fs) && ImageOf(disk, fs, junk) && n <= BLKBITS * FreemapBlocks(fs.ninos)
    ensures FreeCount(disk, n) == if n <= fs.nextIno then 0 else if n <= fs.ninos then n - fs.nextIno else fs.unused
  {
    hide FreeBit;
    if n > 0 {
      FreeCountOnDisk(disk, fs, junk, n - 1);
      FreeBitOnDisk(disk, fs, junk, n - 1);
    }
  }

  lemma SuperReads(ninos: nat, unused: nat, junk: Junk)
    requires ninos < M32 && unused < M32
    ensures var ws := [MAGIC, ninos, unused];
      |Words(ws) + INFO + junk| <= BLKSIZE
      && var b := Pad(Words(ws) + INFO + junk); U32(b, 0) == MAGIC && U32(b, 4) == ninos && U32(b, 8) == unused
  {
    var ws := [MAGIC, ninos, unused];
    var tail := INFO + junk + Zeros(BLKSIZE - |Words(ws) + INFO + junk|);
    assert Pad(Words(ws) + INFO + junk) == Words(ws) + tail;
    WordsRead(ws, tail, 0);
    WordsRead(ws, tail, 1);
    WordsRead(ws, tail, 2);
  }

  lemma InfoText(k: nat)
    requires k < 18
    ensures INFO[k] == "simple file system"[k] as int && INFO[18] == 0
  {
  }

  lemma SuperInfo(ninos: nat, unused: nat, junk: Junk, k: nat)
    requires k < 18
    ensures var data := Words([MAGIC, ninos, unused]) + INFO + junk;
      |data| <= BLKSIZE && Pad(data)[12 + k] == "simple file system"[k] as int && Pad(data)[30] == 0
  {
    InfoText(k);
    hide INFO;
    var data := Words([MAGIC, ninos, unused]) + INFO + junk;
    assert data[12 + k] == INFO[k] && data[30] == INFO[18];
  }

  /** The name of the file system in the superblock. */
  lemma InfoOnDisk(disk: map<nat, Block>, fs: Fs, junk: Junk, k: nat)
    requires RunInv(fs) && ImageOf(disk, fs, junk) && k < 18
    ensures Get(disk, 0)[12 + k] == "simple file system"[k] as int && Get(disk, 0)[30] == 0
  {
    hide Words, Pad, INFO;
    assert IsItem(fs, Super) && ItemOn(disk, fs, junk, Super);
    SuperInfo(fs.ninos, fs.unused, junk, k);
  }

  /** The superblock names the image size and the number of set bits in the freemap. */
  lemma SuperOnDisk(disk: map<nat, Block>, fs: Fs, junk: Junk)
    requires RunInv(fs) && ImageOf(disk, fs, junk)
    ensures U32(Get(disk, 0), 0) == MAGIC && U32(Get(disk, 0), 4) == fs.ninos
    ensures U32(Get(disk, 0), 8) == FreeCount(disk, BLKBITS * FreemapBlocks(fs.ninos)) == fs.ninos - fs.nextIno
  {
    assert IsItem(fs, Super) && ItemOn(disk, fs, junk, Super);
    SuperReads(fs.ninos, fs.unused, junk);
    FreeCountOnDisk(disk, fs, junk, BLKBITS * FreemapBlocks(fs.ninos));
  }
}
