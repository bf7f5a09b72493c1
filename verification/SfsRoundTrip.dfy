/** The image, read back from block 1, is the source directory. */
module SfsRoundTrip {
  import opened Basics
  import opened Wrappers
  import opened Bytes
  import opened SfsModel
  import opened SfsRun

  // ----- directory entries on disk

  /** The bytes before the first NUL. */
  function UpToNul(s: seq<Byte>): (r: seq<Byte>)
    ensures |r| <= |s|
  {
    if s == [] || s[0] == 0 then [] else [s[0]] + UpToNul(s[1..])
  }

  function EntryIno(b: Block): nat {
    U32(b, 0)
  }

  function EntryName(b: Block): seq<Byte> {
    UpToNul(b[4..260])
  }

  /** What is left of a name on disk. */
  function Clip(name: Name): seq<Byte> {
    if |name| <= 252 then name else name[..252]
  }

  lemma {:induction false} UpToNulStops(a: seq<Byte>, rest: seq<Byte>)
    requires 0 !in a && |rest| > 0 && rest[0] == 0
    ensures UpToNul(a + rest) == a
  {
    if a != [] {
      assert (a + rest)[0] == a[0] && a[0] in a;
      assert (a + rest)[1..] == a[1..] + rest;
      UpToNulStops(a[1..], rest);
    }
  }

  /** The entry block names the inode and the first 252 bytes of the name, whatever the buffer held before. */
  lemma EntryReads(ino: nat, entry: seq<Byte>, name: Name)
    requires |entry| == NAME_SIZE && |name| <= MAX_FNAME_LEN && ino < M32
    ensures var b := Pad(EntryBytes(ino, Strcpy(entry, name))); EntryIno(b) == ino && EntryName(b) == Clip(name)
  {
    var e := Strcpy(entry, name);
    var b := Pad(EntryBytes(ino, e));
    var zeros := Zeros(BLKSIZE - NAME_SIZE);
    assert b == Words([ino]) + (e[..NAME_ON_DISK] + zeros);
    WordsRead([ino], e[..NAME_ON_DISK] + zeros, 0);
    var tail := b[4..4 + NAME_SIZE];
    assert tail == e[..NAME_ON_DISK] + Zeros(4);
    if |name| < NAME_ON_DISK {
      assert tail == name + ([0] + tail[|name| + 1..]);
      UpToNulStops(name, [0] + tail[|name| + 1..]);
    } else {
      assert e[..NAME_ON_DISK] == name[..NAME_ON_DISK] == Clip(name);
      UpToNulStops(Clip(name), Zeros(4));
    }
  }

  /** Entries that leave no trace in the image: names that begin with a dot, and special files. */
  predicate Skipped(name: Name, node: Node) {
    (|name| > 0 && name[0] == 46) || node.Special?
  }

  /** Behind the NUL an entry holds what the buffer held before, up to byte 256; nothing follows. */
  lemma StaleBytes(ino: nat, entry: seq<Byte>, name: Name, k: nat)
    requires |entry| == NAME_SIZE && |name| <= MAX_FNAME_LEN && 4 + |name| < k < 4096
    ensures var b := Pad(EntryBytes(ino, Strcpy(entry, name)));
      b[k] == if k == 4 + |name| then 0 else if k < 256 then entry[k - 4] else 0
  {
  }

  /** The directories among the visible entries. */
  function Subdirs(es: Listing): nat {
    match es
    case End => 0
    case Item(name, node, rest) => (if !Skipped(name, node) && node.Dir? then 1 else 0) + Subdirs(rest)
  }

  // ----- which object a host number stands for

  /** What the newest inode filed under a host number is. */
  datatype Object = Regular(data: seq<Byte>) | Symlink | Directory

  type Seen = map<nat, Object>

  /** Before the walk only the root is filed, under number 0. */
  const ROOT_SEEN: Seen := map[0 := Directory]

  function Flat(data: seq<seq<Byte>>): seq<Byte> {
    if data == [] then [] else Flat(data[..|data| - 1]) + data[|data| - 1]
  }

  /** What a regular file of the source is taken for: a number that is known already is not read again. */
  function Taken(m: Seen, h: nat, chunks: seq<Chunk>): Object {
    if h in m then m[h] else Regular(Flat(chunks))
  }

  /** The numbers known after a visit. */
  function TrackNode(node: Node, m: Seen): Seen
    decreases node, 1
  {
    match node
    case File(h, chunks) => m[h := Taken(m, h, chunks)]
    case Link(h, target) => m[h := Symlink]
    case Dir(h, sub) => TrackList(sub, m[h := Directory])
    case Special => m
  }

  function TrackList(es: Listing, m: Seen): Seen
    decreases es, 0
  {
    match es
    case End => m
    case Item(name, node, rest) => TrackList(rest, if Skipped(name, node) then m else TrackNode(node, m))
  }

  /** Every regular file met is taken for what it is. */
  predicate NodeToldApart(node: Node, m: Seen)
    decreases node, 1
  {
    match node
    case File(h, chunks) => Taken(m, h, chunks) == Regular(Flat(chunks))
    case Dir(h, sub) => ToldApart(sub, m[h := Directory])
    case _ => true
  }

  predicate ToldApart(es: Listing, m: Seen)
    decreases es, 0
  {
    match es
    case End => true
    case Item(name, node, rest) =>
      if Skipped(name, node) then ToldApart(rest, m)
      else NodeToldApart(node, m) && ToldApart(rest, TrackNode(node, m))
  }

  // ----- a part of the source is in the image

  ghost predicate ContentAt(fs: Fs, i: nat, data: seq<seq<Byte>>) {
    && i < |fs.ci| == |fs.files| && |fs.files[i]| == |data| && fs.ci[i].inode.size == Total(data)
    && Full(data)
    && (forall k :: 0 <= k < |data| ==> BlockHas(fs.disk, fs.files[i][k], data[k]))
  }

  ghost predicate BlockHas(disk: map<nat, Block>, b: nat, data: seq<Byte>) {
    b in disk && |data| <= BLKSIZE && disk[b] == Pad(data)
  }

  function Total(data: seq<seq<Byte>>): nat {
    if data == [] then 0 else Total(data[..|data| - 1]) + |data[|data| - 1]|
  }

  /** Only the last read may be short. */
  ghost predicate Full(data: seq<seq<Byte>>) {
    && (forall k :: 0 <= k < |data| ==> |data[k]| <= BLKSIZE)
    && (forall k :: 0 <= k < |data| - 1 ==> |data[k]| == BLKSIZE)
  }

  ghost predicate EntryAt(fs: Fs, c: nat, k: nat, ino: nat, name: Name) {
    && c < |fs.files| && k < |fs.files[c]| && fs.files[c][k] in fs.disk
    && EntryIno(fs.disk[fs.files[c][k]]) == ino && EntryName(fs.disk[fs.files[c][k]]) == Clip(name)
  }

  /** The inode holds these bytes. */
  ghost predicate HoldsAt(fs: Fs, i: nat, d: seq<Byte>) {
    exists data: seq<seq<Byte>> :: ContentAt(fs, i, data) && Flat(data) == d
  }

  ghost predicate FoundAs(fs: Fs, i: nat, h: nat, v: Object) {
    i < |fs.ci| && fs.ci[i].host == h && match v
      case Regular(d) => fs.ci[i].inode.kind == TYPE_FILE && HoldsAt(fs, i, d)
      case Symlink => fs.ci[i].inode.kind == TYPE_LINK
      case Directory => fs.ci[i].inode.kind == TYPE_DIR
  }

  /** Inode `c`, a child of the directory numbered `up`, is what the walk makes of the node. */
  ghost predicate NodeAt(fs: Fs, c: nat, up: nat, node: Node, m: Seen)
    decreases node, 1
  {
    c < |fs.ci| == |fs.files| && match node
      case File(h, chunks) => FoundAs(fs, c, h, Taken(m, h, chunks))
      case Link(h, target) => fs.ci[c].inode.kind == TYPE_LINK && ContentAt(fs, c, [target])
      case Dir(h, sub) => fs.ci[c].host == h && DirAt(fs, c, up, sub, m[h := Directory])
      case Special => true
  }

  ghost predicate DirAt(fs: Fs, c: nat, up: nat, es: Listing, m: Seen)
    decreases es, 1
  {
    && c < |fs.ci| == |fs.files| && fs.ci[c].inode.kind == TYPE_DIR
    && EntryAt(fs, c, 0, fs.ci[c].ino, DOT) && EntryAt(fs, c, 1, up, DOTDOT)
    && ListAt(fs, c, 2, es, m)
  }

  /** Entries k, k + 1, ... of directory `c` are the entries `es` of the source. */
  ghost predicate ListAt(fs: Fs, c: nat, k: nat, es: Listing, m: Seen)
    decreases es, 0
  {
    c < |fs.ci| == |fs.files| && match es
      case End => k == |fs.files[c]|
      case Item(name, node, rest) =>
        if Skipped(name, node) then ListAt(fs, c, k, rest, m)
        else ItemAt(fs, c, k, name, node, m) && ListAt(fs, c, k + 1, rest, TrackNode(node, m))
  }

  ghost predicate ItemAt(fs: Fs, c: nat, k: nat, name: Name, node: Node, m: Seen)
    decreases node, 2
  {
    c < |fs.ci| && exists f: nat :: ChildAt(fs, c, k, name, node, f) && NodeAt(fs, f, fs.ci[c].ino, node, m)
  }

  ghost predicate ChildAt(fs: Fs, c: nat, k: nat, name: Name, node: Node, f: nat) {
    f < |fs.ci| && EntryAt(fs, c, k, fs.ci[f].ino, name) && (node.Dir? ==> f > c)
  }

  // ----- frames

  lemma ContentFrame(fs: Fs, fs': Fs, cur: nat, i: nat, data: seq<seq<Byte>>)
    requires RunInv(fs) && Ext(fs, fs', cur) && i != cur && ContentAt(fs, i, data)
    ensures ContentAt(fs', i, data)
  {
    assert SameInode(fs, fs', i, cur);
    forall k | 0 <= k < |data| ensures BlockHas(fs'.disk, fs'.files[i][k], data[k]) {
      assert BlockHas(fs.disk, fs.files[i][k], data[k]);
      assert OnDisk(fs, fs.files[i][k]) && SameBlock(fs, fs', fs.files[i][k]);
    }
  }

  lemma EntryFrame(fs: Fs, fs': Fs, cur: nat, c: nat, k: nat, ino: nat, name: Name)
    requires RunInv(fs) && Ext(fs, fs', cur) && EntryAt(fs, c, k, ino, name)
    ensures EntryAt(fs', c, k, ino, name)
  {
    assert SameInode(fs, fs', c, cur);
    assert OnDisk(fs, fs.files[c][k]) && SameBlock(fs, fs', fs.files[c][k]);
  }

  lemma FoundFrame(fs: Fs, fs': Fs, cur: nat, i: nat, h: nat, v: Object)
    requires RunInv(fs) && Ext(fs, fs', cur) && FoundAs(fs, i, h, v) && (v.Regular? ==> i != cur)
    ensures FoundAs(fs', i, h, v)
  {
    assert SameInode(fs, fs', i, cur);
    if v.Regular? {
      var data: seq<seq<Byte>> :| ContentAt(fs, i, data) && Flat(data) == v.data;
      ContentFrame(fs, fs', cur, i, data);
    }
  }

  /** Directory `cur` grows. */
  ghost predicate Framed(fs: Fs, fs': Fs, cur: nat) {
    RunInv(fs) && Ext(fs, fs', cur) && cur < |fs.ci| && fs.ci[cur].inode.kind == TYPE_DIR
  }

  /** What is in the image stays there. */
  lemma {:induction false} NodeFrame(fs: Fs, fs': Fs, cur: nat, c: nat, up: nat, node: Node, m: Seen)
    requires Framed(fs, fs', cur)
    requires NodeAt(fs, c, up, node, m) && (node.Dir? ==> c > cur)
    ensures NodeAt(fs', c, up, node, m)
    decreases node, 1
  {
    assert SameInode(fs, fs', c, cur);
    match node
    case File(h, chunks) => FoundFrame(fs, fs', cur, c, h, Taken(m, h, chunks));
    case Link(h, target) => ContentFrame(fs, fs', cur, c, [target]);
    case Dir(h, sub) =>
      DirFrame(fs, fs', cur, c, up, sub, m[h := Directory]);
    case Special =>
  }

  lemma {:induction false} DirFrame(fs: Fs, fs': Fs, cur: nat, c: nat, up: nat, es: Listing, m: Seen)
    requires Framed(fs, fs', cur) && DirAt(fs, c, up, es, m) && c > cur
    ensures DirAt(fs', c, up, es, m)
    decreases es, 1
  {
    assert SameInode(fs, fs', c, cur);
    EntryFrame(fs, fs', cur, c, 0, fs.ci[c].ino, DOT);
    EntryFrame(fs, fs', cur, c, 1, up, DOTDOT);
    ListFrame(fs, fs', cur, c, 2, es, m);
  }

  lemma {:induction false} ListFrame(fs: Fs, fs': Fs, cur: nat, c: nat, k: nat, es: Listing, m: Seen)
    requires Framed(fs, fs', cur) && ListAt(fs, c, k, es, m) && c > cur
    ensures ListAt(fs', c, k, es, m)
    decreases es, 0
  {
    assert SameInode(fs, fs', c, cur);
    match es
    case End =>
    case Item(name, node, rest) =>
      if Skipped(name, node) {
        ListFrame(fs, fs', cur, c, k, rest, m);
      } else {
        ItemFrame(fs, fs', cur, c, k, name, node, m);
        ListFrame(fs, fs', cur, c, k + 1, rest, TrackNode(node, m));
      }
  }

  lemma {:induction false} ItemFrame(fs: Fs, fs': Fs, cur: nat, c: nat, k: nat, name: Name, node: Node,
                                     m: Seen)
    requires Framed(fs, fs', cur) && ItemAt(fs, c, k, name, node, m) && c >= cur
    ensures ItemAt(fs', c, k, name, node, m)
    decreases node, 2
  {
    var f: nat :| ChildAt(fs, c, k, name, node, f) && NodeAt(fs, f, fs.ci[c].ino, node, m);
    assert SameInode(fs, fs', c, cur) && SameInode(fs, fs', f, cur);
    EntryFrame(fs, fs', cur, c, k, fs.ci[f].ino, name);
    NodeFrame(fs, fs', cur, f, fs.ci[c].ino, node, m);
    assert ChildAt(fs', c, k, name, node, f);
  }

  // ----- what the builder knows about its cached inodes

  /** The newest inode of every number holds what `m` says, and no number is shared but with symbolic links. */
  ghost predicate Known(fs: Fs, m: Seen) {
    && |fs.ci| > 0
    && (forall i :: 0 <= i < |fs.ci| ==> FiledAt(fs, m, i))
    && (forall h :: h in m ==> KnownAt(fs, m, h))
    && (forall i, j :: 0 <= i < j < |fs.ci| ==> OneObject(fs, i, j))
  }

  ghost predicate FiledAt(fs: Fs, m: Seen, i: nat) {
    i < |fs.ci| && fs.ci[i].host in m
  }

  ghost predicate KnownAt(fs: Fs, m: Seen, h: nat) {
    h in m && Newest(fs.ci, |fs.ci|, h).Some? && FoundAs(fs, Newest(fs.ci, |fs.ci|, h).value, h, m[h])
  }

  ghost predicate OneObject(fs: Fs, i: nat, j: nat) {
    && i < |fs.ci| && j < |fs.ci|
    && (fs.ci[i].inode.kind != TYPE_LINK && fs.ci[j].inode.kind != TYPE_LINK ==> fs.ci[i].host != fs.ci[j].host)
  }

  lemma {:induction false} NewestSame(ci: seq<CacheInode>, ci': seq<CacheInode>, n: nat, h: nat)
    requires n <= |ci| && n <= |ci'| && forall i :: 0 <= i < n ==> ci'[i].host == ci[i].host
    ensures Newest(ci', n, h) == Newest(ci, n, h)
  {
    if n > 0 {
      NewestSame(ci, ci', n - 1, h);
    }
  }

  lemma HostsKept(fs: Fs, fs': Fs, cur: nat, h: nat)
    requires Ext(fs, fs', cur) && |fs'.ci| == |fs.ci|
    ensures Newest(fs'.ci, |fs'.ci|, h) == Newest(fs.ci, |fs.ci|, h)
  {
    forall i | 0 <= i < |fs.ci| ensures fs'.ci[i].host == fs.ci[i].host {
      assert SameInode(fs, fs', i, cur);
    }
    NewestSame(fs.ci, fs'.ci, |fs.ci|, h);
  }

  /** A known number names an inode, an unknown one none. */
  lemma KnownNewest(fs: Fs, m: Seen, h: nat)
    requires Known(fs, m)
    ensures h in m <==> Newest(fs.ci, |fs.ci|, h).Some?
    ensures h in m ==> FoundAs(fs, Newest(fs.ci, |fs.ci|, h).value, h, m[h])
  {
    if h in m {
      assert KnownAt(fs, m, h);
    } else if Newest(fs.ci, |fs.ci|, h).Some? {
      assert FiledAt(fs, m, Newest(fs.ci, |fs.ci|, h).value);
    }
  }

  /** Something other than a regular file grew. */
  lemma KnownFrame(fs: Fs, fs': Fs, m: Seen, cur: nat)
    requires RunInv(fs) && Ext(fs, fs', cur) && |fs'.ci| == |fs.ci| && Known(fs, m)
    requires cur < |fs.ci| && fs.ci[cur].inode.kind != TYPE_FILE
    ensures Known(fs', m)
  {
    forall i | 0 <= i < |fs.ci| ensures FiledAt(fs', m, i) {
      assert FiledAt(fs, m, i) && SameInode(fs, fs', i, cur);
    }
    forall h | h in m ensures KnownAt(fs', m, h) {
      assert KnownAt(fs, m, h);
      HostsKept(fs, fs', cur, h);
      FoundFrame(fs, fs', cur, Newest(fs.ci, |fs.ci|, h).value, h, m[h]);
    }
    forall i, j | 0 <= i < j < |fs.ci| ensures OneObject(fs', i, j) {
      assert OneObject(fs, i, j) && SameInode(fs, fs', i, cur) && SameInode(fs, fs', j, cur);
    }
  }

  /** A regular file was filled. */
  lemma KnownFill(fs: Fs, fs': Fs, m: Seen, f: nat, h: nat, d: seq<Byte>)
    requires RunInv(fs) && Ext(fs, fs', f) && |fs'.ci| == |fs.ci| && Known(fs, m)
    requires Newest(fs.ci, |fs.ci|, h) == Some(f) && fs.ci[f].inode.kind == TYPE_FILE && HoldsAt(fs', f, d)
    ensures Known(fs', m[h := Regular(d)])
  {
    var m' := m[h := Regular(d)];
    forall i | 0 <= i < |fs.ci| ensures FiledAt(fs', m', i) {
      assert FiledAt(fs, m, i) && SameInode(fs, fs', i, f);
    }
    forall g | g in m' ensures KnownAt(fs', m', g) {
      HostsKept(fs, fs', f, g);
      if g == h {
        assert SameInode(fs, fs', f, f);
      } else {
        assert KnownAt(fs, m, g);
        FoundFrame(fs, fs', f, Newest(fs.ci, |fs.ci|, g).value, g, m[g]);
      }
    }
    forall i, j | 0 <= i < j < |fs.ci| ensures OneObject(fs', i, j) {
      assert OneObject(fs, i, j) && SameInode(fs, fs', i, f) && SameInode(fs, fs', j, f);
    }
  }

  /** What a new inode is: a new regular file is empty. */
  function NewObject(kind: nat): Object {
    if kind == TYPE_FILE then Regular([]) else if kind == TYPE_LINK then Symlink else Directory
  }

  /** A new inode is the newest of its number. */
  lemma KnownAlloc(fs: Fs, m: Seen, h: nat, kind: nat)
    requires RunInv(fs) && Known(fs, m) && AllocInode(fs, h, kind).Some?
    requires kind in {TYPE_FILE, TYPE_DIR, TYPE_LINK} && (kind != TYPE_LINK ==> h !in m)
    ensures Known(AllocInode(fs, h, kind).value, m[h := NewObject(kind)])
  {
    var n, fs', m' := |fs.ci|, AllocInode(fs, h, kind).value, m[h := NewObject(kind)];
    AllocInodeOk(fs, h, kind);
    forall i | 0 <= i < n + 1 ensures FiledAt(fs', m', i) {
      assert i < n ==> FiledAt(fs, m, i);
    }
    assert ContentAt(fs', n, []) && Flat([]) == [];
    forall g | g in m' ensures KnownAt(fs', m', g) {
      if g != h {
        assert KnownAt(fs, m, g);
        NewestSame(fs.ci, fs'.ci, n, g);
        FoundFrame(fs, fs', n, Newest(fs.ci, n, g).value, g, m[g]);
      }
    }
    forall i, j | 0 <= i < j < n + 1 ensures OneObject(fs', i, j) {
      if j < n {
        assert OneObject(fs, i, j);
      } else {
        assert FiledAt(fs, m, i);
      }
    }
  }

  // ----- the steps of the walk

  /** add_entry: the new entry is the last one, and it names the file. */
  lemma AddEntryAt(fs: Fs, cur: nat, f: nat, name: Name)
    requires RunInv(fs) && cur < |fs.ci| && f < |fs.ci| && AddEntry(fs, cur, f, name).Some?
    ensures var fs' := AddEntry(fs, cur, f, name).value;
      && RunInv(fs') && Ext(fs, fs', cur) && |fs'.ci| == |fs.ci|
      && |fs'.files[cur]| == |fs.files[cur]| + 1
      && fs'.ci[f].ino == fs.ci[f].ino && EntryAt(fs', cur, |fs.files[cur]|, fs.ci[f].ino, name)
  {
    AddEntryOk(fs, cur, f, name);
    assert InoAt(fs, f) && SameInode(fs, AddEntry(fs, cur, f, name).value, f, cur);
    EntryReads(fs.ci[f].ino, fs.entry, name);
  }

  lemma TotalAppend(a: seq<seq<Byte>>, d: seq<Byte>)
    ensures Total(a + [d]) == Total(a) + |d|
  {
    assert (a + [d])[..|a|] == a;
  }

  lemma Regroup(done: seq<seq<Byte>>, d: Chunk, chunks: seq<Chunk>)
    requires chunks != [] && d == chunks[0]
    ensures done + [d] + chunks[1..] == done + chunks
  {
    var a: seq<seq<Byte>>, b: seq<seq<Byte>> := done + [d] + chunks[1..], done + chunks;
    assert forall k :: 0 <= k < |a| ==> a[k] == b[k];
  }

  lemma ChunkAt(fs: Fs, f: nat, done: seq<seq<Byte>>, d: Chunk, last: nat)
    requires RunInv(fs) && f < |fs.ci| && Store(fs, d).Some?
    requires AppendBlock(Store(fs, d).value, f, |d|, fs.nextIno).Some?
    requires ContentAt(fs, f, done) && last == BLKSIZE
    requires last == (if done == [] then BLKSIZE else |done[|done| - 1]|)
    ensures var fs2 := AppendBlock(Store(fs, d).value, f, |d|, fs.nextIno).value;
      RunInv(fs2) && ContentAt(fs2, f, done + [d]) && |fs2.ci| == |fs.ci|
  {
    hide AppendBlock, Store;
    var fs1 := Store(fs, d).value;
    StoreOk(fs, d);
    var fs2 := AppendBlock(fs1, f, |d|, fs.nextIno).value;
    AppendOk(fs1, f, |d|, fs.nextIno);
    TotalAppend(done, d);
    FullAppend(done, d, last);
    forall k | 0 <= k < |done| ensures BlockHas(fs2.disk, fs2.files[f][k], done[k]) {
      assert BlockHas(fs.disk, fs.files[f][k], done[k]) && OnDisk(fs, fs.files[f][k]);
    }
    assert BlockHas(fs2.disk, fs2.files[f][|done|], d);
  }

  lemma FullAppend(done: seq<seq<Byte>>, d: Chunk, last: nat)
    requires Full(done) && last == BLKSIZE && last == (if done == [] then BLKSIZE else |done[|done| - 1]|)
    ensures Full(done + [d])
  {
  }

  /** open_file: the file holds the chunks read so far. */
  lemma {:induction false} OpenFileAt(fs: Fs, f: nat, done: seq<seq<Byte>>, chunks: seq<Chunk>, last: nat)
    requires RunInv(fs) && f < |fs.ci| && OpenFile(fs, f, chunks, last).Some?
    requires ContentAt(fs, f, done)
    requires last == (if done == [] then BLKSIZE else |done[|done| - 1]|)
    ensures ContentAt(OpenFile(fs, f, chunks, last).value, f, done + chunks)
    decreases |chunks|
  {
    if chunks == [] {
      assert done + chunks == done;
    } else {
      var d := chunks[0];
      ChunkAt(fs, f, done, d, last);
      OpenFileAt(AppendBlock(Store(fs, d).value, f, |d|, fs.nextIno).value, f, done + [d], chunks[1..], |d|);
      Regroup(done, d, chunks);
    }
  }

  lemma OpenLinkAt(fs: Fs, f: nat, target: seq<Byte>)
    requires RunInv(fs) && f < |fs.ci| && fs.files[f] == [] && fs.ci[f].inode.size == 0
    requires OpenLink(fs, f, target).Some?
    ensures ContentAt(OpenLink(fs, f, target).value, f, [target])
  {
    OpenLinkOk(fs, f, target);
    assert Total([target]) == Total([]) + |target|;
    assert BlockHas(OpenLink(fs, f, target).value.disk, fs.nextIno, target);
  }

  /** What one directory entry of the source becomes. */
  ghost predicate Visited(fs: Fs, fs': Fs, cur: nat, name: Name, node: Node, m: Seen) {
    && RunInv(fs') && Ext(fs, fs', cur) && Known(fs', TrackNode(node, m)) && cur < |fs.ci|
    && |fs'.files[cur]| == |fs.files[cur]| + 1
    && ItemAt(fs', cur, |fs.files[cur]|, name, node, m)
  }

  /** The common end of add_file, add_link and add_dir: what the entry names is complete, the entry is added. */
  lemma FinishVisit(fs: Fs, fs2: Fs, cur: nat, f: nat, name: Name, node: Node, m: Seen)
    requires RunInv(fs) && RunInv(fs2) && Ext(fs, fs2, cur) && cur < |fs.ci| && fs.ci[cur].inode.kind == TYPE_DIR
    requires Known(fs2, TrackNode(node, m)) && fs2.files[cur] == fs.files[cur]
    requires f < |fs2.ci| && (node.Dir? ==> f > cur) && NodeAt(fs2, f, fs2.ci[cur].ino, node, m)
    requires AddEntry(fs2, cur, f, name).Some?
    ensures Visited(fs, AddEntry(fs2, cur, f, name).value, cur, name, node, m)
  {
    hide AddEntry, Known, TrackNode;
    var fs' := AddEntry(fs2, cur, f, name).value;
    assert SameInode(fs, fs2, cur, cur);
    AddEntryAt(fs2, cur, f, name);
    assert SameInode(fs2, fs', cur, cur);
    ExtTrans(fs, fs2, fs', cur);
    KnownFrame(fs2, fs', TrackNode(node, m), cur);
    NodeFrame(fs2, fs', cur, f, fs2.ci[cur].ino, node, m);
    assert ChildAt(fs', cur, |fs.files[cur]|, name, node, f);
  }

  lemma NewFileAt(fs: Fs, cur: nat, h: nat, chunks: seq<Chunk>, m: Seen)
    requires RunInv(fs) && cur < |fs.ci| && Known(fs, m) && h !in m && AllocInode(fs, h, TYPE_FILE).Some?
    requires OpenFile(AllocInode(fs, h, TYPE_FILE).value, |fs.ci|, chunks, BLKSIZE).Some?
    ensures var fs2 := OpenFile(AllocInode(fs, h, TYPE_FILE).value, |fs.ci|, chunks, BLKSIZE).value;
      && RunInv(fs2) && Ext(fs, fs2, cur) && fs2.files[cur] == fs.files[cur]
      && Known(fs2, m[h := Regular(Flat(chunks))])
      && |fs2.ci| == |fs.ci| + 1 && FoundAs(fs2, |fs.ci|, h, Regular(Flat(chunks)))
  {
    hide OpenFile, Known;
    var f, fs1, d := |fs.ci|, AllocInode(fs, h, TYPE_FILE).value, Flat(chunks);
    AllocInodeOk(fs, h, TYPE_FILE);
    KnownAlloc(fs, m, h, TYPE_FILE);
    var fs2 := OpenFile(fs1, f, chunks, BLKSIZE).value;
    OpenFileOk(fs1, f, chunks, BLKSIZE);
    NewFileHolds(fs1, f, chunks);
    assert SameInode(fs1, fs2, f, f);
    KnownFill(fs1, fs2, m[h := Regular([])], f, h, d);
    assert m[h := Regular([])][h := Regular(d)] == m[h := Regular(d)];
    ExtTrans(fs, fs1, fs2, f);
    ExtNew(fs, fs2, f, cur);
    assert SameInode(fs, fs2, cur, f);
  }

  lemma NoContent(fs: Fs, f: nat, data: seq<seq<Byte>>)
    requires f < |fs.ci| == |fs.files| && fs.files[f] == [] && fs.ci[f].inode.size == 0
    ensures ContentAt(fs, f, []) && [] + data == data
  {
  }

  lemma NewFileHolds(fs: Fs, f: nat, chunks: seq<Chunk>)
    requires RunInv(fs) && f < |fs.ci| == |fs.files| && fs.files[f] == [] && fs.ci[f].inode.size == 0
    requires OpenFile(fs, f, chunks, BLKSIZE).Some?
    ensures HoldsAt(OpenFile(fs, f, chunks, BLKSIZE).value, f, Flat(chunks))
  {
    hide ContentAt, OpenFile, RunInv, Flat;
    NoContent(fs, f, chunks);
    OpenFileAt(fs, f, [], chunks, BLKSIZE);
  }

  lemma AddFileAt(fs: Fs, cur: nat, name: Name, h: nat, chunks: seq<Chunk>, m: Seen)
    requires RunInv(fs) && cur < |fs.ci| && fs.ci[cur].inode.kind == TYPE_DIR && Known(fs, m)
    requires AddFile(fs, cur, name, h, chunks).Some?
    ensures Visited(fs, AddFile(fs, cur, name, h, chunks).value, cur, name, File(h, chunks), m)
  {
    hide AddEntry, OpenFile, AllocInode, Known, Visited;
    var r := Newest(fs.ci, |fs.ci|, h);
    KnownNewest(fs, m, h);
    if r.Some? {
      ExtRefl(fs, cur);
      assert m[h := m[h]] == m;
      FinishVisit(fs, fs, cur, r.value, name, File(h, chunks), m);
    } else {
      NewFileAt(fs, cur, h, chunks, m);
      var fs2 := OpenFile(AllocInode(fs, h, TYPE_FILE).value, |fs.ci|, chunks, BLKSIZE).value;
      FinishVisit(fs, fs2, cur, |fs.ci|, name, File(h, chunks), m);
    }
  }

  lemma AddLinkAt(fs: Fs, cur: nat, name: Name, h: nat, target: seq<Byte>, m: Seen)
    requires RunInv(fs) && cur < |fs.ci| && fs.ci[cur].inode.kind == TYPE_DIR && Known(fs, m)
    requires AddLink(fs, cur, name, h, target).Some?
    ensures Visited(fs, AddLink(fs, cur, name, h, target).value, cur, name, Link(h, target), m)
  {
    hide AddEntry, OpenLink, Known, Visited;
    var f := |fs.ci|;
    var fs1 := AllocInode(fs, h, TYPE_LINK).value;
    AllocInodeOk(fs, h, TYPE_LINK);
    KnownAlloc(fs, m, h, TYPE_LINK);
    var fs2 := OpenLink(fs1, f, target).value;
    OpenLinkOk(fs1, f, target);
    OpenLinkAt(fs1, f, target);
    assert SameInode(fs1, fs2, f, f);
    KnownFrame(fs1, fs2, m[h := Symlink], f);
    ExtTrans(fs, fs1, fs2, f);
    ExtNew(fs, fs2, f, cur);
    assert SameInode(fs, fs2, cur, f);
    FinishVisit(fs, fs2, cur, f, name, Link(h, target), m);
  }

  /** The new directory before its entry is added. */
  lemma {:induction false} NewDirAt(fs: Fs, cur: nat, h: nat, sub: Listing, m: Seen)
    requires RunInv(fs) && cur < |fs.ci| && Known(fs, m) && h !in m && AllocInode(fs, h, TYPE_DIR).Some?
    requires OpenDir(AllocInode(fs, h, TYPE_DIR).value, |fs.ci|, cur, sub).Some?
    ensures var fs2 := OpenDir(AllocInode(fs, h, TYPE_DIR).value, |fs.ci|, cur, sub).value;
      && RunInv(fs2) && Ext(fs, fs2, cur) && Known(fs2, TrackNode(Dir(h, sub), m)) && fs2.files[cur] == fs.files[cur]
      && |fs2.ci| > |fs.ci| && NodeAt(fs2, |fs.ci|, fs2.ci[cur].ino, Dir(h, sub), m)
    decreases sub, 2
  {
    hide OpenDir, Known, DirAt;
    var f := |fs.ci|;
    var fs1 := AllocInode(fs, h, TYPE_DIR).value;
    AllocInodeOk(fs, h, TYPE_DIR);
    KnownAlloc(fs, m, h, TYPE_DIR);
    var fs2 := OpenDir(fs1, f, cur, sub).value;
    OpenDirOk(fs1, f, cur, sub);
    OpenDirAt(fs1, f, cur, sub, m[h := Directory]);
    ExtTrans(fs, fs1, fs2, f);
    ExtNew(fs, fs2, f, cur);
    assert SameInode(fs1, fs2, cur, f) && SameInode(fs1, fs2, f, f);
  }

  lemma {:induction false} AddDirAt(fs: Fs, cur: nat, name: Name, h: nat, sub: Listing, m: Seen)
    requires RunInv(fs) && cur < |fs.ci| && fs.ci[cur].inode.kind == TYPE_DIR && Known(fs, m)
    requires AddDir(fs, cur, name, h, sub).Some?
    ensures Visited(fs, AddDir(fs, cur, name, h, sub).value, cur, name, Dir(h, sub), m)
    decreases sub, 3
  {
    hide AddEntry, OpenDir, AllocInode, Known, NodeAt, TrackNode, Visited;
    KnownNewest(fs, m, h);
    NewDirAt(fs, cur, h, sub, m);
    var fs2 := OpenDir(AllocInode(fs, h, TYPE_DIR).value, |fs.ci|, cur, sub).value;
    FinishVisit(fs, fs2, cur, |fs.ci|, name, Dir(h, sub), m);
  }

  lemma DotAt(fs: Fs, cur: nat, f: nat, name: Name, m: Seen)
    requires RunInv(fs) && cur < |fs.ci| && fs.ci[cur].inode.kind == TYPE_DIR && Known(fs, m)
    requires f < |fs.ci| && AddEntry(fs, cur, f, name).Some?
    ensures var fs' := AddEntry(fs, cur, f, name).value;
      && RunInv(fs') && Ext(fs, fs', cur) && Known(fs', m) && |fs'.ci| == |fs.ci|
      && |fs'.files[cur]| == |fs.files[cur]| + 1 && EntryAt(fs', cur, |fs.files[cur]|, fs.ci[f].ino, name)
      && fs'.ci[cur].inode.kind == TYPE_DIR && fs'.ci[cur].ino == fs.ci[cur].ino && fs'.ci[cur].host == fs.ci[cur].host
  {
    hide AddEntry, Known;
    var fs' := AddEntry(fs, cur, f, name).value;
    AddEntryAt(fs, cur, f, name);
    KnownFrame(fs, fs', m, cur);
    assert SameInode(fs, fs', cur, cur);
  }

  /** The entries "." and ".." of a fresh directory. */
  lemma DotsAt(fs: Fs, cur: nat, parent: nat, m: Seen)
    requires RunInv(fs) && cur < |fs.ci| && fs.ci[cur].inode.kind == TYPE_DIR && Known(fs, m)
    requires parent < |fs.ci| && fs.files[cur] == [] && AddEntry(fs, cur, cur, DOT).Some?
    requires AddEntry(AddEntry(fs, cur, cur, DOT).value, cur, parent, DOTDOT).Some?
    ensures var fs1 := AddEntry(fs, cur, cur, DOT).value;
      var fs2 := AddEntry(fs1, cur, parent, DOTDOT).value;
      && RunInv(fs2) && Ext(fs, fs2, cur) && Known(fs2, m) && |fs2.files[cur]| == 2 && |fs2.ci| == |fs.ci|
      && fs2.ci[cur].inode.kind == TYPE_DIR && fs2.ci[cur].ino == fs.ci[cur].ino && fs2.ci[cur].host == fs.ci[cur].host
      && EntryAt(fs2, cur, 0, fs.ci[cur].ino, DOT) && EntryAt(fs2, cur, 1, fs.ci[parent].ino, DOTDOT)
  {
    hide AddEntry, Known;
    var fs1 := AddEntry(fs, cur, cur, DOT).value;
    DotAt(fs, cur, cur, DOT, m);
    assert SameInode(fs, fs1, parent, cur);
    var fs2 := AddEntry(fs1, cur, parent, DOTDOT).value;
    DotAt(fs1, cur, parent, DOTDOT, m);
    EntryFrame(fs1, fs2, cur, cur, 0, fs.ci[cur].ino, DOT);
    ExtTrans(fs, fs1, fs2, cur);
  }

  lemma {:induction false} OpenDirAt(fs: Fs, cur: nat, parent: nat, es: Listing, m: Seen)
    requires RunInv(fs) && cur < |fs.ci| && fs.ci[cur].inode.kind == TYPE_DIR && Known(fs, m)
    requires parent < |fs.ci| && fs.files[cur] == [] && OpenDir(fs, cur, parent, es).Some?
    ensures var fs' := OpenDir(fs, cur, parent, es).value;
      Known(fs', TrackList(es, m)) && DirAt(fs', cur, fs.ci[parent].ino, es, m)
    decreases es, 1
  {
    hide AddEntry, Known, ListAt, TrackList;
    var fs1 := AddEntry(fs, cur, cur, DOT).value;
    var fs2 := AddEntry(fs1, cur, parent, DOTDOT).value;
    DotsAt(fs, cur, parent, m);
    WalkOk(fs2, cur, es);
    WalkAt(fs2, cur, es, m);
    var fs3 := Walk(fs2, cur, es).value;
    EntryFrame(fs2, fs3, cur, cur, 0, fs.ci[cur].ino, DOT);
    EntryFrame(fs2, fs3, cur, cur, 1, fs.ci[parent].ino, DOTDOT);
    assert SameInode(fs2, fs3, cur, cur);
  }

  lemma {:induction false} VisitAt(fs: Fs, cur: nat, name: Name, node: Node, m: Seen)
    requires RunInv(fs) && cur < |fs.ci| && fs.ci[cur].inode.kind == TYPE_DIR && Known(fs, m)
    requires !Skipped(name, node) && Visit(fs, cur, name, node).Some?
    ensures Visited(fs, Visit(fs, cur, name, node).value, cur, name, node, m)
    decreases node, 3
  {
    hide Visited, Known;
    match node
    case File(h, chunks) => AddFileAt(fs, cur, name, h, chunks, m);
    case Link(h, target) => AddLinkAt(fs, cur, name, h, target, m);
    case Dir(h, sub) => AddDirAt(fs, cur, name, h, sub, m);
  }

  /** One entry and the rest of the listing behind it. */
  lemma WalkJoin(fs: Fs, fs1: Fs, fs2: Fs, cur: nat, name: Name, node: Node, rest: Listing, m: Seen)
    requires Visited(fs, fs1, cur, name, node, m) && !Skipped(name, node) && fs.ci[cur].inode.kind == TYPE_DIR
    requires Ext(fs, fs1, cur) && Ext(fs1, fs2, cur)
    requires ListAt(fs2, cur, |fs1.files[cur]|, rest, TrackNode(node, m))
    ensures Ext(fs, fs2, cur) && ListAt(fs2, cur, |fs.files[cur]|, Item(name, node, rest), m)
  {
    hide Known, TrackNode, NodeAt;
    assert SameInode(fs, fs1, cur, cur);
    ExtTrans(fs, fs1, fs2, cur);
    ItemFrame(fs1, fs2, cur, cur, |fs.files[cur]|, name, node, m);
  }

  /** The readdir loop: the entries of the source, in order, behind what the directory held before. */
  lemma {:induction false} WalkAt(fs: Fs, cur: nat, es: Listing, m: Seen)
    requires RunInv(fs) && cur < |fs.ci| && fs.ci[cur].inode.kind == TYPE_DIR && Known(fs, m)
    requires Walk(fs, cur, es).Some?
    ensures var fs' := Walk(fs, cur, es).value;
      && RunInv(fs') && Ext(fs, fs', cur) && Known(fs', TrackList(es, m)) && ListAt(fs', cur, |fs.files[cur]|, es, m)
    decreases es, 0
  {
    WalkOk(fs, cur, es);
    match es
    case End =>
    case Item(name, node, rest) =>
      hide AddFile, AddLink, AddDir, Known, NodeAt;
      var fs1 := Visit(fs, cur, name, node).value;
      if Skipped(name, node) {
        WalkAt(fs1, cur, rest, m);
      } else {
        VisitAt(fs, cur, name, node, m);
        assert SameInode(fs, fs1, cur, cur);
        WalkAt(fs1, cur, rest, TrackNode(node, m));
        WalkJoin(fs, fs1, Walk(fs1, cur, rest).value, cur, name, node, rest, m);
      }
  }
}
