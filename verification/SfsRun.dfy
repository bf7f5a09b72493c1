/** What every step of the builder keeps, from the empty image to the end of the walk. */
module SfsRun {
  import opened Bytes
  import opened SfsModel
  import opened SfsIndex

  // ----- the invariant

  /** Every block number handed out has exactly one use, and every use has its number. */
  ghost predicate RolesOk(fs: Fs) {
    && |fs.role| == fs.nextIno
    && (forall t :: 0 <= t < |fs.log| ==> LogAt(fs, t))
    && (forall i :: 0 <= i < |fs.ci| ==> InoAt(fs, i))
    && (forall x :: 0 <= x < |fs.cb| ==> IndexAt(fs, x))
    && (forall b :: 0 <= b < fs.nextIno ==> UsedAt(fs, b))
  }

  ghost predicate LogAt(fs: Fs, t: nat) {
    t < |fs.log| && fs.log[t] < fs.nextIno == |fs.role| && fs.role[fs.log[t]] == Data(t)
  }

  ghost predicate InoAt(fs: Fs, i: nat) {
    i < |fs.ci| && fs.ci[i].ino < fs.nextIno == |fs.role| && fs.role[fs.ci[i].ino] == OfInode(i)
  }

  ghost predicate IndexAt(fs: Fs, x: nat) {
    x < |fs.cb| && fs.cb[x].ino < fs.nextIno == |fs.role| && fs.role[fs.cb[x].ino] == OfIndex(x)
  }

  ghost predicate UsedAt(fs: Fs, b: nat) {
    b < |fs.role| && match fs.role[b]
      case Meta => b == 0 || 2 <= b < 2 + FreemapBlocks(fs.ninos)
      case Data(t) => t < |fs.log| && fs.log[t] == b
      case OfInode(i) => i < |fs.ci| && fs.ci[i].ino == b
      case OfIndex(x) => x < |fs.cb| && fs.cb[x].ino == b
  }

  ghost predicate SpaceOk(fs: Fs) {
    && fs.unused + fs.nextIno == fs.ninos <= MAX_NBLKS
    && 2 + FreemapBlocks(fs.ninos) <= fs.nextIno <= fs.ninos
    && |fs.role| == fs.nextIno && fs.role[0] == Meta && fs.role[1] == OfInode(0)
    && (forall b :: 2 <= b < 2 + FreemapBlocks(fs.ninos) ==> MetaAt(fs, b))
  }

  ghost predicate MetaAt(fs: Fs, b: nat) {
    b < |fs.role| && fs.role[b] == Meta
  }

  /** Exactly the blocks written so far are on disk, and files list such blocks only. */
  ghost predicate DataOk(fs: Fs) {
    && (forall b: nat :: OnDisk(fs, b))
    && (forall f, k :: 0 <= f < |fs.files| && 0 <= k < |fs.files[f]| ==> StoredAt(fs, f, k))
  }

  ghost predicate OnDisk(fs: Fs, b: nat) {
    b in fs.disk <==> b < |fs.role| && fs.role[b].Data?
  }

  ghost predicate StoredAt(fs: Fs, f: nat, k: nat) {
    f < |fs.files| && k < |fs.files[f]| && fs.files[f][k] in fs.disk
  }

  ghost predicate FieldsAt(fs: Fs, i: nat) {
    && i < |fs.ci| && fs.ci[i].inode.kind in {TYPE_FILE, TYPE_DIR, TYPE_LINK}
    && fs.ci[i].inode.nlinks < 0x1_0000 && fs.ci[i].inode.size <= BLKSIZE * fs.ci[i].inode.blocks
  }

  ghost predicate RunInv(fs: Fs) {
    && IndexInv(fs) && RolesOk(fs) && SpaceOk(fs) && DataOk(fs)
    && fs.searches == 0
    && |fs.ci| > 0 && fs.ci[0].ino == 1
    && (forall i :: 0 <= i < |fs.ci| ==> FieldsAt(fs, i))
  }

  // ----- growth

  /** From fs to fs' nothing is lost, and no file but `cur` got new blocks. */
  ghost predicate Ext(fs: Fs, fs': Fs, cur: nat) {
    && fs'.ninos == fs.ninos && |fs.role| == fs.nextIno <= fs'.nextIno == |fs'.role|
    && |fs.files| == |fs.ci| <= |fs'.ci| == |fs'.files|
    && (forall b :: 0 <= b < fs.nextIno ==> SameBlock(fs, fs', b))
    && (forall i :: 0 <= i < |fs.ci| ==> SameInode(fs, fs', i, cur))
  }

  ghost predicate SameBlock(fs: Fs, fs': Fs, b: nat) {
    && b < |fs.role| <= |fs'.role| && fs'.role[b] == fs.role[b]
    && (b in fs.disk ==> b in fs'.disk && fs'.disk[b] == fs.disk[b])
  }

  ghost predicate SameInode(fs: Fs, fs': Fs, i: nat, cur: nat) {
    && i < |fs.ci| == |fs.files| && i < |fs'.ci| == |fs'.files|
    && fs'.ci[i].ino == fs.ci[i].ino && fs'.ci[i].host == fs.ci[i].host
    && fs'.ci[i].inode.kind == fs.ci[i].inode.kind
    && fs.files[i] <= fs'.files[i]
    && (i != cur ==> fs'.files[i] == fs.files[i] && fs'.ci[i].inode.size == fs.ci[i].inode.size)
  }

  lemma ExtTrans(a: Fs, b: Fs, c: Fs, cur: nat)
    requires Ext(a, b, cur) && Ext(b, c, cur)
    ensures Ext(a, c, cur)
  {
    forall k | 0 <= k < a.nextIno ensures SameBlock(a, c, k) {
      assert SameBlock(a, b, k) && SameBlock(b, c, k);
    }
    forall i | 0 <= i < |a.ci| ensures SameInode(a, c, i, cur) {
      assert SameInode(a, b, i, cur) && SameInode(b, c, i, cur);
    }
  }

  lemma ExtRefl(fs: Fs, cur: nat)
    requires RunInv(fs)
    ensures Ext(fs, fs, cur)
  {
    forall b | 0 <= b < fs.nextIno ensures SameBlock(fs, fs, b) {
    }
    forall i | 0 <= i < |fs.ci| ensures SameInode(fs, fs, i, cur) {
    }
  }

  /** Growth of a file that did not exist yet is no growth of an old one. */
  lemma ExtNew(a: Fs, b: Fs, k: nat, cur: nat)
    requires Ext(a, b, k) && k >= |a.ci|
    ensures Ext(a, b, cur)
  {
    forall i | 0 <= i < |a.ci| ensures SameInode(a, b, i, cur) {
      assert SameInode(a, b, i, k);
    }
  }

  // ----- the steps

  /** Roles, disk contents and files survive a step that only adds to them. */
  lemma RolesGrow(fs: Fs, fs': Fs, cur: nat)
    requires RolesOk(fs) && SpaceOk(fs) && Ext(fs, fs', cur)
    requires fs'.unused + fs'.nextIno == fs'.ninos && fs'.nextIno <= fs'.ninos
    requires fs.log <= fs'.log && |fs.cb| <= |fs'.cb|
    requires forall x :: 0 <= x < |fs.cb| ==> fs'.cb[x].ino == fs.cb[x].ino
    requires forall t :: |fs.log| <= t < |fs'.log| ==> LogAt(fs', t)
    requires forall i :: |fs.ci| <= i < |fs'.ci| ==> InoAt(fs', i)
    requires forall x :: |fs.cb| <= x < |fs'.cb| ==> IndexAt(fs', x)
    requires forall b :: fs.nextIno <= b < fs'.nextIno ==> UsedAt(fs', b)
    ensures RolesOk(fs') && SpaceOk(fs')
  {
    forall t | 0 <= t < |fs.log| ensures LogAt(fs', t) {
      assert LogAt(fs, t) && SameBlock(fs, fs', fs.log[t]);
    }
    forall i | 0 <= i < |fs.ci| ensures InoAt(fs', i) {
      assert InoAt(fs, i) && SameBlock(fs, fs', fs.ci[i].ino) && SameInode(fs, fs', i, cur);
    }
    forall x | 0 <= x < |fs.cb| ensures IndexAt(fs', x) {
      assert IndexAt(fs, x) && SameBlock(fs, fs', fs.cb[x].ino);
    }
    forall b | 0 <= b < fs.nextIno ensures UsedAt(fs', b) {
      assert UsedAt(fs, b) && SameBlock(fs, fs', b);
      if fs.role[b].OfInode? {
        assert SameInode(fs, fs', fs.role[b].i, cur);
      }
    }
    forall b | 2 <= b < 2 + FreemapBlocks(fs.ninos) ensures MetaAt(fs', b) {
      assert MetaAt(fs, b) && SameBlock(fs, fs', b);
    }
    assert SameBlock(fs, fs', 0) && SameBlock(fs, fs', 1);
  }

  lemma StoreExt(fs: Fs, data: seq<Byte>)
    requires Sane(fs) && |fs.role| == fs.nextIno && DataOk(fs) && Store(fs, data).Some?
    ensures Ext(fs, Store(fs, data).value, |fs.ci|) && DataOk(Store(fs, data).value)
  {
    var fs' := Store(fs, data).value;
    assert OnDisk(fs, fs.nextIno);
    forall b | 0 <= b < fs.nextIno ensures SameBlock(fs, fs', b) {
    }
    forall i | 0 <= i < |fs.ci| ensures SameInode(fs, fs', i, |fs.ci|) {
    }
    forall b: nat ensures OnDisk(fs', b) {
      assert OnDisk(fs, b);
    }
    forall f, k | 0 <= f < |fs.files| && 0 <= k < |fs.files[f]| ensures StoredAt(fs', f, k) {
      assert StoredAt(fs, f, k);
    }
  }

  lemma StoreIndex(fs: Fs, data: seq<Byte>)
    requires IndexInv(fs) && Store(fs, data).Some?
    ensures IndexInv(Store(fs, data).value)
  {
    assert forall f :: FileAt(fs, f) ==> FileAt(Store(fs, data).value, f);
  }

  lemma StoreOk(fs: Fs, data: seq<Byte>)
    requires RunInv(fs) && Store(fs, data).Some?
    ensures var fs' := Store(fs, data).value;
      && RunInv(fs') && Ext(fs, fs', |fs.ci|)
      && fs'.nextIno == fs.nextIno + 1 && fs'.ci == fs.ci && fs'.files == fs.files
      && |data| <= BLKSIZE && fs'.disk == fs.disk[fs.nextIno := Pad(data)]
  {
    var fs' := Store(fs, data).value;
    StoreIndex(fs, data);
    StoreExt(fs, data);
    assert LogAt(fs', |fs.log|) && UsedAt(fs', fs.nextIno);
    RolesGrow(fs, fs', |fs.ci|);
    assert forall i :: FieldsAt(fs, i) ==> FieldsAt(fs', i);
  }

  lemma AllocInodeExt(fs: Fs, host: nat, kind: nat)
    requires Sane(fs) && |fs.role| == fs.nextIno && DataOk(fs) && AllocInode(fs, host, kind).Some?
    ensures var fs' := AllocInode(fs, host, kind).value; DataOk(fs') && Ext(fs, fs', |fs.ci|)
  {
    var fs' := AllocInode(fs, host, kind).value;
    forall b | 0 <= b < fs.nextIno ensures SameBlock(fs, fs', b) {
    }
    forall i | 0 <= i < |fs.ci| ensures SameInode(fs, fs', i, |fs.ci|) {
    }
    forall b: nat ensures OnDisk(fs', b) {
      assert OnDisk(fs, b);
    }
    forall f, k | 0 <= f < |fs'.files| && 0 <= k < |fs'.files[f]| ensures StoredAt(fs', f, k) {
      assert StoredAt(fs, f, k);
    }
  }

  lemma AllocInodeIndex(fs: Fs, host: nat, kind: nat)
    requires IndexInv(fs) && AllocInode(fs, host, kind).Some?
    ensures IndexInv(AllocInode(fs, host, kind).value)
  {
    var fs' := AllocInode(fs, host, kind).value;
    forall f, t | 0 <= f < |fs'.own| && 0 <= t < |fs'.own[f]| ensures OwnAt(fs'.own, fs'.owner, f, t) {
      assert OwnAt(fs.own, fs.owner, f, t);
    }
    forall x | 0 <= x < |fs'.owner| ensures OwnerAt(fs'.own, fs'.owner, x) {
      assert OwnerAt(fs.own, fs.owner, x);
    }
    forall f | 0 <= f < |fs'.ci| ensures FileAt(fs', f) {
      assert f < |fs.ci| ==> FileAt(fs, f);
    }
  }

  lemma AllocInodeOk(fs: Fs, host: nat, kind: nat)
    requires RunInv(fs) && AllocInode(fs, host, kind).Some? && kind in {TYPE_FILE, TYPE_DIR, TYPE_LINK}
    ensures var fs' := AllocInode(fs, host, kind).value;
      && RunInv(fs') && Ext(fs, fs', |fs.ci|)
      && fs'.nextIno == fs.nextIno + 1 && fs'.disk == fs.disk
      && fs'.ci == fs.ci + [EmptyInode(kind, host, fs.nextIno)] && fs'.files == fs.files + [[]]
  {
    var fs' := AllocInode(fs, host, kind).value;
    AllocInodeIndex(fs, host, kind);
    AllocInodeExt(fs, host, kind);
    assert InoAt(fs', |fs.ci|) && UsedAt(fs', fs.nextIno);
    RolesGrow(fs, fs', |fs.ci|);
    assert FieldsAt(fs', |fs.ci|) && forall i :: FieldsAt(fs, i) ==> FieldsAt(fs', i);
  }

  /** Index blocks added on behalf of `f` disturb no block and no other file. */
  lemma GrewExt(fs: Fs, fs': Fs, f: nat)
    requires DataOk(fs) && Grew(fs, fs', f)
    ensures Ext(fs, fs', f) && DataOk(fs')
    ensures forall x :: |fs.cb| <= x < |fs'.cb| ==> IndexAt(fs', x)
    ensures forall b :: fs.nextIno <= b < fs'.nextIno ==> UsedAt(fs', b)
  {
    forall x | |fs.cb| <= x < |fs'.cb| ensures IndexAt(fs', x) {
      assert IndexFresh(fs, fs', x);
    }
    forall b | fs.nextIno <= b < fs'.nextIno ensures UsedAt(fs', b) && fs'.role[b].OfIndex? {
      assert IndexFresh(fs, fs', |fs.cb| + b - fs.nextIno);
    }
    forall b | 0 <= b < fs.nextIno ensures SameBlock(fs, fs', b) {
    }
    forall i | 0 <= i < |fs.ci| ensures SameInode(fs, fs', i, f) {
      assert i != f ==> InodeKept(fs, fs', i);
    }
    forall b: nat ensures OnDisk(fs', b) {
      assert OnDisk(fs, b);
    }
    forall g, k | 0 <= g < |fs'.files| && 0 <= k < |fs'.files[g]| ensures StoredAt(fs', g, k) {
      assert StoredAt(fs, g, k);
    }
  }

  lemma CountExt(fs: Fs, f: nat, size: nat, ino: nat)
    requires Sane(fs) && |fs.role| == fs.nextIno && DataOk(fs) && f < |fs.ci| && ino in fs.disk
    ensures var fs' := Count(fs, f, size, ino); Ext(fs, fs', f) && DataOk(fs')
  {
    var fs' := Count(fs, f, size, ino);
    forall b | 0 <= b < fs.nextIno ensures SameBlock(fs, fs', b) {
    }
    forall i | 0 <= i < |fs.ci| ensures SameInode(fs, fs', i, f) {
    }
    forall b: nat ensures OnDisk(fs', b) {
      assert OnDisk(fs, b);
    }
    forall g, k | 0 <= g < |fs'.files| && 0 <= k < |fs'.files[g]| ensures StoredAt(fs', g, k) {
      assert k < |fs.files[g]| ==> StoredAt(fs, g, k);
    }
  }

  lemma CountFields(fs: Fs, f: nat, size: nat, ino: nat)
    requires f < |fs.ci| == |fs.files| && fs.ci[f].inode.blocks < LN_NBLKS && size <= BLKSIZE
    requires forall i :: 0 <= i < |fs.ci| ==> FieldsAt(fs, i)
    ensures var fs' := Count(fs, f, size, ino);
      && fs'.ci[f].inode.size == fs.ci[f].inode.size + size
      && (forall i :: 0 <= i < |fs'.ci| ==> FieldsAt(fs', i))
      && (forall i :: 0 <= i < |fs.ci| ==> fs'.ci[i].inode.nlinks == fs.ci[i].inode.nlinks)
  {
    assert FieldsAt(fs, f);
    forall i | 0 <= i < |fs.ci| ensures FieldsAt(Count(fs, f, size, ino), i) {
      assert FieldsAt(fs, i);
    }
  }

  lemma GrewFields(fs: Fs, fs': Fs, f: nat)
    requires Grew(fs, fs', f) && forall i :: 0 <= i < |fs.ci| ==> FieldsAt(fs, i)
    ensures forall i :: 0 <= i < |fs'.ci| ==> FieldsAt(fs', i)
    ensures forall i :: 0 <= i < |fs.ci| ==> fs'.ci[i].inode.nlinks == fs.ci[i].inode.nlinks
    ensures fs'.ci[f].inode.size == fs.ci[f].inode.size && fs'.ci[f].inode.blocks == fs.ci[f].inode.blocks
  {
    forall i | 0 <= i < |fs'.ci|
      ensures FieldsAt(fs', i) && fs'.ci[i].inode.nlinks == fs.ci[i].inode.nlinks
    {
      assert FieldsAt(fs, i) && (i != f ==> InodeKept(fs, fs', i));
    }
  }

  lemma AppendExt(fs: Fs, f: nat, size: nat, ino: nat)
    requires Sane(fs) && RolesOk(fs) && SpaceOk(fs) && DataOk(fs) && f < |fs.ci| && ino in fs.disk
    requires AppendBlock(fs, f, size, ino).Some? && Grew(fs, Place(fs, f, ino).value, f)
    ensures var fs' := AppendBlock(fs, f, size, ino).value;
      RolesOk(fs') && SpaceOk(fs') && DataOk(fs') && Ext(fs, fs', f) && fs'.disk == fs.disk
  {
    var fs1 := Place(fs, f, ino).value;
    var fs' := AppendBlock(fs, f, size, ino).value;
    GrewExt(fs, fs1, f);
    forall x | 0 <= x < |fs.cb| ensures fs1.cb[x].ino == fs.cb[x].ino {
      assert IndexKept(fs, fs1, x, f);
    }
    RolesGrow(fs, fs1, f);
    CountExt(fs1, f, size, ino);
    RolesGrow(fs1, fs', f);
    ExtTrans(fs, fs1, fs', f);
  }

  lemma AppendFields(fs: Fs, f: nat, size: nat, ino: nat)
    requires Sane(fs) && FileAt(fs, f) && AppendBlock(fs, f, size, ino).Some? && Grew(fs, Place(fs, f, ino).value, f)
    requires forall i :: 0 <= i < |fs.ci| ==> FieldsAt(fs, i)
    ensures var fs' := AppendBlock(fs, f, size, ino).value;
      && fs'.ci[f].inode.size == fs.ci[f].inode.size + size
      && (forall i :: 0 <= i < |fs'.ci| ==> FieldsAt(fs', i))
      && (forall i :: 0 <= i < |fs.ci| ==> fs'.ci[i].inode.nlinks == fs.ci[i].inode.nlinks)
  {
    var fs1 := Place(fs, f, ino).value;
    GrewFields(fs, fs1, f);
    CountFields(fs1, f, size, ino);
  }

  lemma AppendOk(fs: Fs, f: nat, size: nat, ino: nat)
    requires RunInv(fs) && f < |fs.ci| && ino in fs.disk && AppendBlock(fs, f, size, ino).Some?
    ensures var fs' := AppendBlock(fs, f, size, ino).value;
      && RunInv(fs') && Ext(fs, fs', f) && fs'.disk == fs.disk
      && fs'.nextIno == fs.nextIno + IndexCost(|fs.files[f]| + 1) - IndexCost(|fs.files[f]|)
      && fs'.files == fs.files[f := fs.files[f] + [ino]]
      && fs'.ci[f].inode.size == fs.ci[f].inode.size + size
      && (forall i :: 0 <= i < |fs.ci| ==> fs'.ci[i].inode.nlinks == fs.ci[i].inode.nlinks)
  {
    AppendBlockOk(fs, f, size, ino);
    AppendExt(fs, f, size, ino);
    assert FileAt(fs, f);
    AppendFields(fs, f, size, ino);
    assert SameInode(fs, AppendBlock(fs, f, size, ino).value, 0, f);
  }

  lemma SetEntryOk(fs: Fs, entry: seq<Byte>)
    requires RunInv(fs) && |entry| == NAME_SIZE
    ensures RunInv(fs.(entry := entry)) && Ext(fs, fs.(entry := entry), |fs.ci|)
  {
    var fs' := fs.(entry := entry);
    assert forall f :: FileAt(fs, f) ==> FileAt(fs', f);
    forall b | 0 <= b < fs.nextIno ensures SameBlock(fs, fs', b) {
    }
    forall i | 0 <= i < |fs.ci| ensures SameInode(fs, fs', i, |fs.ci|) && FieldsAt(fs', i) {
      assert FieldsAt(fs, i);
    }
    RolesGrow(fs, fs', |fs.ci|);
    assert forall b: nat :: OnDisk(fs, b) ==> OnDisk(fs', b);
    assert forall f: nat, k: nat :: StoredAt(fs, f, k) ==> StoredAt(fs', f, k);
  }

  lemma CountLinkIndex(fs: Fs, f: nat)
    requires IndexInv(fs) && f < |fs.ci|
    ensures IndexInv(CountLink(fs, f))
  {
    assert FileAt(fs, f);
    CountIndexed(fs.ci[f], CountLink(fs, f).ci[f], fs.cb, fs.files[f], fs.own[f]);
    assert forall g :: FileAt(fs, g) ==> FileAt(CountLink(fs, f), g);
  }

  /** Only the inode that is linked gets one more link. */
  ghost predicate Linked(fs: Fs, fs': Fs, f: nat) {
    |fs.ci| == |fs'.ci| && forall i :: 0 <= i < |fs.ci| ==> LinkedAt(fs, fs', i, f)
  }

  ghost predicate LinkedAt(fs: Fs, fs': Fs, i: nat, f: nat) {
    && i < |fs.ci| && i < |fs'.ci|
    && fs'.ci[i].inode.nlinks == if i == f then Inc16(fs.ci[i].inode.nlinks) else fs.ci[i].inode.nlinks
  }

  lemma CountLinkOk(fs: Fs, f: nat)
    requires RunInv(fs) && f < |fs.ci|
    ensures RunInv(CountLink(fs, f)) && Ext(fs, CountLink(fs, f), |fs.ci|) && Linked(fs, CountLink(fs, f), f)
  {
    var fs' := CountLink(fs, f);
    CountLinkIndex(fs, f);
    forall b | 0 <= b < fs.nextIno ensures SameBlock(fs, fs', b) {
    }
    forall i | 0 <= i < |fs.ci|
      ensures SameInode(fs, fs', i, |fs.ci|) && FieldsAt(fs', i) && LinkedAt(fs, fs', i, f)
    {
      assert FieldsAt(fs, i);
    }
    RolesGrow(fs, fs', |fs.ci|);
    assert forall b: nat :: OnDisk(fs, b) ==> OnDisk(fs', b);
    assert forall g: nat, k: nat :: StoredAt(fs, g, k) ==> StoredAt(fs', g, k);
  }

  /** add_entry up to the link count: store the entry block and append it to the directory. */
  lemma EntryStored(fs: Fs, cur: nat, data: seq<Byte>, entry: seq<Byte>)
    requires RunInv(fs) && cur < |fs.ci| && |entry| == NAME_SIZE
    requires Store(fs.(entry := entry), data).Some?
    requires AppendBlock(Store(fs.(entry := entry), data).value, cur, NAME_SIZE, fs.nextIno).Some?
    ensures var fs' := AppendBlock(Store(fs.(entry := entry), data).value, cur, NAME_SIZE, fs.nextIno).value;
      && RunInv(fs') && Ext(fs, fs', cur) && |fs'.ci| == |fs.ci| && |data| <= BLKSIZE
      && (forall i :: 0 <= i < |fs.ci| ==> fs'.ci[i].inode.nlinks == fs.ci[i].inode.nlinks)
      && fs'.nextIno == fs.nextIno + 1 + IndexCost(|fs.files[cur]| + 1) - IndexCost(|fs.files[cur]|)
      && fs'.files == fs.files[cur := fs.files[cur] + [fs.nextIno]]
      && fs'.ci[cur].inode.size == fs.ci[cur].inode.size + 256
      && fs'.disk == fs.disk[fs.nextIno := Pad(data)]
  {
    var fs0 := fs.(entry := entry);
    SetEntryOk(fs, entry);
    StoreOk(fs0, data);
    var fs1 := Store(fs0, data).value;
    AppendOk(fs1, cur, NAME_SIZE, fs.nextIno);
    ExtNew(fs, fs0, |fs.ci|, cur);
    ExtNew(fs0, fs1, |fs.ci|, cur);
    ExtTrans(fs, fs0, fs1, cur);
    ExtTrans(fs, fs1, AppendBlock(fs1, cur, NAME_SIZE, fs.nextIno).value, cur);
  }

  /** add_entry stores one entry block, appends it to the directory, 256 bytes long, and counts one link. */
  lemma AddEntryOk(fs: Fs, cur: nat, f: nat, name: Name)
    requires RunInv(fs) && cur < |fs.ci| && f < |fs.ci| && AddEntry(fs, cur, f, name).Some?
    ensures var fs' := AddEntry(fs, cur, f, name).value;
      && RunInv(fs') && Ext(fs, fs', cur) && Linked(fs, fs', f) && |name| <= MAX_FNAME_LEN
      && fs'.nextIno == fs.nextIno + 1 + IndexCost(|fs.files[cur]| + 1) - IndexCost(|fs.files[cur]|)
      && fs'.files == fs.files[cur := fs.files[cur] + [fs.nextIno]]
      && fs'.ci[cur].inode.size == fs.ci[cur].inode.size + 256
      && fs'.disk == fs.disk[fs.nextIno := Pad(EntryBytes(fs.ci[f].ino, Strcpy(fs.entry, name)))]
  {
    var entry := Strcpy(fs.entry, name);
    var data := EntryBytes(fs.ci[f].ino, entry);
    EntryStored(fs, cur, data, entry);
    var fs2 := AppendBlock(Store(fs.(entry := entry), data).value, cur, NAME_SIZE, fs.nextIno).value;
    CountLinkOk(fs2, f);
    ExtNew(fs2, CountLink(fs2, f), |fs.ci|, cur);
    ExtTrans(fs, fs2, CountLink(fs2, f), cur);
    assert forall i: nat :: LinkedAt(fs2, CountLink(fs2, f), i, f) ==> LinkedAt(fs, CountLink(fs2, f), i, f);
  }

  /** open_file stores the chunks in order, one block each. */
  lemma OpenFileOk(fs: Fs, f: nat, chunks: seq<Chunk>, last: nat)
    requires RunInv(fs) && f < |fs.ci| && OpenFile(fs, f, chunks, last).Some?
    ensures var fs' := OpenFile(fs, f, chunks, last).value;
      RunInv(fs') && Ext(fs, fs', f) && |fs'.ci| == |fs.ci|
    decreases |chunks|
  {
    if chunks != [] {
      var fs1 := Store(fs, chunks[0]).value;
      StoreOk(fs, chunks[0]);
      var fs2 := AppendBlock(fs1, f, |chunks[0]|, fs.nextIno).value;
      AppendOk(fs1, f, |chunks[0]|, fs.nextIno);
      ExtNew(fs, fs1, |fs.ci|, f);
      ExtTrans(fs, fs1, fs2, f);
      OpenFileOk(fs2, f, chunks[1..], |chunks[0]|);
      ExtTrans(fs, fs2, OpenFile(fs, f, chunks, last).value, f);
    }
  }

  lemma OpenLinkOk(fs: Fs, f: nat, target: seq<Byte>)
    requires RunInv(fs) && f < |fs.ci| && OpenLink(fs, f, target).Some?
    ensures var fs' := OpenLink(fs, f, target).value;
      && RunInv(fs') && Ext(fs, fs', f) && |fs'.ci| == |fs.ci| && |target| < BLKSIZE
      && fs'.files == fs.files[f := fs.files[f] + [fs.nextIno]]
      && fs'.disk == fs.disk[fs.nextIno := Pad(target)]
      && fs'.ci[f].inode.size == fs.ci[f].inode.size + |target|
  {
    var fs1 := Store(fs, target).value;
    StoreOk(fs, target);
    AppendOk(fs1, f, |target|, fs.nextIno);
    ExtNew(fs, fs1, |fs.ci|, f);
    ExtTrans(fs, fs1, OpenLink(fs, f, target).value, f);
  }

  lemma {:induction false} OpenFileSameLinks(fs: Fs, f: nat, chunks: seq<Chunk>, last: nat)
    requires RunInv(fs) && f < |fs.ci| && OpenFile(fs, f, chunks, last).Some?
    ensures forall i :: 0 <= i < |fs.ci| ==>
      OpenFile(fs, f, chunks, last).value.ci[i].inode.nlinks == fs.ci[i].inode.nlinks
    decreases |chunks|
  {
    if chunks != [] {
      var fs1 := Store(fs, chunks[0]).value;
      StoreOk(fs, chunks[0]);
      AppendOk(fs1, f, |chunks[0]|, fs.nextIno);
      OpenFileSameLinks(AppendBlock(fs1, f, |chunks[0]|, fs.nextIno).value, f, chunks[1..], |chunks[0]|);
    }
  }

  lemma OpenLinkSameLinks(fs: Fs, f: nat, target: seq<Byte>)
    requires RunInv(fs) && f < |fs.ci| && OpenLink(fs, f, target).Some?
    ensures forall i :: 0 <= i < |fs.ci| ==> OpenLink(fs, f, target).value.ci[i].inode.nlinks == fs.ci[i].inode.nlinks
  {
    StoreOk(fs, target);
    AppendOk(Store(fs, target).value, f, |target|, fs.nextIno);
  }

  lemma AddFileOk(fs: Fs, cur: nat, name: Name, host: nat, chunks: seq<Chunk>)
    requires RunInv(fs) && cur < |fs.ci| && AddFile(fs, cur, name, host, chunks).Some?
    ensures RunInv(AddFile(fs, cur, name, host, chunks).value)
    ensures Ext(fs, AddFile(fs, cur, name, host, chunks).value, cur)
  {
    var fs' := AddFile(fs, cur, name, host, chunks).value;
    match Newest(fs.ci, |fs.ci|, host)
    case Some(f) => AddEntryOk(fs, cur, f, name);
    case None =>
      var f := |fs.ci|;
      var fs1 := AllocInode(fs, host, TYPE_FILE).value;
      AllocInodeOk(fs, host, TYPE_FILE);
      var fs2 := OpenFile(fs1, f, chunks, BLKSIZE).value;
      OpenFileOk(fs1, f, chunks, BLKSIZE);
      AddEntryOk(fs2, cur, f, name);
      ExtTrans(fs, fs1, fs2, f);
      ExtNew(fs, fs2, f, cur);
      ExtTrans(fs, fs2, fs', cur);
  }

  lemma AddLinkOk(fs: Fs, cur: nat, name: Name, host: nat, target: seq<Byte>)
    requires RunInv(fs) && cur < |fs.ci| && AddLink(fs, cur, name, host, target).Some?
    ensures RunInv(AddLink(fs, cur, name, host, target).value)
    ensures Ext(fs, AddLink(fs, cur, name, host, target).value, cur)
  {
    var f := |fs.ci|;
    var fs1 := AllocInode(fs, host, TYPE_LINK).value;
    AllocInodeOk(fs, host, TYPE_LINK);
    var fs2 := OpenLink(fs1, f, target).value;
    OpenLinkOk(fs1, f, target);
    AddEntryOk(fs2, cur, f, name);
    ExtTrans(fs, fs1, fs2, f);
    ExtNew(fs, fs2, f, cur);
    ExtTrans(fs, fs2, AddLink(fs, cur, name, host, target).value, cur);
  }

  lemma AddDirOk(fs: Fs, parent: nat, name: Name, host: nat, sub: Listing)
    requires RunInv(fs) && parent < |fs.ci| && AddDir(fs, parent, name, host, sub).Some?
    ensures RunInv(AddDir(fs, parent, name, host, sub).value)
    ensures Ext(fs, AddDir(fs, parent, name, host, sub).value, parent)
    decreases sub, 2
  {
    var f := |fs.ci|;
    var fs1 := AllocInode(fs, host, TYPE_DIR).value;
    AllocInodeOk(fs, host, TYPE_DIR);
    var fs2 := OpenDir(fs1, f, parent, sub).value;
    OpenDirOk(fs1, f, parent, sub);
    AddEntryOk(fs2, parent, f, name);
    ExtTrans(fs, fs1, fs2, f);
    ExtNew(fs, fs2, f, parent);
    ExtTrans(fs, fs2, AddDir(fs, parent, name, host, sub).value, parent);
  }

  lemma OpenDirOk(fs: Fs, cur: nat, parent: nat, es: Listing)
    requires RunInv(fs) && cur < |fs.ci| && parent < |fs.ci| && OpenDir(fs, cur, parent, es).Some?
    ensures RunInv(OpenDir(fs, cur, parent, es).value) && Ext(fs, OpenDir(fs, cur, parent, es).value, cur)
    decreases es, 1
  {
    var fs1 := AddEntry(fs, cur, cur, DOT).value;
    AddEntryOk(fs, cur, cur, DOT);
    var fs2 := AddEntry(fs1, cur, parent, DOTDOT).value;
    AddEntryOk(fs1, cur, parent, DOTDOT);
    WalkOk(fs2, cur, es);
    ExtTrans(fs, fs1, fs2, cur);
    ExtTrans(fs, fs2, OpenDir(fs, cur, parent, es).value, cur);
  }

  lemma VisitOk(fs: Fs, cur: nat, name: Name, node: Node)
    requires RunInv(fs) && cur < |fs.ci| && Visit(fs, cur, name, node).Some?
    ensures RunInv(Visit(fs, cur, name, node).value) && Ext(fs, Visit(fs, cur, name, node).value, cur)
    decreases node, 3
  {
    if Hidden(name) || node.Special? {
      ExtRefl(fs, cur);
    } else {
      match node
      case File(host, chunks) => AddFileOk(fs, cur, name, host, chunks);
      case Link(host, target) => AddLinkOk(fs, cur, name, host, target);
      case Dir(host, sub) => AddDirOk(fs, cur, name, host, sub);
    }
  }

  /** Whatever the source directory holds, the walk keeps the invariant and loses nothing. */
  lemma WalkOk(fs: Fs, cur: nat, es: Listing)
    requires RunInv(fs) && cur < |fs.ci| && Walk(fs, cur, es).Some?
    ensures RunInv(Walk(fs, cur, es).value) && Ext(fs, Walk(fs, cur, es).value, cur)
    decreases es, 0
  {
    match es
    case End => ExtRefl(fs, cur);
    case Item(name, node, rest) =>
      var fs1 := Visit(fs, cur, name, node).value;
      VisitOk(fs, cur, name, node);
      WalkOk(fs1, cur, rest);
      ExtTrans(fs, fs1, Walk(fs1, cur, rest).value, cur);
  }

  lemma CreateOk(bytes: nat)
    requires Create(bytes).Some?
    ensures RunInv(Create(bytes).value)
  {
    var fs := Create(bytes).value;
    assert FileAt(fs, 0) && InoAt(fs, 0) && FieldsAt(fs, 0);
    forall b | 0 <= b < fs.nextIno ensures UsedAt(fs, b) {
    }
    forall b | 2 <= b < 2 + FreemapBlocks(fs.ninos) ensures MetaAt(fs, b) {
    }
    forall b: nat ensures OnDisk(fs, b) {
    }
  }
}
