/** File system calls of several processes, interleaved.  A step is what a process does to
    one block while it holds its buffer, or to the in-memory inode it has locked; between
    any two steps of one process others may run.  They share bitmap blocks and inode
    blocks, and a call may end before or after any other. */
module FsSteps {
  import opened Blocks
  import opened FsModel
  import opened FsFiles

  /** busy are the locked inodes; spare maps a block that is allocated and in no inode to
      the inode whose holder has it. */
  datatype Fs = Fs(disk: Disk, ino: Table, busy: set<nat>, spare: map<nat, nat>)

  /** What the holder of inode i does: ilock and iunlock, the two halves of balloc, the
      stores of bmap in the inode and in its indirect block, writing a data block, setting
      the size, iupdate, giving up all block numbers (as itrunc does, which never uses one
      again) and bfree of one. */
  datatype Act =
    | Lock(i: nat) | Unlock(i: nat) | Mark(i: nat, b: uint) | Zero(i: nat, b: uint) | SetAddr(i: nat, k: nat, b: uint)
    | SetEntry(i: nat, j: nat, b: uint) | WriteBlock(i: nat, bn: nat, x: Block) | SetSize(i: nat, size: uint)
    | Update(i: nat) | Drop(i: nat) | Release(i: nat, b: uint)

  /** Inode i is as calls leave it: no holes, and on disk what it is in memory. */
  ghost predicate Resting(sb: Super, s: Fs, i: nat)
    requires sb.Valid() && |s.disk| == sb.size && |s.ino| == sb.ninodes && i < sb.ninodes
  {
    NoHoles(s.disk, s.ino[i]) && Synced(sb, s.disk, s.ino, i)
  }

  ghost predicate Sized(sb: Super, s: Fs) {
    sb.Valid() && |s.disk| == sb.size && |s.ino| == sb.ninodes
  }

  /** Block numbers are stored once or are spare with somebody; inodes nobody has locked
      are at rest. */
  ghost predicate FsOk(sb: Super, s: Fs) {
    && Sized(sb, s) && Owned(sb, s.disk, s.ino, s.spare.Keys)
    && (forall b :: b in s.spare ==> s.spare[b] in s.busy)
    && (forall i: nat :: i < sb.ninodes && i !in s.busy ==> Resting(sb, s, i))
  }

  ghost predicate Has(s: Fs, i: nat, b: nat) { b in s.spare && s.spare[b] == i && b < |s.disk| }

  ghost predicate HasZeroed(s: Fs, i: nat, b: nat) { Has(s, i, b) && s.disk[b] == ZeroBlock() }

  ghost predicate Enabled(sb: Super, s: Fs, a: Act)
    requires Sized(sb, s)
  {
    && a.i < sb.ninodes && (a.i in s.busy <==> !a.Lock?)
    && match a
       case Lock(_) => true
       case Unlock(i) => Resting(sb, s, i) && forall b :: b in s.spare ==> s.spare[b] != i
       case Mark(_, b) => b < sb.size && !Used(sb, s.disk, b)
       case Zero(i, b) => Has(s, i, b)
       case SetAddr(i, k, b) => k <= NDIRECT && s.ino[i].addrs[k] == 0 && HasZeroed(s, i, b)
       case SetEntry(i, j, b) =>
         var c := s.ino[i].addrs[NDIRECT];
         j < NINDIRECT && 0 < c < |s.disk| && Word(s.disk[c], j) == 0 && HasZeroed(s, i, b)
       case WriteBlock(i, bn, _) => bn < MAXFILE && 0 < DataBlock(s.disk, s.ino[i], bn) < |s.disk|
       case SetSize(_, _) => true
       case Update(_) => true
       case Drop(_) => true
       case Release(i, b) => Has(s, i, b)
  }

  datatype Write = NoWrite | Write(b: nat, x: Block)

  /** The block a step writes, if any. */
  ghost function Writes(sb: Super, s: Fs, a: Act): Write
    requires Sized(sb, s) && Enabled(sb, s, a)
  {
    match a
    case Mark(_, b) => Write(sb.Bblock(b), SetBit(s.disk[sb.Bblock(b)], b % BPB))
    case Zero(_, b) => Write(b, ZeroBlock())
    case SetEntry(i, j, b) => var c := s.ino[i].addrs[NDIRECT]; Write(c, PutWord(s.disk[c], j, b))
    case WriteBlock(i, bn, x) => Write(DataBlock(s.disk, s.ino[i], bn), x)
    case Update(i) => Write(sb.Iblock(i), PutInode(s.disk[sb.Iblock(i)], i % IPB, s.ino[i], 16))
    case Release(_, b) => Write(sb.Bblock(b), ClearBit(s.disk[sb.Bblock(b)], b % BPB))
    case _ => NoWrite
  }

  function Written(disk: Disk, w: Write): (r: Disk)
    ensures |r| == |disk|
  {
    if w.Write? && w.b < |disk| then disk[w.b := w.x] else disk
  }

  /** The in-memory inode after a step of its holder. */
  function InodeAfter(ip: Inode, a: Act): Inode {
    match a
    case SetAddr(_, k, b) => if k <= NDIRECT then WithAddr(ip, k, b) else ip
    case SetSize(_, size) => ip.(size := size)
    case Drop(_) => ip.(addrs := NoAddrs)
    case _ => ip
  }

  ghost function SpareAfter(s: Fs, a: Act): map<nat, nat>
    requires a.i < |s.ino|
  {
    match a
    case Mark(i, b) => s.spare[b as nat := i]
    case SetAddr(_, _, b) => s.spare - {b as nat}
    case SetEntry(_, _, b) => s.spare - {b as nat}
    case Drop(i) => s.spare + map b | b in Remaining(s.disk, s.ino[i], 0) :: i
    case Release(_, b) => s.spare - {b as nat}
    case _ => s.spare
  }

  ghost function Next(sb: Super, s: Fs, a: Act): Fs
    requires Sized(sb, s) && Enabled(sb, s, a)
  {
    Fs(Written(s.disk, Writes(sb, s, a)), s.ino[a.i := InodeAfter(s.ino[a.i], a)],
       if a.Lock? then s.busy + {a.i} else if a.Unlock? then s.busy - {a.i} else s.busy, SpareAfter(s, a))
  }

  // ---- what the others see ---------------------------------------------------------------

  /** File m: its inode, block numbers, bytes and dinode are the same. */
  ghost predicate SameFile(sb: Super, disk: Disk, ino: Table, disk': Disk, ino': Table, m: nat)
    requires sb.Valid() && |disk| == |disk'| == sb.size && |ino| == |ino'| == sb.ninodes && m < sb.ninodes
  {
    && ino'[m] == ino[m] && DiskInode(sb, disk', m) == DiskInode(sb, disk, m)
    && (forall k {:trigger Slot(disk', ino'[m], k)} :: 0 <= k < NSLOTS ==>
          Slot(disk', ino'[m], k) == Slot(disk, ino[m], k))
    && (forall p {:trigger FileByte(disk', ino'[m], p)} :: 0 <= p < MAXFILE * BSIZE ==>
          FileByte(disk', ino'[m], p) == FileByte(disk, ino[m], p))
  }

  /** Everything the holder of inode m relies on is the same: the file, whether it is locked,
      and the spare blocks it has. */
  ghost predicate SameFor(sb: Super, s: Fs, s': Fs, m: nat)
    requires Sized(sb, s) && Sized(sb, s') && m < sb.ninodes
  {
    && SameFile(sb, s.disk, s.ino, s'.disk, s'.ino, m) && (m in s'.busy <==> m in s.busy)
    && (forall b :: b in s.spare && s.spare[b] == m ==>
          b in s'.spare && s'.spare[b] == m && b < sb.size && s'.disk[b] == s.disk[b])
    && (forall b :: b in s'.spare && s'.spare[b] == m ==> b in s.spare && s.spare[b] == m)
  }

  /** What a step guarantees: block numbers stay stored once or spare, and every other
      file is the same. */
  ghost predicate Kept(sb: Super, s: Fs, s': Fs, i: nat) {
    && Sized(sb, s) && Sized(sb, s') && Owned(sb, s'.disk, s'.ino, s'.spare.Keys)
    && forall m: nat :: m < sb.ninodes && m != i ==> SameFile(sb, s.disk, s.ino, s'.disk, s'.ino, m)
  }

  lemma FileSame(sb: Super, disk: Disk, ino: Table, disk': Disk, ino': Table, i: int, k: int, m: nat)
    requires sb.Valid() && |disk| == |disk'| == sb.size && |ino| == |ino'| == sb.ninodes && m < sb.ninodes && m != i
    requires SameSlotsBut(disk, ino, disk', ino', i, k) && SameBytes(disk, ino, disk', ino') && ino'[m] == ino[m]
    requires SameInodeBlocks(sb, disk, disk')
    ensures SameFile(sb, disk, ino, disk', ino', m)
  {
    hide Slot; hide FileByte; hide GetInode;
    assert sb.Iblock(m) < sb.bmapstart;
    forall k' | 0 <= k' < NSLOTS ensures Slot(disk', ino'[m], k') == Slot(disk, ino[m], k') {
      assert InTable(ino, m, k');
    }
  }

  /** A bit of the map is set. */
  lemma MarkKept(sb: Super, s: Fs, a: Act)
    requires FsOk(sb, s) && Enabled(sb, s, a) && a.Mark?
    ensures Kept(sb, s, Next(sb, s, a), a.i) && a.b as nat !in s.spare
  {
    hide Slot; hide FileByte; hide Used; hide SlotsInRange; hide SlotsUnique; hide Holds; hide SetBit; hide DiskInode;
    BblockInRange(sb, a.b);
    var s' := Next(sb, s, a);
    assert s'.disk == Marked(sb, s.disk, a.b) && s'.ino == s.ino && s'.spare.Keys == s.spare.Keys + {a.b as nat};
    forall c: nat | c < sb.size ensures Used(sb, s'.disk, c) == (c == a.b || Used(sb, s.disk, c)) {
      UsedAfterMark(sb, s.disk, a.b, c);
    }
    DataAreaKept(sb, s.disk, s.ino, s.spare.Keys, s'.disk);
    OwnedRemark(sb, s.disk, s.ino, s'.disk, s.spare.Keys, s'.spare.Keys, a.b);
    forall m: nat | m < sb.ninodes && m != a.i ensures SameFile(sb, s.disk, s.ino, s'.disk, s'.ino, m) {
      FileSame(sb, s.disk, s.ino, s'.disk, s'.ino, -1, -1, m);
    }
  }

  /** A spare block is overwritten. */
  lemma ZeroKept(sb: Super, s: Fs, a: Act)
    requires FsOk(sb, s) && Enabled(sb, s, a) && a.Zero?
    ensures Kept(sb, s, Next(sb, s, a), a.i)
  {
    hide Slot; hide FileByte; hide Used; hide SlotsUnique; hide Holds; hide ZeroBlock;
    hide DiskInode;
    var s' := Next(sb, s, a);
    assert s'.disk == s.disk[a.b := ZeroBlock()] && s'.ino == s.ino;
    forall i, k | InTable(s.ino, i, k) && Slot(s.disk, s.ino[i], k) != 0 ensures Slot(s.disk, s.ino[i], k) != a.b {
      assert GoodNumber(sb, s.disk, s.spare.Keys, Slot(s.disk, s.ino[i], k));
    }
    forall i | 0 <= i < |s.ino| && 0 < Slot(s.disk, s.ino[i], NDIRECT) < |s.disk|
      ensures s'.disk[Slot(s.disk, s.ino[i], NDIRECT)] == s.disk[Slot(s.disk, s.ino[i], NDIRECT)]
    {
      assert InTable(s.ino, i, NDIRECT);
    }
    SlotsKept(s.disk, s.ino, s'.disk);
    DataBlockBitsKept(sb, s.disk, a.b, ZeroBlock());
    OwnedSame(sb, s.disk, s.ino, s'.disk, s.ino, s.spare.Keys);
    BytesKept(s.disk, s.ino, s'.disk, s.ino, -1, -1);
    forall m: nat | m < sb.ninodes && m != a.i ensures SameFile(sb, s.disk, s.ino, s'.disk, s'.ino, m) {
      FileSame(sb, s.disk, s.ino, s'.disk, s'.ino, -1, -1, m);
    }
  }

  lemma SetAddrKept(sb: Super, s: Fs, a: Act)
    requires FsOk(sb, s) && Enabled(sb, s, a) && a.SetAddr?
    ensures Kept(sb, s, Next(sb, s, a), a.i)
  {
    hide Slot; hide FileByte; hide Used; hide SlotsInRange; hide SlotsUnique; hide Holds; hide ZeroBlock;
    hide DiskInode;
    StoreAddrKeeps(sb, s.disk, s.ino, s.spare.Keys, a.i, a.k, a.b);
    var s' := Next(sb, s, a);
    assert s'.disk == s.disk && s'.spare.Keys == s.spare.Keys - {a.b as nat};
    forall m: nat | m < sb.ninodes && m != a.i ensures SameFile(sb, s.disk, s.ino, s'.disk, s'.ino, m) {
      FileSame(sb, s.disk, s.ino, s'.disk, s'.ino, a.i, a.k, m);
    }
  }

  lemma SetEntryKept(sb: Super, s: Fs, a: Act)
    requires FsOk(sb, s) && Enabled(sb, s, a) && a.SetEntry?
    ensures Kept(sb, s, Next(sb, s, a), a.i)
  {
    hide Slot; hide FileByte; hide Used; hide SlotsInRange; hide SlotsUnique; hide Holds; hide ZeroBlock;
    hide DiskInode;
    hide Word; hide PutWord;
    var c := s.ino[a.i].addrs[NDIRECT];
    StoreEntryKeeps(sb, s.disk, s.ino, s.spare.Keys, a.i, a.j, a.b);
    var s' := Next(sb, s, a);
    assert s'.ino == s.ino && s'.spare.Keys == s.spare.Keys - {a.b as nat};
    forall m: nat | m < sb.ninodes && m != a.i ensures SameFile(sb, s.disk, s.ino, s'.disk, s'.ino, m) {
      FileSame(sb, s.disk, s.ino, s'.disk, s'.ino, a.i, NDIRECT + 1 + a.j, m);
    }
  }

  lemma WriteKept(sb: Super, s: Fs, a: Act)
    requires FsOk(sb, s) && Enabled(sb, s, a) && a.WriteBlock?
    ensures Kept(sb, s, Next(sb, s, a), a.i)
  {
    hide Slot; hide FileByte; hide Used; hide SlotsInRange; hide SlotsUnique; hide Holds; hide GetInode;
    var b := DataBlock(s.disk, s.ino[a.i], a.bn);
    WriteDataKeeps(sb, s.disk, s.ino, s.spare.Keys, a.i, a.bn, a.x);
    var s' := Next(sb, s, a);
    assert s'.disk == s.disk[b := a.x] && s'.ino == s.ino;
    forall m: nat | m < sb.ninodes && m != a.i ensures SameFile(sb, s.disk, s.ino, s'.disk, s'.ino, m) {
      assert sb.Iblock(m) < sb.bmapstart;
      forall k | 0 <= k < NSLOTS ensures Slot(s'.disk, s'.ino[m], k) == Slot(s.disk, s.ino[m], k) {
        assert InTable(s.ino, m, k);
      }
    }
  }

  lemma MemoryKept(sb: Super, s: Fs, a: Act)
    requires FsOk(sb, s) && Enabled(sb, s, a) && (a.SetSize? || a.Lock? || a.Unlock? || a.Drop?)
    ensures Kept(sb, s, Next(sb, s, a), a.i) && (a.Drop? ==> s.spare.Keys !! Remaining(s.disk, s.ino[a.i], 0))
  {
    hide Slot; hide FileByte; hide Used; hide SlotsInRange; hide SlotsUnique; hide Holds; hide DiskInode;
    hide Remaining;
    var s' := Next(sb, s, a);
    if a.SetSize? { ResizeKeeps(sb, s.disk, s.ino, s.spare.Keys, a.i, a.size); }
    if a.Drop? {
      DropFile(sb, s.disk, s.ino, s.spare.Keys, a.i, s'.ino[a.i]);
      assert s'.spare.Keys == s.spare.Keys + Remaining(s.disk, s.ino[a.i], 0);
    }
    assert a.Lock? || a.Unlock? ==> s'.ino == s.ino;
  }

  lemma UpdateKept(sb: Super, s: Fs, a: Act)
    requires FsOk(sb, s) && Enabled(sb, s, a) && a.Update?
    ensures Kept(sb, s, Next(sb, s, a), a.i)
  {
    hide Slot; hide FileByte; hide Used; hide SlotsInRange; hide SlotsUnique; hide Holds; hide GetInode; hide PutInode;
    var at := sb.Iblock(a.i);
    var x := PutInode(s.disk[at], a.i % IPB, s.ino[a.i], 16);
    MetaWriteKeeps(sb, s.disk, s.ino, s.spare.Keys, at, x);
    var s' := Next(sb, s, a);
    assert s'.disk == s.disk[at := x] && s'.ino == s.ino;
    forall m: nat | m < sb.ninodes && m != a.i ensures SameFile(sb, s.disk, s.ino, s'.disk, s'.ino, m) {
      InodeRoundTrip(s.disk[at], a.i % IPB, s.ino[a.i], m % IPB);
      forall k | 0 <= k < NSLOTS ensures Slot(s'.disk, s'.ino[m], k) == Slot(s.disk, s.ino[m], k) {
        assert InTable(s.ino, m, k);
      }
    }
  }

  lemma ReleaseKept(sb: Super, s: Fs, a: Act)
    requires FsOk(sb, s) && Enabled(sb, s, a) && a.Release?
    ensures Kept(sb, s, Next(sb, s, a), a.i)
  {
    hide Slot; hide FileByte; hide Used; hide SlotsInRange; hide SlotsUnique; hide Holds; hide ClearBit; hide DiskInode;
    FreeKeeps(sb, s.disk, s.ino, s.spare.Keys, a.b);
    BblockInRange(sb, a.b);
    var s' := Next(sb, s, a);
    assert s'.disk == Unmarked(sb, s.disk, a.b) && s'.ino == s.ino && s'.spare.Keys == s.spare.Keys - {a.b as nat};
    forall m: nat | m < sb.ninodes && m != a.i ensures SameFile(sb, s.disk, s.ino, s'.disk, s'.ino, m) {
      FileSame(sb, s.disk, s.ino, s'.disk, s'.ino, -1, -1, m);
    }
  }

  lemma StepKept(sb: Super, s: Fs, a: Act)
    requires FsOk(sb, s) && Enabled(sb, s, a)
    ensures Kept(sb, s, Next(sb, s, a), a.i)
  {
    hide FsOk; hide Enabled; hide Next; hide Kept;
    match a
    case Lock(_) => MemoryKept(sb, s, a);
    case Unlock(_) => MemoryKept(sb, s, a);
    case SetSize(_, _) => MemoryKept(sb, s, a);
    case Drop(_) => MemoryKept(sb, s, a);
    case Mark(_, _) => MarkKept(sb, s, a);
    case Zero(_, _) => ZeroKept(sb, s, a);
    case SetAddr(_, _, _) => SetAddrKept(sb, s, a);
    case SetEntry(_, _, _) => SetEntryKept(sb, s, a);
    case WriteBlock(_, _, _) => WriteKept(sb, s, a);
    case Update(_) => UpdateKept(sb, s, a);
    case Release(_, _) => ReleaseKept(sb, s, a);
  }

  // ---- every step keeps the file system in order ---------------------------------------------

  /** Spare blocks come and go only with their holder. */
  lemma SpareKept(sb: Super, s: Fs, a: Act, b: nat)
    requires FsOk(sb, s) && Enabled(sb, s, a)
    ensures var s' := Next(sb, s, a).spare;
            && (b in s' ==> (b in s.spare && s'[b] == s.spare[b]) || s'[b] == a.i)
            && (b in s.spare && s.spare[b] != a.i ==> b in s' && s'[b] == s.spare[b])
            && (a.Unlock? ==> s' == s.spare)
  {
    hide FsOk; hide Resting; hide Remaining; hide Used; hide Word; hide DataBlock;
    if a.Mark? { MarkKept(sb, s, a); }
    if a.Drop? { MemoryKept(sb, s, a); }
  }

  lemma RestingKept(sb: Super, s: Fs, s': Fs, m: nat)
    requires Sized(sb, s) && Sized(sb, s') && m < sb.ninodes && Resting(sb, s, m)
    requires SameFile(sb, s.disk, s.ino, s'.disk, s'.ino, m)
    ensures Resting(sb, s', m)
  {
    hide Slot; hide FileByte; hide DiskInode;
    forall bn | 0 <= bn < MAXFILE && bn * BSIZE < s'.ino[m].size ensures DataBlock(s'.disk, s'.ino[m], bn) != 0 {
      assert DataBlock(s.disk, s.ino[m], bn) != 0;
      assert 0 <= DataSlot(bn) < NSLOTS;
    }
  }

  /** Every step of every process keeps block ownership, and the inodes that are not locked
      at rest. */
  lemma StepKeeps(sb: Super, s: Fs, a: Act)
    requires FsOk(sb, s) && Enabled(sb, s, a)
    ensures FsOk(sb, Next(sb, s, a))
  {
    hide Owned; hide Resting; hide SameFile; hide Writes; hide SpareAfter; hide Used; hide Word; hide DataBlock;
    hide HasZeroed;
    StepKept(sb, s, a);
    var s' := Next(sb, s, a);
    forall b | b in s'.spare ensures s'.spare[b] in s'.busy { SpareKept(sb, s, a, b); }
    forall i: nat | i < sb.ninodes && i !in s'.busy ensures Resting(sb, s', i) {
      if i != a.i { RestingKept(sb, s, s', i); } else { UnlockedRests(sb, s, a); }
    }
  }

  lemma UnlockedRests(sb: Super, s: Fs, a: Act)
    requires FsOk(sb, s) && Enabled(sb, s, a) && a.Unlock?
    ensures Resting(sb, Next(sb, s, a), a.i)
  {
    assert Next(sb, s, a).ino == s.ino;
  }

  /** When nobody is at work, the file system is as the code's calls leave it. */
  lemma IdleIsValid(sb: Super, s: Fs)
    requires FsOk(sb, s) && s.busy == {}
    ensures FsInv(sb, s.disk, s.ino)
  {
    hide Owned; hide NoHoles; hide Synced;
    assert s.spare.Keys == {};
    forall i: nat | i < sb.ninodes ensures NoHoles(s.disk, s.ino[i]) && Synced(sb, s.disk, s.ino, i) {
      assert Resting(sb, s, i);
    }
  }

  lemma ValidIsOk(sb: Super, disk: Disk, ino: Table)
    requires FsInv(sb, disk, ino)
    ensures FsOk(sb, Fs(disk, ino, {}, map[]))
  {
    hide SlotsInRange; hide SlotsUnique; hide Holds; hide Used; hide NoHoles; hide Synced;
    var s := Fs(disk, ino, {}, map[]);
    assert s.spare.Keys == {};
    forall i: nat | i < sb.ninodes ensures Resting(sb, s, i) {
      assert NoHoles(disk, ino[i]) && Synced(sb, disk, ino, i);
    }
  }

  // ---- steps of different holders do not interfere ---------------------------------------------

  /** A step writes inode, bitmap or data blocks, and no spare block of another. */
  lemma WriteTarget(sb: Super, s: Fs, a: Act)
    requires FsOk(sb, s) && Enabled(sb, s, a) && Writes(sb, s, a).Write?
    ensures var b := Writes(sb, s, a).b; sb.inodestart <= b < sb.size && (b in s.spare ==> s.spare[b] == a.i)
  {
    hide Used; hide SlotsUnique; hide Holds; hide Word;
    match a
    case Mark(_, b) => BblockInRange(sb, b);
    case Release(_, b) => BblockInRange(sb, b);
    case Zero(_, b) =>
    case SetEntry(i, j, b) =>
      assert Slot(s.disk, s.ino[i], NDIRECT) == s.ino[i].addrs[NDIRECT];
      assert GoodNumber(sb, s.disk, s.spare.Keys, Slot(s.disk, s.ino[i], NDIRECT));
    case WriteBlock(i, bn, _) =>
      assert InTable(s.ino, i, DataSlot(bn));
      assert GoodNumber(sb, s.disk, s.spare.Keys, Slot(s.disk, s.ino[i], DataSlot(bn)));
    case Update(i) =>
  }

  /** A step of the holder of one inode changes nothing that the holder of another relies on. */
  lemma OthersUnaffected(sb: Super, s: Fs, a: Act, m: nat)
    requires FsOk(sb, s) && Enabled(sb, s, a) && m < sb.ninodes && m != a.i
    ensures Sized(sb, Next(sb, s, a)) && SameFor(sb, s, Next(sb, s, a), m)
  {
    hide Owned; hide Resting; hide SameFile; hide Writes; hide SpareAfter; hide Used; hide Word; hide DataBlock;
    hide HasZeroed;
    StepKept(sb, s, a);
    var s' := Next(sb, s, a);
    forall b | b in s.spare && s.spare[b] == m
      ensures b in s'.spare && s'.spare[b] == m && b < sb.size && s'.disk[b] == s.disk[b]
    {
      SpareKept(sb, s, a, b);
      SpareInRange(sb, s, b);
      if Writes(sb, s, a).Write? { WriteTarget(sb, s, a); }
    }
    forall b | b in s'.spare && s'.spare[b] == m ensures b in s.spare && s.spare[b] == m { SpareKept(sb, s, a, b); }
  }

  lemma SpareInRange(sb: Super, s: Fs, b: nat)
    requires FsOk(sb, s) && b in s.spare
    ensures sb.datastart <= b < sb.size
  {
  }

  /** So what one holder can do next, it can still do after a step of another, except to
      take a bit of the map that the other has just taken. */
  lemma OthersDisableNothing(sb: Super, s: Fs, a: Act, a': Act)
    requires FsOk(sb, s) && Enabled(sb, s, a) && Enabled(sb, s, a') && a'.i != a.i && !a'.Mark?
    ensures Sized(sb, Next(sb, s, a)) && Enabled(sb, Next(sb, s, a), a')
  {
    hide Owned; hide Writes; hide SpareAfter; hide Used; hide FileByte; hide Next; hide DiskInode;
    OthersUnaffected(sb, s, a, a'.i);
    var s' := Next(sb, s, a);
    match a'
    case Unlock(i) => RestingKept(sb, s, s', i);
    case SetEntry(i, j, _) =>
      assert Slot(s'.disk, s'.ino[i], NDIRECT + 1 + j) == Slot(s.disk, s.ino[i], NDIRECT + 1 + j);
    case WriteBlock(i, bn, _) =>
      assert Slot(s'.disk, s'.ino[i], DataSlot(bn)) == Slot(s.disk, s.ino[i], DataSlot(bn));
    case _ =>
  }
}
