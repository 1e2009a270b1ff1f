/** The on-disk structures of kernel/fs.c: the free bitmap, inodes with direct
    and indirect block numbers, and what it means for every block to have
    exactly one owner. */
module FsModel {
  import opened Blocks

  const NDIRECT := 12
  const NINDIRECT := 256
  const MAXFILE := 268                // NDIRECT + NINDIRECT
  const IPB := 16                     // BSIZE / sizeof(struct dinode)
  const NSLOTS := 269                 // direct, the indirect pointer, indirect entries

  type Disk = seq<Block>
  type Addrs = a: seq<uint> | |a| == 13 witness seq(13, i => 0)

  /** The superblock fields in use; datastart is size - nblocks. */
  datatype Super = Super(size: nat, ninodes: nat, inodestart: nat, bmapstart: nat, datastart: nat)
  {
    predicate Valid() {
      && 1 <= inodestart && inodestart + ninodes / IPB < bmapstart
      && bmapstart + size / BPB < datastart <= size < UINT_LIMIT
    }

    function Bblock(b: nat): nat {
      b / BPB + bmapstart
    }

    function Iblock(inum: nat): nat {
      inum / IPB + inodestart
    }
  }

  /** struct dinode: `kind` packs type and major, `links` packs minor and nlink. */
  datatype Inode = Inode(kind: uint, links: uint, size: uint, addrs: Addrs)

  type Table = seq<Inode>

  // ---- slots --------------------------------------------------------------

  /** The k-th place of an inode where a block number is stored: slots 0..11 are
      direct, slot 12 is the indirect pointer, slots 13.. are its entries. */
  function Slot(disk: Disk, ip: Inode, k: nat): uint
    requires k < NSLOTS
  {
    if k <= NDIRECT then ip.addrs[k]
    else if ip.addrs[NDIRECT] == 0 || ip.addrs[NDIRECT] >= |disk| then 0
    else Word(disk[ip.addrs[NDIRECT]], k - NDIRECT - 1)
  }

  /** The slot holding the n-th data block of a file. */
  function DataSlot(bn: nat): nat {
    if bn < NDIRECT then bn else bn + 1
  }

  function DataBlock(disk: Disk, ip: Inode, bn: nat): uint
    requires bn < MAXFILE
  {
    Slot(disk, ip, DataSlot(bn))
  }

  predicate InTable(ino: Table, i: int, k: int) {
    0 <= i < |ino| && 0 <= k < NSLOTS
  }

  // ---- the free bitmap ----------------------------------------------------

  predicate Used(sb: Super, disk: Disk, b: nat)
    requires sb.Valid() && |disk| == sb.size && b < sb.size
  {
    Bit(disk[sb.Bblock(b)], b % BPB)
  }

  lemma BblockInRange(sb: Super, b: nat)
    requires sb.Valid() && b < sb.size
    ensures sb.bmapstart <= sb.Bblock(b) < sb.datastart
  {
  }

  function Marked(sb: Super, disk: Disk, b: nat): Disk
    requires sb.Valid() && |disk| == sb.size && b < sb.size
  {
    disk[sb.Bblock(b) := SetBit(disk[sb.Bblock(b)], b % BPB)]
  }

  function Unmarked(sb: Super, disk: Disk, b: nat): Disk
    requires sb.Valid() && |disk| == sb.size && b < sb.size
  {
    disk[sb.Bblock(b) := ClearBit(disk[sb.Bblock(b)], b % BPB)]
  }

  /** What balloc leaves on disk: block b marked and zeroed. */
  function Allocated(sb: Super, disk: Disk, b: nat): Disk
    requires sb.Valid() && |disk| == sb.size && b < sb.size
  {
    Marked(sb, disk, b)[b := ZeroBlock()]
  }

  // ---- ownership ------------------------------------------------------------

  ghost predicate Holds(disk: Disk, ino: Table, b: nat) {
    exists i, k :: InTable(ino, i, k) && Slot(disk, ino[i], k) == b
  }

  predicate GoodNumber(sb: Super, disk: Disk, spare: set<nat>, b: nat)
    requires sb.Valid() && |disk| == sb.size
  {
    sb.datastart <= b < sb.size && Used(sb, disk, b) && b !in spare
  }

  ghost predicate SlotsInRange(sb: Super, disk: Disk, ino: Table, spare: set<nat>)
    requires sb.Valid() && |disk| == sb.size
  {
    forall i, k {:trigger Slot(disk, ino[i], k)} :: InTable(ino, i, k) && Slot(disk, ino[i], k) != 0 ==>
      GoodNumber(sb, disk, spare, Slot(disk, ino[i], k))
  }

  ghost predicate SlotsUnique(disk: Disk, ino: Table) {
    forall i, k, i', k' {:trigger Slot(disk, ino[i], k), Slot(disk, ino[i'], k')} ::
      (&& InTable(ino, i, k) && InTable(ino, i', k') && Slot(disk, ino[i], k) != 0
       && Slot(disk, ino[i], k) == Slot(disk, ino[i'], k')) ==> i == i' && k == k'
  }

  /** Every block number stored in an inode is a data block, marked in the
      bitmap and stored in exactly one place; every marked data block is stored
      somewhere, except the spare ones (allocated, not yet stored). */
  ghost predicate Owned(sb: Super, disk: Disk, ino: Table, spare: set<nat>) {
    && sb.Valid() && |disk| == sb.size
    && (forall b :: 0 <= b < sb.datastart ==> Used(sb, disk, b))
    && (forall b :: b in spare ==> sb.datastart <= b < sb.size && Used(sb, disk, b))
    && SlotsInRange(sb, disk, ino, spare)
    && SlotsUnique(disk, ino)
    && (forall b :: sb.datastart <= b < sb.size && Used(sb, disk, b) && b !in spare ==> Holds(disk, ino, b))
  }

  // ---- small changes of slots and bits ---------------------------------------

  ghost predicate SameSlotsBut(disk: Disk, ino: Table, disk': Disk, ino': Table, i0: int, k0: int) {
    && |ino| == |ino'|
    && forall i, k {:trigger Slot(disk, ino[i], k)} {:trigger Slot(disk', ino'[i], k)} ::
         InTable(ino, i, k) && !(i == i0 && k == k0) ==> Slot(disk', ino'[i], k) == Slot(disk, ino[i], k)
  }

  ghost predicate SameSlots(disk: Disk, ino: Table, disk': Disk, ino': Table) {
    SameSlotsBut(disk, ino, disk', ino', -1, -1)
  }

  ghost predicate SameUsedBut(sb: Super, disk: Disk, disk': Disk, b0: int)
    requires sb.Valid() && |disk| == |disk'| == sb.size
  {
    forall b {:trigger Used(sb, disk, b)} {:trigger Used(sb, disk', b)} ::
      0 <= b < sb.size && b != b0 ==> Used(sb, disk', b) == Used(sb, disk, b)
  }

  /** A spare block is stored in an empty slot. */
  lemma OwnedAttach(sb: Super, disk: Disk, ino: Table, disk': Disk, ino': Table, spare: set<nat>, i0: nat, k0: nat)
    requires Owned(sb, disk, ino, spare) && |disk'| == sb.size
    requires InTable(ino, i0, k0) && SameSlotsBut(disk, ino, disk', ino', i0, k0) && SameUsedBut(sb, disk, disk', -1)
    requires Slot(disk, ino[i0], k0) == 0 && Slot(disk', ino'[i0], k0) in spare
    ensures Owned(sb, disk', ino', spare - {Slot(disk', ino'[i0], k0)})
  {
  }

  lemma OwnedSame(sb: Super, disk: Disk, ino: Table, disk': Disk, ino': Table, spare: set<nat>)
    requires Owned(sb, disk, ino, spare) && |disk'| == sb.size
    requires SameSlots(disk, ino, disk', ino') && SameUsedBut(sb, disk, disk', -1)
    ensures Owned(sb, disk', ino', spare)
  {
  }

  /** One bit of the map changes: block b0 starts or stops being spare. */
  lemma OwnedRemark(sb: Super, disk: Disk, ino: Table, disk': Disk, spare: set<nat>, spare': set<nat>, b0: nat)
    requires Owned(sb, disk, ino, spare) && |disk'| == sb.size && b0 < sb.size
    requires SameSlots(disk, ino, disk', ino) && SameUsedBut(sb, disk, disk', b0)
    requires || (!Used(sb, disk, b0) && Used(sb, disk', b0) && spare' == spare + {b0})
             || (b0 in spare && !Used(sb, disk', b0) && spare' == spare - {b0})
    ensures Owned(sb, disk', ino, spare')
  {
    hide Slot; hide Used;
    forall b | sb.datastart <= b < sb.size && Used(sb, disk', b) && b !in spare'
      ensures Holds(disk', ino, b)
    {
      var i, k :| InTable(ino, i, k) && Slot(disk, ino[i], k) == b;
      assert Slot(disk', ino[i], k) == b;
    }
  }

  // ---- file contents ---------------------------------------------------------

  /** Byte p of a file; a block that is not there reads as zero. */
  function FileByte(disk: Disk, ip: Inode, p: nat): byte
    requires p < MAXFILE * BSIZE
  {
    var b := DataBlock(disk, ip, p / BSIZE);
    if b == 0 || b >= |disk| then 0 else disk[b][p % BSIZE]
  }

  ghost predicate SameBytes(disk: Disk, ino: Table, disk': Disk, ino': Table) {
    && |ino| == |ino'|
    && forall i, p {:trigger FileByte(disk', ino'[i], p)} :: 0 <= i < |ino| && 0 <= p < MAXFILE * BSIZE ==>
         FileByte(disk', ino'[i], p) == FileByte(disk, ino[i], p)
  }

  /** The data blocks, every slot but the indirect pointers, keep their contents. */
  ghost predicate SameData(disk: Disk, ino: Table, disk': Disk) {
    forall i, k {:trigger Slot(disk, ino[i], k)} ::
      InTable(ino, i, k) && k != NDIRECT && 0 < Slot(disk, ino[i], k) < |disk| ==>
        Slot(disk, ino[i], k) < |disk'| && disk'[Slot(disk, ino[i], k)] == disk[Slot(disk, ino[i], k)]
  }

  lemma BytesKept(disk: Disk, ino: Table, disk': Disk, ino': Table, i0: int, k0: int)
    requires SameSlotsBut(disk, ino, disk', ino', i0, k0) && SameData(disk, ino, disk') && |disk| == |disk'|
    requires InTable(ino, i0, k0) && k0 != NDIRECT ==>
               Slot(disk, ino[i0], k0) == 0
               && 0 < Slot(disk', ino'[i0], k0) < |disk'| && disk'[Slot(disk', ino'[i0], k0)] == ZeroBlock()
    ensures SameBytes(disk, ino, disk', ino')
  {
  }

  // ---- the primitive updates of fs.c -----------------------------------------

  lemma UsedAfterMark(sb: Super, disk: Disk, b: nat, c: nat)
    requires sb.Valid() && |disk| == sb.size && b < sb.size && c < sb.size
    ensures Used(sb, Marked(sb, disk, b), c) == (c == b || Used(sb, disk, c))
    ensures Used(sb, Unmarked(sb, disk, b), c) == (c != b && Used(sb, disk, c))
  {
    hide Bit; hide SetBit; hide ClearBit;
    if sb.Bblock(b) == sb.Bblock(c) {
      BitOfSetBit(disk[sb.Bblock(b)], b % BPB, c % BPB);
      BitOfClearBit(disk[sb.Bblock(b)], b % BPB, c % BPB);
    }
  }

  /** Slots read only the inode table and the indirect blocks. */
  lemma SlotsKept(disk: Disk, ino: Table, disk': Disk)
    requires |disk| == |disk'|
    requires forall i :: 0 <= i < |ino| && 0 < Slot(disk, ino[i], NDIRECT) < |disk| ==>
               disk'[Slot(disk, ino[i], NDIRECT)] == disk[Slot(disk, ino[i], NDIRECT)]
    ensures SameSlots(disk, ino, disk', ino)
  {
  }

  /** balloc took block b, which was free. */
  lemma AllocateKeeps(sb: Super, disk: Disk, ino: Table, spare: set<nat>, b: nat)
    requires Owned(sb, disk, ino, spare) && b < sb.size && !Used(sb, disk, b)
    ensures sb.datastart <= b && b !in spare
    ensures Owned(sb, Allocated(sb, disk, b), ino, spare + {b})
    ensures SameSlots(disk, ino, Allocated(sb, disk, b), ino) && SameBytes(disk, ino, Allocated(sb, disk, b), ino)
    ensures forall c :: sb.datastart <= c < sb.size && c != b ==> Allocated(sb, disk, b)[c] == disk[c]
    ensures Allocated(sb, disk, b)[b] == ZeroBlock()
  {
    hide Slot; hide Used;
    var disk' := Allocated(sb, disk, b);
    BblockInRange(sb, b);
    forall i, k | InTable(ino, i, k) && Slot(disk, ino[i], k) != 0
      ensures sb.datastart <= Slot(disk, ino[i], k) < sb.size && Slot(disk, ino[i], k) != b
    {
      assert GoodNumber(sb, disk, spare, Slot(disk, ino[i], k));
    }
    forall i | 0 <= i < |ino| && 0 < Slot(disk, ino[i], NDIRECT) < |disk|
      ensures disk'[Slot(disk, ino[i], NDIRECT)] == disk[Slot(disk, ino[i], NDIRECT)]
    {
      assert InTable(ino, i, NDIRECT);
    }
    SlotsKept(disk, ino, disk');
    AllocatedBits(sb, disk, b);
    OwnedRemark(sb, disk, ino, disk', spare, spare + {b}, b);
    BytesKept(disk, ino, disk', ino, -1, -1);
  }

  lemma AllocatedBits(sb: Super, disk: Disk, b: nat)
    requires sb.Valid() && |disk| == sb.size && sb.datastart <= b < sb.size
    ensures SameUsedBut(sb, disk, Allocated(sb, disk, b), b) && Used(sb, Allocated(sb, disk, b), b)
  {
    hide Bit; hide SetBit;
    forall c: nat | c < sb.size
      ensures Used(sb, Allocated(sb, disk, b), c) == (c == b || Used(sb, disk, c))
    {
      BblockInRange(sb, c);
      UsedAfterMark(sb, disk, b, c);
    }
  }

  function WithAddr(ip: Inode, k: nat, b: uint): Inode
    requires k <= NDIRECT
  {
    ip.(addrs := ip.addrs[k := b])
  }

  /** bmap stored a spare, zeroed block in addrs[k]. */
  lemma StoreAddrKeeps(sb: Super, disk: Disk, ino: Table, spare: set<nat>, i: nat, k: nat, b: uint)
    requires Owned(sb, disk, ino, spare) && i < |ino| && k <= NDIRECT && ino[i].addrs[k] == 0
    requires b in spare && disk[b] == ZeroBlock()
    ensures var ino' := ino[i := WithAddr(ino[i], k, b)];
            Owned(sb, disk, ino', spare - {b}) && SameBytes(disk, ino, disk, ino')
            && SameSlotsBut(disk, ino, disk, ino', i, k) && Slot(disk, ino'[i], k) == b
  {
    hide Used; hide ZeroBlock; hide Word;
    var ino' := ino[i := WithAddr(ino[i], k, b)];
    forall m, j | InTable(ino, m, j) && !(m == i && j == k)
      ensures Slot(disk, ino'[m], j) == Slot(disk, ino[m], j)
    {
      if m == i && k == NDIRECT && j > NDIRECT { WordOfZero(j - NDIRECT - 1); }
    }
    StoredFresh(sb, disk, ino, disk, ino', spare, i, k, b);
  }

  lemma StoredFresh(sb: Super, disk: Disk, ino: Table, disk': Disk, ino': Table, spare: set<nat>, i: nat, k: nat,
                    b: uint)
    requires Owned(sb, disk, ino, spare) && InTable(ino, i, k) && |disk'| == sb.size
    requires SameSlotsBut(disk, ino, disk', ino', i, k) && SameUsedBut(sb, disk, disk', -1)
    requires Slot(disk, ino[i], k) == 0 && Slot(disk', ino'[i], k) == b && b in spare && disk'[b] == ZeroBlock()
    requires SameData(disk, ino, disk')
    ensures Owned(sb, disk', ino', spare - {b}) && SameBytes(disk, ino, disk', ino')
  {
    hide Slot; hide Used; hide ZeroBlock;
    OwnedAttach(sb, disk, ino, disk', ino', spare, i, k);
    BytesKept(disk, ino, disk', ino', i, k);
  }

  lemma DataBlockBitsKept(sb: Super, disk: Disk, b: nat, x: Block)
    requires sb.Valid() && |disk| == sb.size && sb.datastart <= b < sb.size
    ensures SameUsedBut(sb, disk, disk[b := x], -1)
  {
  }

  /** No other slot, of this or another inode, holds the block of a nonzero slot. */
  lemma OnlyHere(disk: Disk, ino: Table, i: nat, k: nat, m: nat, j: nat)
    requires SlotsUnique(disk, ino) && InTable(ino, i, k) && InTable(ino, m, j)
    requires Slot(disk, ino[i], k) != 0 && !(m == i && j == k)
    ensures Slot(disk, ino[m], j) != Slot(disk, ino[i], k)
  {
  }

  /** bmap stored a spare, zeroed block in entry j of the indirect block. */
  lemma StoreEntryKeeps(sb: Super, disk: Disk, ino: Table, spare: set<nat>, i: nat, j: nat, b: uint)
    requires Owned(sb, disk, ino, spare) && i < |ino| && j < NINDIRECT
    requires var a := ino[i].addrs[NDIRECT]; a != 0 && a < |disk| && Word(disk[a], j) == 0
    requires b in spare && disk[b] == ZeroBlock()
    ensures var a := ino[i].addrs[NDIRECT];
            var disk' := disk[a := PutWord(disk[a], j, b)];
            Owned(sb, disk', ino, spare - {b}) && SameBytes(disk, ino, disk', ino)
            && SameSlotsBut(disk, ino, disk', ino, i, NDIRECT + 1 + j) && Slot(disk', ino[i], NDIRECT + 1 + j) == b
            && a != b && sb.datastart <= a
  {
    hide Used; hide ZeroBlock; hide Word; hide PutWord;
    var a, k := ino[i].addrs[NDIRECT], NDIRECT + 1 + j;
    var disk' := disk[a := PutWord(disk[a], j, b)];
    assert Slot(disk, ino[i], NDIRECT) == a;
    assert GoodNumber(sb, disk, spare, a);
    DataBlockBitsKept(sb, disk, a, PutWord(disk[a], j, b));
    forall m, n | InTable(ino, m, n) && !(m == i && n == k)
      ensures Slot(disk', ino[m], n) == Slot(disk, ino[m], n)
    {
      if m == i && n > NDIRECT {
        WordOfPutWord(disk[a], j, b, n - NDIRECT - 1);
      } else if n > NDIRECT {
        OnlyHere(disk, ino, i, NDIRECT, m, NDIRECT);
      }
    }
    WordOfPutWord(disk[a], j, b, j);
    forall m, n | InTable(ino, m, n) && n != NDIRECT && Slot(disk, ino[m], n) != 0
      ensures Slot(disk, ino[m], n) != a
    {
      OnlyHere(disk, ino, i, NDIRECT, m, n);
    }
    StoredFresh(sb, disk, ino, disk', ino, spare, i, k, b);
  }

  /** A fresh block for an empty entry of the indirect block: balloc, then the store. */
  lemma FillEntryKeeps(sb: Super, disk: Disk, ino: Table, i: nat, j: nat, b: uint)
    requires Owned(sb, disk, ino, {}) && i < |ino| && j < NINDIRECT && b < sb.size && !Used(sb, disk, b)
    requires var a := ino[i].addrs[NDIRECT]; a != 0 && a < |disk| && Word(disk[a], j) == 0
    ensures var a := ino[i].addrs[NDIRECT];
            var disk1 := Allocated(sb, disk, b);
            var disk' := disk1[a := PutWord(disk1[a], j, b)];
            && sb.datastart <= a && sb.datastart <= b
            && Owned(sb, disk', ino, {}) && SameBytes(disk, ino, disk', ino)
            && SameSlotsBut(disk, ino, disk', ino, i, NDIRECT + 1 + j) && Slot(disk', ino[i], NDIRECT + 1 + j) == b
  {
    hide SlotsInRange; hide SlotsUnique; hide Holds; hide FileByte; hide Used; hide ZeroBlock; hide Word; hide PutWord;
    hide Allocated;
    var a, disk1 := ino[i].addrs[NDIRECT], Allocated(sb, disk, b);
    AllocateKeeps(sb, disk, ino, {}, b);
    assert {} + {b as nat} == {b as nat};
    assert Slot(disk1, ino[i], NDIRECT + 1 + j) == Slot(disk, ino[i], NDIRECT + 1 + j);
    StoreEntryKeeps(sb, disk1, ino, {b as nat}, i, j, b);
    assert {b as nat} - {b as nat} == {};
  }

  /** A data block of file i is overwritten: no slot, no bit and no other byte changes. */
  lemma WriteDataKeeps(sb: Super, disk: Disk, ino: Table, spare: set<nat>, i: nat, bn: nat, x: Block)
    requires Owned(sb, disk, ino, spare) && i < |ino| && bn < MAXFILE && DataBlock(disk, ino[i], bn) != 0
    ensures sb.datastart <= DataBlock(disk, ino[i], bn) < |disk| && DataBlock(disk, ino[i], bn) as nat !in spare
    ensures var disk' := disk[DataBlock(disk, ino[i], bn) := x];
            Owned(sb, disk', ino, spare) && SameSlots(disk, ino, disk', ino)
            && (forall m, p {:trigger FileByte(disk', ino[m], p)} :: 0 <= m < |ino| && 0 <= p < MAXFILE * BSIZE ==>
                  FileByte(disk', ino[m], p) ==
                  if m == i && p / BSIZE == bn then x[p % BSIZE] else FileByte(disk, ino[m], p))
  {
    hide Used; hide Slot;
    var k := DataSlot(bn);
    var b := Slot(disk, ino[i], k);
    assert GoodNumber(sb, disk, spare, b);
    var disk' := disk[b := x];
    DataBlockBitsKept(sb, disk, b, x);
    forall m | 0 <= m < |ino| && 0 < Slot(disk, ino[m], NDIRECT) < |disk|
      ensures disk'[Slot(disk, ino[m], NDIRECT)] == disk[Slot(disk, ino[m], NDIRECT)]
    {
      OnlyHere(disk, ino, i, k, m, NDIRECT);
    }
    SlotsKept(disk, ino, disk');
    OwnedSame(sb, disk, ino, disk', ino, spare);
    forall m, p | 0 <= m < |ino| && 0 <= p < MAXFILE * BSIZE
      ensures FileByte(disk', ino[m], p) ==
              if m == i && p / BSIZE == bn then x[p % BSIZE] else FileByte(disk, ino[m], p)
    {
      var j := DataSlot(p / BSIZE);
      assert InTable(ino, m, j);
      if !(m == i && j == k) { OnlyHere(disk, ino, i, k, m, j); }
    }
  }

  /** A block outside the bitmap and the data area is overwritten (an inode block). */
  lemma MetaWriteKeeps(sb: Super, disk: Disk, ino: Table, spare: set<nat>, c: nat, x: Block)
    requires Owned(sb, disk, ino, spare) && c < sb.bmapstart
    ensures Owned(sb, disk[c := x], ino, spare) && SameUsedBut(sb, disk, disk[c := x], -1)
    ensures SameSlots(disk, ino, disk[c := x], ino) && SameBytes(disk, ino, disk[c := x], ino)
  {
    hide Slot; hide Bit;
    var disk' := disk[c := x];
    forall b: nat | b < sb.size ensures Used(sb, disk', b) == Used(sb, disk, b) { BblockInRange(sb, b); }
    forall i, k | InTable(ino, i, k) && Slot(disk, ino[i], k) != 0
      ensures sb.datastart <= Slot(disk, ino[i], k) < sb.size
    {
      assert GoodNumber(sb, disk, spare, Slot(disk, ino[i], k));
    }
    SlotsKept(disk, ino, disk');
    OwnedSame(sb, disk, ino, disk', ino, spare);
    BytesKept(disk, ino, disk', ino, -1, -1);
  }

  /** bfree of a spare block. */
  lemma FreeKeeps(sb: Super, disk: Disk, ino: Table, spare: set<nat>, b: nat)
    requires Owned(sb, disk, ino, spare) && b in spare
    ensures Owned(sb, Unmarked(sb, disk, b), ino, spare - {b})
    ensures SameSlots(disk, ino, Unmarked(sb, disk, b), ino) && SameBytes(disk, ino, Unmarked(sb, disk, b), ino)
    ensures forall c :: sb.datastart <= c < sb.size ==> Unmarked(sb, disk, b)[c] == disk[c]
  {
    hide Slot; hide Used;
    var disk' := Unmarked(sb, disk, b);
    BblockInRange(sb, b);
    forall c: nat | c < sb.size ensures Used(sb, disk', c) == (c != b && Used(sb, disk, c)) {
      UsedAfterMark(sb, disk, b, c);
    }
    forall i, k | InTable(ino, i, k) && Slot(disk, ino[i], k) != 0
      ensures sb.datastart <= Slot(disk, ino[i], k) < sb.size
    {
      assert GoodNumber(sb, disk, spare, Slot(disk, ino[i], k));
    }
    SlotsKept(disk, ino, disk');
    OwnedRemark(sb, disk, ino, disk', spare, spare - {b}, b);
    BytesKept(disk, ino, disk', ino, -1, -1);
  }

  // ---- giving up all the blocks of one file ----------------------------------

  /** The order in which itrunc frees slots: direct, indirect entries, the indirect block. */
  function TruncSlot(t: nat): nat {
    if t < NDIRECT then t else if t < MAXFILE then t + 1 else NDIRECT
  }

  /** The blocks still to be freed after t steps; all the blocks of the file when t is 0. */
  ghost function Remaining(disk: Disk, ip: Inode, t: nat): set<nat> {
    set u: nat {:trigger TruncSlot(u)} | t <= u < NSLOTS
        && Slot(disk, ip, TruncSlot(u)) != 0 :: Slot(disk, ip, TruncSlot(u)) as nat
  }

  const NoAddrs: Addrs := [0, 0, 0, 0, 0, 0, 0, 0, 0, 0, 0, 0, 0]

  /** Dropping every block number of inode i makes exactly its blocks spare. */
  lemma DropFile(sb: Super, disk: Disk, ino: Table, spare: set<nat>, i: nat, ip': Inode)
    requires Owned(sb, disk, ino, spare) && i < |ino| && ip'.addrs == NoAddrs
    ensures Owned(sb, disk, ino[i := ip'], spare + Remaining(disk, ino[i], 0)) && spare !! Remaining(disk, ino[i], 0)
  {
    hide Used; hide Word;
    var ino', gone := ino[i := ip'], Remaining(disk, ino[i], 0);
    forall k | 0 <= k < NSLOTS && Slot(disk, ino[i], k) != 0 ensures Slot(disk, ino[i], k) as nat in gone {
      var t: nat := if k < NDIRECT then k else if k == NDIRECT then MAXFILE else k - 1;
      assert TruncSlot(t) == k;
    }
    forall b | b in gone
      ensures GoodNumber(sb, disk, spare, b)
      ensures exists k :: 0 <= k < NSLOTS && Slot(disk, ino[i], k) == b
    {
      var t: nat :| t < NSLOTS && Slot(disk, ino[i], TruncSlot(t)) != 0 && Slot(disk, ino[i], TruncSlot(t)) as nat == b;
      assert InTable(ino, i, TruncSlot(t));
    }
    DroppedSlots(sb, disk, ino, ino', spare, i, gone);
  }

  lemma DroppedSlots(sb: Super, disk: Disk, ino: Table, ino': Table, spare: set<nat>, i: nat, gone: set<nat>)
    requires Owned(sb, disk, ino, spare) && i < |ino| && |ino'| == |ino|
    requires forall m :: 0 <= m < |ino| && m != i ==> ino'[m] == ino[m]
    requires forall k :: 0 <= k < NSLOTS ==> Slot(disk, ino'[i], k) == 0
    requires forall k :: 0 <= k < NSLOTS && Slot(disk, ino[i], k) != 0 ==> Slot(disk, ino[i], k) as nat in gone
    requires forall b :: b in gone ==>
               GoodNumber(sb, disk, spare, b) && exists k :: 0 <= k < NSLOTS && Slot(disk, ino[i], k) == b
    ensures Owned(sb, disk, ino', spare + gone)
  {
  }

  lemma RemainingStep(disk: Disk, ino: Table, i: nat, t: nat)
    requires SlotsUnique(disk, ino) && i < |ino| && t < NSLOTS
    ensures Slot(disk, ino[i], TruncSlot(t)) == 0 ==> Remaining(disk, ino[i], t + 1) == Remaining(disk, ino[i], t)
    ensures Slot(disk, ino[i], TruncSlot(t)) != 0 ==>
              Slot(disk, ino[i], TruncSlot(t)) as nat in Remaining(disk, ino[i], t)
              && Remaining(disk, ino[i], t + 1) == Remaining(disk, ino[i], t) - {Slot(disk, ino[i],
                  TruncSlot(t)) as nat}
  {
  }

  /** If the data area is unchanged, so is every file. */
  lemma DataAreaKept(sb: Super, disk: Disk, ino: Table, spare: set<nat>, disk': Disk)
    requires Owned(sb, disk, ino, spare) && |disk'| == |disk|
    requires forall c :: sb.datastart <= c < sb.size ==> disk'[c] == disk[c]
    ensures SameSlots(disk, ino, disk', ino) && SameBytes(disk, ino, disk', ino)
  {
    hide Slot; hide Used;
    forall i, k | InTable(ino, i, k) && Slot(disk, ino[i], k) != 0
      ensures sb.datastart <= Slot(disk, ino[i], k) < sb.size
    {
      assert GoodNumber(sb, disk, spare, Slot(disk, ino[i], k));
    }
    SlotsKept(disk, ino, disk');
    BytesKept(disk, ino, disk', ino, -1, -1);
  }
}
