/** Files on top of FsModel: dinodes as stored in their block, the bytes of a
    file, and how writing bytes changes them. */
module FsFiles {
  import opened Blocks
  import opened FsModel

  // ---- dinodes in their block -----------------------------------------------

  /** The sixteen words of a dinode. */
  function InodeWord(ip: Inode, w: nat): uint
    requires w < 16
  {
    if w == 0 then ip.kind else if w == 1 then ip.links else if w == 2 then ip.size else ip.addrs[w - 3]
  }

  function PutInode(b: Block, slot: nat, ip: Inode, w: nat): Block
    requires slot < IPB && w <= 16
  {
    if w == 0 then b else PutWord(PutInode(b, slot, ip, w - 1), 16 * slot + w - 1, InodeWord(ip, w - 1))
  }

  function GetInode(b: Block, slot: nat): Inode
    requires slot < IPB
  {
    var addrs := seq<uint>(13, k requires 0 <= k < 13 => Word(b, 16 * slot + 3 + k));
    Inode(Word(b, 16 * slot), Word(b, 16 * slot + 1), Word(b, 16 * slot + 2), addrs)
  }

  lemma {:induction false} PutInodeWord(b: Block, slot: nat, ip: Inode, w: nat, j: nat)
    requires slot < IPB && w <= 16 && j < WORDS
    ensures Word(PutInode(b, slot, ip, w), j) ==
            if 16 * slot <= j < 16 * slot + w then InodeWord(ip, j - 16 * slot) else Word(b, j)
  {
    hide Word; hide PutWord; hide InodeWord;
    if w > 0 {
      PutInodeWord(b, slot, ip, w - 1, j);
      WordOfPutWord(PutInode(b, slot, ip, w - 1), 16 * slot + w - 1, InodeWord(ip, w - 1), j);
    }
  }

  /** iupdate stores exactly this inode; its neighbours in the block are untouched. */
  lemma InodeRoundTrip(b: Block, slot: nat, ip: Inode, other: nat)
    requires slot < IPB && other < IPB
    ensures GetInode(PutInode(b, slot, ip, 16), other) == if other == slot then ip else GetInode(b, other)
    ensures var put := PutInode(b, slot, ip, 16);
            && Word(put, 16 * slot) == ip.kind && Word(put, 16 * slot + 1) == ip.links
            && Word(put, 16 * slot + 2) == ip.size
            && forall k :: 0 <= k < 13 ==> Word(put, 16 * slot + 3 + k) == ip.addrs[k]
  {
    hide Word; hide PutInode;
    var put := PutInode(b, slot, ip, 16);
    var r, e := GetInode(put, other), if other == slot then ip else GetInode(b, other);
    PutInodeWord(b, slot, ip, 16, 16 * other);
    PutInodeWord(b, slot, ip, 16, 16 * other + 1);
    PutInodeWord(b, slot, ip, 16, 16 * other + 2);
    forall k | 0 <= k < 13 ensures r.addrs[k] == e.addrs[k] {
      PutInodeWord(b, slot, ip, 16, 16 * other + 3 + k);
    }
    assert r.addrs == e.addrs;
    PutInodeWord(b, slot, ip, 16, 16 * slot);
    PutInodeWord(b, slot, ip, 16, 16 * slot + 1);
    PutInodeWord(b, slot, ip, 16, 16 * slot + 2);
    forall k | 0 <= k < 13 ensures Word(put, 16 * slot + 3 + k) == ip.addrs[k] {
      PutInodeWord(b, slot, ip, 16, 16 * slot + 3 + k);
    }
  }

  function DiskInode(sb: Super, disk: Disk, inum: nat): Inode
    requires sb.Valid() && |disk| == sb.size && inum < sb.ninodes
  {
    GetInode(disk[sb.Iblock(inum)], inum % IPB)
  }

  // ---- the file system at rest ------------------------------------------------

  ghost predicate NoHoles(disk: Disk, ip: Inode) {
    && ip.size <= MAXFILE * BSIZE
    && forall bn {:trigger DataBlock(disk, ip, bn)} :: 0 <= bn < MAXFILE && bn * BSIZE < ip.size ==>
        DataBlock(disk, ip, bn) != 0
  }

  ghost predicate AllNoHoles(disk: Disk, ino: Table) {
    forall i {:trigger ino[i]} :: 0 <= i < |ino| ==> NoHoles(disk, ino[i])
  }

  ghost predicate Synced(sb: Super, disk: Disk, ino: Table, i: nat)
    requires sb.Valid() && |disk| == sb.size && |ino| == sb.ninodes
  {
    i < sb.ninodes ==> DiskInode(sb, disk, i) == ino[i]
  }

  ghost predicate AllSyncedBut(sb: Super, disk: Disk, ino: Table, i0: int)
    requires sb.Valid() && |disk| == sb.size && |ino| == sb.ninodes
  {
    forall i: nat :: i < sb.ninodes && i != i0 ==> Synced(sb, disk, ino, i)
  }

  /** The bytes of a file. */
  ghost function Content(disk: Disk, ip: Inode): seq<byte> {
    seq(ip.size, p requires 0 <= p < ip.size => if p < MAXFILE * BSIZE then FileByte(disk, ip, p) else 0)
  }

  function Splice(s: seq<byte>, off: nat, d: seq<byte>): seq<byte>
    requires off <= |s|
  {
    s[..off] + d + if off + |d| < |s| then s[off + |d|..] else []
  }

  /** Only block numbers were filled in and the size grew, if at all, to `end`. */
  predicate Extended(ip0: Inode, ip: Inode, end: nat) {
    && ip == ip0.(addrs := ip.addrs, size := ip.size) && ip.size == (if end > ip0.size then end else ip0.size)
    && forall k :: 0 <= k <= NDIRECT && ip0.addrs[k] != 0 ==> ip.addrs[k] == ip0.addrs[k]
  }

  ghost predicate FsInv(sb: Super, disk: Disk, ino: Table) {
    && Owned(sb, disk, ino, {}) && |ino| == sb.ninodes
    && AllNoHoles(disk, ino) && AllSyncedBut(sb, disk, ino, -1)
  }

  /** Nothing below the bitmap, so no dinode, differs. */
  ghost predicate SameInodeBlocks(sb: Super, disk: Disk, disk': Disk) {
    |disk| == |disk'| && forall c :: 0 <= c < sb.bmapstart && c < |disk| ==> disk'[c] == disk[c]
  }

  /** Every block that changed was passed to log_write. */
  ghost predicate AllLogged(disk: Disk, disk': Disk, logged: set<nat>) {
    |disk| == |disk'| && forall b: nat :: b < |disk| && b !in logged ==> disk'[b] == disk[b]
  }

  /** The blocks of any of the transactions. */
  ghost function InAny(txns: seq<set<nat>>): set<nat> {
    set k, b | 0 <= k < |txns| && b in txns[k] :: b
  }

  lemma NothingLogged(disk: Disk)
    ensures AllLogged(disk, disk, InAny([]))
  {
  }

  lemma LoggedInAny(disk0: Disk, disk1: Disk, disk2: Disk, txns: seq<set<nat>>, logged: set<nat>)
    requires AllLogged(disk0, disk1, InAny(txns)) && AllLogged(disk1, disk2, logged)
    ensures AllLogged(disk0, disk2, InAny(txns + [logged]))
  {
    var all := txns + [logged];
    forall b: nat | b < |disk0| && b !in InAny(all) ensures disk2[b] == disk0[b] {
      assert b !in all[|txns|];
      forall k | 0 <= k < |txns| ensures b !in txns[k] { assert all[k] == txns[k]; }
    }
  }

  lemma SyncedKept(sb: Super, disk: Disk, ino: Table, disk': Disk, ino': Table, i0: int)
    requires sb.Valid() && |disk| == sb.size && |ino| == |ino'| == sb.ninodes
    requires AllSyncedBut(sb, disk, ino, i0) && SameInodeBlocks(sb, disk, disk')
    requires forall i :: 0 <= i < |ino| && i != i0 ==> ino'[i] == ino[i]
    ensures AllSyncedBut(sb, disk', ino', i0)
  {
    hide GetInode;
    forall i: nat | i < sb.ninodes && i != i0 ensures Synced(sb, disk', ino', i) {
      assert Synced(sb, disk, ino, i);
      assert sb.Iblock(i) < sb.bmapstart;
    }
  }

  // ---- bytes, blocks and positions ------------------------------------------

  /** Positions at .. at + m - 1 lie in one block when m does not cross its end. */
  lemma BlockBytes(at: nat, m: nat)
    requires 1 <= m <= BSIZE - at % BSIZE
    ensures (at + m - 1) / BSIZE == at / BSIZE && (at + m - 1) % BSIZE == at % BSIZE + m - 1
  {
  }

  /** The blocks holding bytes off .. off + n - 1. */
  ghost function Touched(disk: Disk, ip: Inode, off: nat, n: nat): set<nat> {
    set bn: nat {:trigger DataBlock(disk, ip, bn)} | off / BSIZE <= bn < MAXFILE
        && bn * BSIZE < off + n :: DataBlock(disk, ip, bn) as nat
  }

  ghost predicate BlocksGrow(disk0: Disk, ip0: Inode, disk1: Disk, ip1: Inode) {
    && (forall bn {:trigger DataBlock(disk1, ip1, bn)} {:trigger DataBlock(disk0, ip0, bn)} ::
          0 <= bn < MAXFILE && DataBlock(disk0, ip0, bn) != 0 ==>
              DataBlock(disk1, ip1, bn) == DataBlock(disk0, ip0, bn))
    && (ip0.addrs[NDIRECT] != 0 ==> ip1.addrs[NDIRECT] == ip0.addrs[NDIRECT])
    && ip1.size == ip0.size && ip1.kind == ip0.kind && ip1.links == ip0.links
  }

  lemma GrowExtends(disk0: Disk, ip0: Inode, disk1: Disk, ip1: Inode, ip: Inode, end: nat)
    requires BlocksGrow(disk0, ip0, disk1, ip1) && end < UINT_LIMIT
    requires ip == ip1.(size := if end > ip0.size then end else ip0.size)
    ensures Extended(ip0, ip, end)
  {
    forall k | 0 <= k < NDIRECT && ip0.addrs[k] != 0 ensures ip.addrs[k] == ip0.addrs[k] {
      assert DataBlock(disk0, ip0, k) == ip0.addrs[k] && DataBlock(disk1, ip1, k) == ip1.addrs[k];
    }
  }

  /** Exactly `piece` was written at position `at` of file i. */
  ghost predicate BytesWritten(disk0: Disk, ino0: Table, disk1: Disk, ino1: Table, i: nat, at: nat, piece: seq<byte>) {
    && |ino1| == |ino0|
    && forall m, p {:trigger FileByte(disk1, ino1[m], p)} :: 0 <= m < |ino1| && 0 <= p < MAXFILE * BSIZE ==>
         FileByte(disk1, ino1[m], p) ==
         if m == i && at <= p < at + |piece| then piece[p - at] else FileByte(disk0, ino0[m], p)
  }

  lemma PieceInBlock(disk1: Disk, disk2: Disk, ino: Table, i: nat, at: nat, piece: seq<byte>, x: Block)
    requires 1 <= |piece| <= BSIZE - at % BSIZE && at / BSIZE < MAXFILE && i < |ino|
    requires var b := DataBlock(disk1, ino[i], at / BSIZE);
             0 < b < |disk1| && x == disk1[b][..at % BSIZE] + piece + disk1[b][at % BSIZE + |piece|..]
    requires forall m, p {:trigger FileByte(disk2, ino[m], p)} :: 0 <= m < |ino| && 0 <= p < MAXFILE * BSIZE ==>
               FileByte(disk2, ino[m], p) ==
               if m == i && p / BSIZE == at / BSIZE then x[p % BSIZE] else FileByte(disk1, ino[m], p)
    ensures forall m, p {:trigger FileByte(disk2, ino[m], p)} :: 0 <= m < |ino| && 0 <= p < MAXFILE * BSIZE ==>
              FileByte(disk2, ino[m], p) ==
              if m == i && at <= p < at + |piece| then piece[p - at] else FileByte(disk1, ino[m], p)
  {
  }

  lemma LaterBlock(bn: nat, at: nat, m: nat)
    requires 1 <= m <= BSIZE - at % BSIZE && at <= bn * BSIZE < at + m
    ensures bn == at / BSIZE
  {
  }

  lemma AtIsTouched(disk: Disk, ip: Inode, off: nat, n: nat, at: nat)
    requires off <= at < off + n && at / BSIZE < MAXFILE
    ensures DataBlock(disk, ip, at / BSIZE) as nat in Touched(disk, ip, off, n)
  {
  }

  lemma TouchedGrows(disk0: Disk, ip0: Inode, disk1: Disk, ip1: Inode, off: nat, n: nat, n': nat)
    requires BlocksGrow(disk0, ip0, disk1, ip1) && n <= n'
    ensures Touched(disk0, ip0, off, n) - {0} <= Touched(disk1, ip1, off, n')
  {
  }

  lemma GrowCompose(disk0: Disk, ino0: Table, disk1: Disk, ino1: Table, disk2: Disk, ino2: Table)
    requires |ino0| == |ino1| == |ino2|
    requires forall m :: 0 <= m < |ino0| ==> BlocksGrow(disk0, ino0[m], disk1, ino1[m])
    requires forall m :: 0 <= m < |ino0| ==> BlocksGrow(disk1, ino1[m], disk2, ino2[m])
    ensures forall m :: 0 <= m < |ino0| ==> BlocksGrow(disk0, ino0[m], disk2, ino2[m])
  {
  }

  lemma BytesCompose(disk0: Disk, ino0: Table, disk1: Disk, ino1: Table, disk2: Disk, ino2: Table, i: nat,
                     off: nat, data: seq<byte>, piece: seq<byte>)
    requires BytesWritten(disk0, ino0, disk1, ino1, i, off, data)
    requires BytesWritten(disk1, ino1, disk2, ino2, i, off + |data|, piece)
    ensures BytesWritten(disk0, ino0, disk2, ino2, i, off, data + piece)
  {
  }

  /** Slots and bytes do not depend on the recorded size. */
  lemma ResizeKeeps(sb: Super, disk: Disk, ino: Table, spare: set<nat>, i: nat, size: uint)
    requires Owned(sb, disk, ino, spare) && i < |ino|
    ensures var ino' := ino[i := ino[i].(size := size)];
            Owned(sb, disk, ino', spare) && SameSlots(disk, ino, disk, ino') && SameBytes(disk, ino, disk, ino')
  {
    hide Used; hide Word;
    var ino' := ino[i := ino[i].(size := size)];
    assert SameSlots(disk, ino, disk, ino');
    OwnedSame(sb, disk, ino, disk, ino', spare);
    BytesKept(disk, ino, disk, ino', -1, -1);
  }

  lemma ContentSpliced(disk0: Disk, ip0: Inode, disk1: Disk, ip1: Inode, off: nat, data: seq<byte>)
    requires ip0.size <= MAXFILE * BSIZE && off <= ip0.size && off + |data| <= MAXFILE * BSIZE
    requires ip1.size == if off + |data| > ip0.size then off + |data| else ip0.size
    requires forall p {:trigger FileByte(disk1, ip1, p)} :: 0 <= p < MAXFILE * BSIZE ==>
               FileByte(disk1, ip1, p) == if off <= p < off + |data| then data[p - off] else FileByte(disk0, ip0, p)
    ensures Content(disk1, ip1) == Splice(Content(disk0, ip0), off, data)
  {
  }

  /** Bytes written and a new size, seen as contents of all files. */
  lemma ContentsWritten(disk0: Disk, ino0: Table, disk1: Disk, ino1: Table, disk: Disk, ino: Table, i: nat, off: nat,
                        data: seq<byte>)
    requires BytesWritten(disk0, ino0, disk1, ino1, i, off, data) && SameBytes(disk1, ino1, disk, ino) && i < |ino0|
    requires ino0[i].size <= MAXFILE * BSIZE && off <= ino0[i].size && off + |data| <= MAXFILE * BSIZE
    requires ino[i].size == if off + |data| > ino0[i].size then off + |data| else ino0[i].size
    requires forall m :: 0 <= m < |ino| && m != i ==> ino[m] == ino0[m]
    ensures Content(disk, ino[i]) == Splice(Content(disk0, ino0[i]), off, data)
    ensures forall m :: 0 <= m < |ino| && m != i ==> Content(disk, ino[m]) == Content(disk0, ino0[m])
  {
    hide FileByte; hide Splice;
    ContentSpliced(disk0, ino0[i], disk, ino[i], off, data);
    forall m | 0 <= m < |ino| && m != i ensures Content(disk, ino[m]) == Content(disk0, ino0[m]) { }
  }

  ghost predicate SameDataBlocks(disk0: Disk, ip0: Inode, disk1: Disk, ip1: Inode) {
    forall bn {:trigger DataBlock(disk1, ip1, bn)} {:trigger DataBlock(disk0, ip0, bn)} ::
      0 <= bn < MAXFILE ==> DataBlock(disk1, ip1, bn) == DataBlock(disk0, ip0, bn)
  }

  lemma TouchedSame(disk0: Disk, ip0: Inode, disk1: Disk, ip1: Inode, off: nat, n: nat)
    requires SameDataBlocks(disk0, ip0, disk1, ip1)
    ensures Touched(disk0, ip0, off, n) == Touched(disk1, ip1, off, n)
  {
  }

  lemma NoHolesAfter(disk0: Disk, ip0: Inode, disk1: Disk, ip1: Inode, off: nat, n: nat)
    requires NoHoles(disk0, ip0) && off <= ip0.size && off + n <= MAXFILE * BSIZE
    requires ip1.size == if off + n > ip0.size then off + n else ip0.size
    requires forall bn {:trigger DataBlock(disk1, ip1, bn)} ::
               0 <= bn < MAXFILE && DataBlock(disk0, ip0, bn) != 0 ==> DataBlock(disk1, ip1, bn) != 0
    requires forall bn {:trigger DataBlock(disk1, ip1, bn)} ::
               off / BSIZE <= bn < MAXFILE && bn * BSIZE < off + n ==> DataBlock(disk1, ip1, bn) != 0
    ensures NoHoles(disk1, ip1)
  {
  }

  lemma BlocksSame(disk0: Disk, ino0: Table, disk1: Disk, ino1: Table, m: nat)
    requires SameSlots(disk0, ino0, disk1, ino1) && m < |ino0|
    ensures SameDataBlocks(disk0, ino0[m], disk1, ino1[m])
  {
  }

  /** After a write of n bytes at off to file i, and writing its dinode, no file has a hole. */
  lemma HolesAfterWrite(disk0: Disk, ino0: Table, disk1: Disk, ino1: Table, disk: Disk, ino: Table, i: nat,
                        off: nat, n: nat)
    requires AllNoHoles(disk0, ino0) && |ino| == |ino1| == |ino0| && i < |ino| && SameSlots(disk1, ino1, disk, ino)
    requires forall m :: 0 <= m < |ino| ==> BlocksGrow(disk0, ino0[m], disk1, ino1[m])
    requires forall m :: 0 <= m < |ino| && m != i ==> ino[m].size == ino0[m].size
    requires off <= ino0[i].size && off + n <= MAXFILE * BSIZE
    requires ino[i].size == if off + n > ino0[i].size then off + n else ino0[i].size
    requires forall bn {:trigger DataBlock(disk1, ino1[i], bn)} ::
               off / BSIZE <= bn < MAXFILE && bn * BSIZE < off + n ==> DataBlock(disk1, ino1[i], bn) != 0
    ensures AllNoHoles(disk, ino)
  {
    hide SameSlots; hide DataBlock;
    forall m | 0 <= m < |ino| ensures NoHoles(disk, ino[m]) {
      BlocksSame(disk1, ino1, disk, ino, m);
      assert NoHoles(disk0, ino0[m]) && BlocksGrow(disk0, ino0[m], disk1, ino1[m]);
      if m == i { NoHolesAfter(disk0, ino0[m], disk, ino[m], off, n); }
    }
  }

  lemma RemainingShrinks(disk0: Disk, ip0: Inode, t: nat)
    ensures Remaining(disk0, ip0, t) <= Remaining(disk0, ip0, 0)
  {
  }

  lemma NoIndirect(disk0: Disk, ip0: Inode)
    requires ip0.addrs[NDIRECT] == 0
    ensures Remaining(disk0, ip0, NDIRECT) == {} == Remaining(disk0, ip0, NSLOTS)
  {
  }

  ghost function BlockOrZero(disk: Disk, ip: Inode, bn: nat): nat {
    if bn < MAXFILE then DataBlock(disk, ip, bn) else 0
  }

  /** Three blocks' worth of bytes, however aligned, lie in at most four blocks. */
  lemma ChunkTouchesFour(disk: Disk, ip: Inode, off: nat, n: nat)
    requires n <= 3 * BSIZE
    ensures |Touched(disk, ip, off, n)| <= 4
  {
    hide DataBlock;
    var q := off / BSIZE;
    var four := {BlockOrZero(disk, ip, q), BlockOrZero(disk, ip, q + 1), BlockOrZero(disk, ip, q + 2),
        BlockOrZero(disk, ip, q + 3)};
    forall b | b in Touched(disk, ip, off, n) ensures b in four {
      var bn: nat :| q <= bn < MAXFILE && bn * BSIZE < off + n && DataBlock(disk, ip, bn) as nat == b;
      assert bn <= q + 3;
      assert b == BlockOrZero(disk, ip, bn);
    }
    SubsetSize(Touched(disk, ip, off, n), four);
  }

  lemma {:induction false} SubsetSize(a: set<nat>, b: set<nat>)
    requires a <= b
    ensures |a| <= |b|
  {
    assert b == a + (b - a);
  }

  lemma SpliceTwice(s: seq<byte>, off: nat, a: seq<byte>, b: seq<byte>)
    requires off <= |s|
    ensures off + |a| <= |Splice(s, off, a)|
    ensures Splice(Splice(s, off, a), off + |a|, b) == Splice(s, off, a + b)
  {
  }

  lemma PrefixGrows(src: seq<byte>, done: nat, n1: nat, r: int)
    requires done + n1 <= |src| && r <= n1
    ensures src[..done] + (if r > 0 then src[done..done + n1][..r] else []) == src[..if r > 0 then done + r else done]
    ensures src[..done] + src[done..done + n1] == src[..done + n1]
  {
  }

  // ---- mapping a block, storing an inode --------------------------------------

  /** Data block bn of inode i is now at addr (0: no block could be found).  The
      bytes of all files, all other inodes and all other data blocks are as
      before; the indirect pointer may have been filled in. */
  ghost predicate BlockMapped(disk0: Disk, ino0: Table, disk1: Disk, ino1: Table, i: nat, bn: nat, addr: uint)
    requires bn < MAXFILE && i < |ino0|
  {
    && |ino1| == |ino0| && SameBytes(disk0, ino0, disk1, ino1)
    && (forall m :: 0 <= m < |ino0| && m != i ==> ino1[m] == ino0[m])
    && ino1[i] == ino0[i].(addrs := ino1[i].addrs)
    && (ino0[i].addrs[NDIRECT] != 0 ==> ino1[i].addrs[NDIRECT] == ino0[i].addrs[NDIRECT])
    && (forall m, k {:trigger Slot(disk1, ino1[m], k)} ::
          InTable(ino0, m, k) && !(m == i && (k == DataSlot(bn) || k == NDIRECT)) ==>
            Slot(disk1, ino1[m], k) == Slot(disk0, ino0[m], k))
    && (DataBlock(disk0, ino0[i], bn) != 0 ==> disk1 == disk0 && ino1 == ino0)
    && addr == DataBlock(disk1, ino1[i], bn)
  }

  /** A block beyond the direct ones is mapped in two steps: the indirect block
      (or nothing), then the entry (or nothing). */
  lemma MappedInTwoSteps(disk0: Disk, ino0: Table, disk1: Disk, ino1: Table, disk2: Disk, i: nat, bn: nat)
    requires i < |ino0| && NDIRECT <= bn < MAXFILE && |ino1| == |ino0|
    requires forall m :: 0 <= m < |ino0| && m != i ==> ino1[m] == ino0[m]
    requires ino1[i] == WithAddr(ino0[i], NDIRECT, ino1[i].addrs[NDIRECT])
    requires ino0[i].addrs[NDIRECT] != 0 ==> disk1 == disk0 && ino1 == ino0
    requires SameSlotsBut(disk0, ino0, disk1, ino1, i, NDIRECT) && SameBytes(disk0, ino0, disk1, ino1)
    requires SameSlotsBut(disk1, ino1, disk2, ino1, i, bn + 1) && SameBytes(disk1, ino1, disk2, ino1)
    requires Slot(disk1, ino1[i], bn + 1) != 0 ==> disk2 == disk1
    ensures BlockMapped(disk0, ino0, disk2, ino1, i, bn, DataBlock(disk2, ino1[i], bn))
  {
  }

  lemma MappedGrows(disk0: Disk, ino0: Table, disk1: Disk, ino1: Table, i: nat, bn: nat, addr: uint)
    requires i < |ino0| && bn < MAXFILE && BlockMapped(disk0, ino0, disk1, ino1, i, bn, addr)
    ensures forall m :: 0 <= m < |ino0| ==> BlocksGrow(disk0, ino0[m], disk1, ino1[m])
    ensures forall m, n {:trigger DataBlock(disk1, ino1[m], n)} ::
              0 <= m < |ino0| && 0 <= n < MAXFILE && !(m == i && n == bn) ==>
              DataBlock(disk1, ino1[m], n) == DataBlock(disk0, ino0[m], n)
  {
  }

  /** Writing inode i to its dinode makes disk and memory agree and touches nothing else. */
  lemma InodeStored(sb: Super, disk: Disk, ino: Table, i: nat, b: Block)
    requires Owned(sb, disk, ino, {}) && |ino| == sb.ninodes && i < |ino| && AllSyncedBut(sb, disk, ino, i)
    requires b == PutInode(disk[sb.Iblock(i)], i % IPB, ino[i], 16)
    ensures var disk' := disk[sb.Iblock(i) := b];
            && Owned(sb, disk', ino, {}) && AllSyncedBut(sb, disk', ino, -1)
            && SameSlots(disk, ino, disk', ino) && SameBytes(disk, ino, disk', ino) && SameUsedBut(sb, disk, disk', -1)
  {
    hide SlotsInRange; hide SlotsUnique; hide Holds; hide GetInode; hide PutInode; hide FileByte; hide Slot; hide Used;
    var at := sb.Iblock(i);
    MetaWriteKeeps(sb, disk, ino, {}, at, b);
    var disk' := disk[at := b];
    forall j: nat | j < sb.ninodes ensures Synced(sb, disk', ino, j) {
      assert i != j ==> Synced(sb, disk, ino, j);
      if sb.Iblock(j) == at {
        InodeRoundTrip(disk[at], i % IPB, ino[i], j % IPB);
      }
    }
  }
}
