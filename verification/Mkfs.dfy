/** mkfs/mkfs.c: the image that the kernel starts from.  Blocks are handed out
    in order, and only at the end is the bitmap written, marking the first
    `freeblock` blocks.  A return value of false stands for die() or a failed
    assert. */
module Mkfs {
  import opened Blocks
  import opened FsModel
  import opened FsFiles

  const FSSIZE := 2000
  const NINODES := 200
  const NMETA := 47                  // 2 + nlog + ninodeblocks + nbitmap
  const ROOTINO := 1
  const DIRSIZ := 14

  function TheSuper(): (sb: Super)
    ensures sb.Valid()
  {
    Super(FSSIZE, NINODES, 33, 46, NMETA)
  }

  datatype File = File(name: seq<byte>, data: seq<byte>)

  /** The bitmap block that marks blocks 0 .. used - 1. */
  function FirstBits(used: nat): Block
    requires used <= BPB
  {
    if used == 0 then ZeroBlock() else SetBit(FirstBits(used - 1), used - 1)
  }

  lemma {:induction false} FirstBitsAre(used: nat, j: nat)
    requires used <= BPB && j < BPB
    ensures Bit(FirstBits(used), j) == (j < used)
  {
    hide SetBit; hide Pow2;
    if used == 0 {
      ZeroBit(j);
    } else {
      FirstBitsAre(used - 1, j);
      BitOfSetBit(FirstBits(used - 1), used - 1, j);
    }
  }

  lemma ZeroBit(j: nat)
    requires j < BPB
    ensures !Bit(ZeroBlock(), j)
  {
  }

  /** The image as it will be once the bitmap is written. */
  function WithBitmap(disk: Disk, used: nat): Disk
    requires |disk| == FSSIZE && used <= BPB
  {
    disk[TheSuper().bmapstart := FirstBits(used)]
  }

  lemma WithBitmapUsed(disk: Disk, used: nat, b: nat)
    requires |disk| == FSSIZE && used <= BPB && b < FSSIZE
    ensures Used(TheSuper(), WithBitmap(disk, used), b) == (b < used)
  {
    hide FirstBits; hide Bit;
    FirstBitsAre(used, b);
  }

  /** Exactly the blocks that hold bytes below n are mapped, the indirect block only if needed. */
  ghost predicate MappedUpTo(disk: Disk, ip: Inode, n: nat) {
    && (ip.addrs[NDIRECT] != 0 <==> n > NDIRECT * BSIZE)
    && forall bn {:trigger DataBlock(disk, ip, bn)} :: 0 <= bn < MAXFILE ==>
         (DataBlock(disk, ip, bn) != 0 <==> bn * BSIZE < n)
  }

  /** Exactly the blocks up to the size are mapped, and bytes past it are zero. */
  ghost predicate FileOk(disk: Disk, ip: Inode) {
    && ip.size <= MAXFILE * BSIZE && MappedUpTo(disk, ip, ip.size)
    && forall p {:trigger FileByte(disk, ip, p)} :: ip.size <= p < MAXFILE * BSIZE ==> FileByte(disk, ip, p) == 0
  }

  ghost predicate FreshFrom(disk: Disk, used: nat) {
    forall b :: used <= b < |disk| ==> disk[b] == ZeroBlock()
  }

  /** Handing out block f: it is zero already and marked as soon as the count grows. */
  lemma TakeKeeps(disk: Disk, ino: Table, f: nat)
    requires |disk| == FSSIZE && NMETA <= f < FSSIZE && disk[f] == ZeroBlock()
    requires Owned(TheSuper(), WithBitmap(disk, f), ino, {})
    ensures Owned(TheSuper(), WithBitmap(disk, f + 1), ino, {f}) && WithBitmap(disk, f + 1)[f] == ZeroBlock()
    ensures SameSlots(WithBitmap(disk, f), ino, WithBitmap(disk, f + 1), ino)
    ensures SameBytes(WithBitmap(disk, f), ino, WithBitmap(disk, f + 1), ino)
  {
    hide SlotsInRange; hide SlotsUnique; hide Holds; hide Slot; hide FileByte; hide SetBit; hide ZeroBlock;
    hide Used; hide Bit;
    var sb, g := TheSuper(), WithBitmap(disk, f);
    WithBitmapUsed(disk, f, f);
    AllocateKeeps(sb, g, ino, {}, f);
    assert {} + {f} == {f};
    assert Allocated(sb, g, f) == WithBitmap(disk, f + 1);
  }

  /** T_DIR for the root, T_FILE for the n files behind it, each with one link and no device
      (type and major number share a word, so do minor number and link count). */
  predicate Kinds(ino: Table, n: nat) {
    && n + 2 <= |ino| && ino[ROOTINO].kind == 1 && ino[ROOTINO].links == 0x1_0000
    && forall i :: 2 <= i < n + 2 ==> ino[i].kind == 2 && ino[i].links == 0x1_0000
  }

  /** What kind of file it is and how many links it has stay. */
  predicate SameKind(ip0: Inode, ip: Inode) { ip == ip0.(addrs := ip.addrs, size := ip.size) }

  // ---- how many blocks the files take ------------------------------------------

  /** The data blocks of n bytes, and the indirect block once the direct ones are full. */
  function BlocksFor(n: nat): nat {
    (n + BSIZE - 1) / BSIZE + if n > NDIRECT * BSIZE then 1 else 0
  }

  lemma BlocksForGrows(m: nat, n: nat)
    requires m <= n
    ensures BlocksFor(m) <= BlocksFor(n)
  {
  }

  /** What mapping block bn takes. */
  ghost function MapCost(disk: Disk, ip: Inode, bn: nat): nat
    requires bn < MAXFILE
  {
    (if DataBlock(disk, ip, bn) == 0 then 1 else 0) + if bn >= NDIRECT && ip.addrs[NDIRECT] == 0 then 1 else 0
  }

  /** Bytes that lie in one block take what mapping that block takes. */
  lemma PieceCost(disk: Disk, ip: Inode, at: nat, len: nat)
    requires MappedUpTo(disk, ip, at) && at / BSIZE < MAXFILE && 1 <= len <= BSIZE - at % BSIZE
    ensures BlocksFor(at + len) == BlocksFor(at) + MapCost(disk, ip, at / BSIZE)
    ensures at / BSIZE >= NDIRECT <==> at + len > NDIRECT * BSIZE
  {
    hide DataBlock;
    var bn := at / BSIZE;
    assert DataBlock(disk, ip, bn) != 0 <==> bn * BSIZE < at;
  }

  function DataBlocksOf(files: seq<File>): nat {
    if files == [] then 0 else DataBlocksOf(files[..|files| - 1]) + BlocksFor(|files[|files| - 1].data|)
  }

  /** All blocks of the image: metadata, the root directory, the files. */
  function ImageBlocks(files: seq<File>): nat {
    NMETA + BlocksFor(16 * (|files| + 2)) + DataBlocksOf(files)
  }

  /** What mkfs has room for. */
  ghost predicate Fits(files: seq<File>) {
    && (forall k :: 0 <= k < |files| ==> |files[k].name| <= DIRSIZ && |files[k].data| <= MAXFILE * BSIZE)
    && ImageBlocks(files) <= FSSIZE
  }

  /** Each prefix of what fits, fits. */
  lemma {:induction false} PrefixFits(files: seq<File>, k: nat)
    requires Fits(files) && k <= |files|
    ensures Fits(files[..k])
    decreases |files| - k
  {
    hide BlocksFor;
    if k < |files| {
      PrefixFits(files, k + 1);
      BlocksForGrows(16 * (k + 2), 16 * (k + 3));
      assert files[..k + 1][..k] == files[..k];
    } else {
      assert files[..k] == files;
    }
  }

  // ---- directory entries ------------------------------------------------------

  function Zeros(n: nat): seq<byte> {
    seq(n, i => 0)
  }

  /** struct dirent: a 16-bit inode number and DIRSIZ bytes of name, zero padded. */
  function Dirent(inum: nat, name: seq<byte>): (d: seq<byte>)
    requires inum < 0x1_0000 && |name| <= DIRSIZ
    ensures |d| == 16
  {
    var number: seq<byte> := [inum % 256, inum / 256];
    number + name + Zeros(DIRSIZ - |name|)
  }

  /** The root directory: ".", "..", then the files, which get inodes 2, 3, ... */
  function RootEntries(files: seq<File>): (d: seq<byte>)
    requires |files| + 2 <= NINODES && forall k :: 0 <= k < |files| ==> |files[k].name| <= DIRSIZ
    ensures |d| == 16 * (|files| + 2)
  {
    if files == [] then Dirent(ROOTINO, [46]) + Dirent(ROOTINO, [46, 46])
    else RootEntries(files[..|files| - 1]) + Dirent(|files| + 1, files[|files| - 1].name)
  }

  /** Entry e of a directory: its inode number, and its name up to the first zero. */
  function EntryInum(d: seq<byte>, e: nat): nat
    requires 16 * e + 16 <= |d|
  {
    d[16 * e] as int + 256 * (d[16 * e + 1] as int)
  }

  function NameLength(d: seq<byte>, at: nat, n: nat): (r: nat)
    requires at + n <= |d|
    ensures r <= n
    decreases n
  {
    if n == 0 || d[at] == 0 then 0 else 1 + NameLength(d, at + 1, n - 1)
  }

  function EntryName(d: seq<byte>, e: nat): seq<byte>
    requires 16 * e + 16 <= |d|
  {
    d[16 * e + 2..16 * e + 2 + NameLength(d, 16 * e + 2, DIRSIZ)]
  }

  predicate NoZero(name: seq<byte>) { forall i :: 0 <= i < |name| ==> name[i] != 0 }

  lemma {:induction false} NameEnds(d: seq<byte>, at: nat, n: nat, name: seq<byte>)
    requires at + n <= |d| && |name| <= n && NoZero(name) && d[at..at + |name|] == name
    requires |name| < n ==> d[at + |name|] == 0
    ensures NameLength(d, at, n) == |name|
    decreases n
  {
    if name != [] {
      assert d[at] == d[at..at + |name|][0];
      assert d[at + 1..at + 1 + |name[1..]|] == d[at..at + |name|][1..] == name[1..];
      NameEnds(d, at + 1, n - 1, name[1..]);
    }
  }

  /** What dirlookup reads from an entry is what mkfs put in it. */
  lemma DirentReadsBack(d: seq<byte>, e: nat, inum: nat, name: seq<byte>)
    requires 16 * e + 16 <= |d| && inum < 0x1_0000 && |name| <= DIRSIZ && NoZero(name)
    requires d[16 * e..16 * e + 16] == Dirent(inum, name)
    ensures EntryInum(d, e) == inum && EntryName(d, e) == name
  {
    hide NameLength;
    var x := Dirent(inum, name);
    assert forall i :: 0 <= i < 16 ==> d[16 * e + i] == d[16 * e..16 * e + 16][i] == x[i];
    var at := 16 * e + 2;
    assert d[at..at + |name|] == x[2..2 + |name|] == name;
    if |name| < DIRSIZ { assert x[2 + |name|] == 0; }
    NameEnds(d, at, DIRSIZ, name);
  }

  /** Entry e of the root directory: the root itself twice, then file e - 2. */
  lemma {:induction false} RootEntryIs(files: seq<File>, e: nat)
    requires |files| + 2 <= NINODES && e < |files| + 2
    requires forall k :: 0 <= k < |files| ==> |files[k].name| <= DIRSIZ && NoZero(files[k].name)
    ensures var d := RootEntries(files);
            && EntryInum(d, e) == (if e < 2 then ROOTINO else e)
            && EntryName(d, e) == (if e == 0 then [46] else if e == 1 then [46, 46] else files[e - 2].name)
  {
    hide Dirent; hide EntryInum; hide EntryName;
    var d := RootEntries(files);
    if files == [] {
      var x, y := Dirent(ROOTINO, [46]), Dirent(ROOTINO, [46, 46]);
      assert d == x + y && d[0..16] == x && d[16..32] == y;
      DirentReadsBack(d, e, ROOTINO, if e == 0 then [46] else [46, 46]);
    } else {
      var less, last := files[..|files| - 1], files[|files| - 1];
      var x := Dirent(|files| + 1, last.name);
      assert d == RootEntries(less) + x;
      if e == |files| + 1 {
        assert d[16 * e..16 * e + 16] == x;
        DirentReadsBack(d, e, e, last.name);
      } else {
        RootEntryIs(less, e);
        SameEntry(RootEntries(less), x, e);
      }
    }
  }

  lemma SameEntry(d: seq<byte>, x: seq<byte>, e: nat)
    requires 16 * e + 16 <= |d|
    ensures EntryInum(d + x, e) == EntryInum(d, e) && EntryName(d + x, e) == EntryName(d, e)
  {
    hide NameLength;
    SameName(d, x, 16 * e + 2, DIRSIZ);
  }

  lemma {:induction false} SameName(d: seq<byte>, x: seq<byte>, at: nat, n: nat)
    requires at + n <= |d|
    ensures NameLength(d + x, at, n) == NameLength(d, at, n)
    decreases n
  {
    if n > 0 { SameName(d, x, at + 1, n - 1); }
  }

  class Image {
    var disk: Disk
    var freeblock: nat
    var freeinode: nat
    ghost var ino: Table

    /** The finished image, if no more blocks are handed out. */
    ghost function Final(): Disk
      reads this
      requires |disk| == FSSIZE && freeblock <= FSSIZE
    {
      WithBitmap(disk, freeblock)
    }

    ghost predicate Sized()
      reads this
    {
      && |disk| == FSSIZE && NMETA <= freeblock <= FSSIZE && 1 <= freeinode <= NINODES && |ino| == NINODES
      && FreshFrom(disk, freeblock)
      && forall i :: freeinode <= i < NINODES ==> ino[i].addrs == NoAddrs && ino[i].size == 0
    }

    /** Every block handed out is stored in exactly one slot; all dinodes but i0's are up to date. */
    ghost predicate Building(i0: int)
      reads this
    {
      Sized() && Owned(TheSuper(), Final(), ino, {}) && AllSyncedBut(TheSuper(), Final(), ino, i0)
    }


    ghost predicate Valid()
      reads this
    {
      Building(-1) && forall i :: 0 <= i < NINODES ==> FileOk(Final(), ino[i])
    }

    /** The block of file block fbn, handing out blocks as needed (the first half of iappend's loop body). */
    method MapBlock(ghost inum: nat, din: Inode, fbn: nat) returns (ok: bool, x: uint, din': Inode)
      requires Building(inum) && inum < freeinode && ino[inum] == din && fbn < MAXFILE
      modifies this`disk, this`freeblock, this`ino
      ensures ok ==> Building(inum) && ino[inum] == din' && x != 0
                     && BlockMapped(old(Final()), old(ino), Final(), ino, inum, fbn, x)
                     && SameInodeBlocks(TheSuper(), old(Final()), Final())
      ensures ok <==> old(freeblock) + MapCost(old(Final()), din, fbn) <= FSSIZE
      ensures ok ==> freeblock == old(freeblock) + MapCost(old(Final()), din, fbn)
                     && (din'.addrs[NDIRECT] != 0 <==> din.addrs[NDIRECT] != 0 || fbn >= NDIRECT)
    {
      hide SlotsInRange; hide SlotsUnique; hide Holds; hide FileByte; hide ZeroBlock; hide Word; hide Used;
      hide FirstBits; hide AllSyncedBut;
      din' := din;
      if fbn < NDIRECT {
        if din.addrs[fbn] == 0 {
          ok := FillAddr(inum, fbn);
          if !ok { return false, 0, din; }
          din' := WithAddr(din, fbn, freeblock - 1);
        }
        return true, din'.addrs[fbn], din';
      }
      ghost var g0, ino0 := Final(), ino;
      if din.addrs[NDIRECT] == 0 {
        ok := FillAddr(inum, NDIRECT);
        if !ok { return false, 0, din; }
        din' := WithAddr(din, NDIRECT, freeblock - 1);
      }
      ghost var g1 := Final();
      ok, x := FillEntry(inum, din'.addrs[NDIRECT], fbn - NDIRECT);
      if ok { MappedInTwoSteps(g0, ino0, g1, ino, Final(), inum, fbn); }
    }

    /** addrs[k] = freeblock++ */
    method FillAddr(ghost inum: nat, ghost k: nat) returns (ok: bool)
      requires Building(inum) && inum < freeinode && k <= NDIRECT && ino[inum].addrs[k] == 0
      modifies this`freeblock, this`ino
      ensures ok <==> old(freeblock) < FSSIZE
      ensures ok ==> Building(inum) && freeblock == old(freeblock) + 1
                     && ino == old(ino)[inum := WithAddr(old(ino)[inum], k, old(freeblock))]
                     && SameSlotsBut(old(Final()), old(ino), Final(), ino, inum, k)
                     && SameBytes(old(Final()), old(ino), Final(), ino)
                     && SameInodeBlocks(TheSuper(), old(Final()), Final())
    {
      hide SlotsInRange; hide SlotsUnique; hide Holds; hide FileByte; hide ZeroBlock; hide Slot; hide Used;
      hide FirstBits; hide GetInode;
      if freeblock >= FSSIZE {
        return false;
      }
      ghost var g0, ino0 := Final(), ino;
      TakeKeeps(disk, ino, freeblock);
      var b := freeblock;
      freeblock := freeblock + 1;
      StoreAddrKeeps(TheSuper(), Final(), ino, {b}, inum, k, b);
      assert {b} - {b} == {};
      ino := ino[inum := WithAddr(ino[inum], k, b)];
      SyncedKept(TheSuper(), g0, ino0, Final(), ino, inum);
      return true;
    }

    /** indirect[j] = freeblock++, unless the entry is there already */
    method FillEntry(ghost inum: nat, a: uint, j: nat) returns (ok: bool, x: uint)
      requires Building(inum) && inum < freeinode && j < NINDIRECT && ino[inum].addrs[NDIRECT] == a != 0
      modifies this`disk, this`freeblock
      ensures ok ==> Building(inum) && x != 0 && x == Slot(Final(), ino[inum], NDIRECT + 1 + j)
                     && SameSlotsBut(old(Final()), ino, Final(), ino, inum, NDIRECT + 1 + j)
                     && SameBytes(old(Final()), ino, Final(), ino)
                     && SameInodeBlocks(TheSuper(), old(Final()), Final())
                     && (Slot(old(Final()), ino[inum], NDIRECT + 1 + j) != 0 ==> Final() == old(Final()))
      ensures ok <==> Slot(old(Final()), ino[inum], NDIRECT + 1 + j) != 0 || old(freeblock) < FSSIZE
      ensures ok ==>
                freeblock == old(freeblock) + if Slot(old(Final()), ino[inum], NDIRECT + 1 + j) == 0 then 1 else 0
    {
      hide SlotsUnique; hide Holds; hide FileByte; hide ZeroBlock; hide Used; hide FirstBits; hide GetInode;
      hide Word; hide PutWord; hide Bit;
      ghost var g0 := Final();
      assert GoodNumber(TheSuper(), g0, {}, Slot(g0, ino[inum], NDIRECT));
      UsedBelow(a);
      var indirect := disk[a];
      x := Word(indirect, j);
      if x == 0 {
        if freeblock >= FSSIZE {
          return false, 0;
        }
        TakeKeeps(disk, ino, freeblock);
        x := freeblock;
        freeblock := freeblock + 1;
        ghost var g1 := Final();
        assert Slot(g1, ino[inum], NDIRECT + 1 + j) == Slot(g0, ino[inum], NDIRECT + 1 + j);
        StoreEntryKeeps(TheSuper(), g1, ino, {x as nat}, inum, j, x);
        assert {x as nat} - {x as nat} == {};
        disk := disk[a := PutWord(indirect, j, x)];
        assert Final() == g1[a := PutWord(g1[a], j, x)];
        SyncedKept(TheSuper(), g0, ino, Final(), ino, inum);
      }
      return true, x;
    }

    lemma UsedBelow(b: nat)
      requires Sized() && b < FSSIZE && Used(TheSuper(), Final(), b)
      ensures b < freeblock
    {
      hide Used; hide FirstBits;
      WithBitmapUsed(disk, freeblock, b);
    }

    /** One iteration of iappend's loop: bytes that lie in one block. */
    method AppendPiece(ghost inum: nat, din: Inode, at: nat, piece: seq<byte>) returns (ok: bool, din': Inode)
      requires Building(inum) && inum < freeinode && ino[inum] == din && MappedUpTo(Final(), din, at)
      requires 1 <= |piece| <= BSIZE - at % BSIZE && at / BSIZE < MAXFILE
      modifies this`disk, this`freeblock, this`ino
      ensures ok ==> Building(inum) && ino[inum] == din' && SameFilesBut(old(Final()), old(ino), inum)
                     && BytesWritten(old(Final()), old(ino), Final(), ino, inum, at, piece)
                     && MappedUpTo(Final(), din', at + |piece|)
      ensures ok <==> old(freeblock) + BlocksFor(at + |piece|) - BlocksFor(at) <= FSSIZE
      ensures ok ==> freeblock == old(freeblock) + BlocksFor(at + |piece|) - BlocksFor(at)
    {
      hide SlotsInRange; hide SlotsUnique; hide Holds; hide FileByte; hide ZeroBlock; hide Slot; hide Used;
      hide FirstBits; hide GetInode; hide Bit; hide BlocksFor; hide MapCost;
      ghost var g0, ino0 := Final(), ino;
      var fbn := at / BSIZE;
      PieceCost(g0, din, at, |piece|);
      var x: uint;
      ok, x, din' := MapBlock(inum, din, fbn);
      if !ok {
        return;
      }
      ghost var g1 := Final();
      MappedGrows(g0, ino0, g1, ino, inum, fbn, x);
      SlotBelow(inum, DataSlot(fbn));
      var lo := at % BSIZE;
      var buf: Block := disk[x][..lo] + piece + disk[x][lo + |piece|..];
      WriteDataKeeps(TheSuper(), g1, ino, {}, inum, fbn, buf);
      PieceInBlock(g1, g1[x := buf], ino, inum, at, piece, buf);
      disk := disk[x := buf];
      assert Final() == g1[x := buf];
      SyncedKept(TheSuper(), g0, ino0, Final(), ino, inum);
      forall m, n | 0 <= m < |ino| && 0 <= n < MAXFILE
        ensures DataBlock(Final(), ino[m], n) == DataBlock(g1, ino[m], n)
      {
        assert InTable(ino, m, DataSlot(n));
      }
    }

    lemma SlotBelow(i: nat, k: nat)
      requires Sized() && Owned(TheSuper(), Final(), ino, {}) && InTable(ino, i, k) && Slot(Final(), ino[i], k) != 0
      ensures NMETA <= Slot(Final(), ino[i], k) < freeblock
    {
      hide Slot; hide Used; hide FirstBits;
      assert GoodNumber(TheSuper(), Final(), {}, Slot(Final(), ino[i], k));
      UsedBelow(Slot(Final(), ino[i], k));
    }

    ghost predicate SameFilesBut(g0: Disk, ino0: Table, inum: nat)
      reads this
    {
      && Sized() && |ino0| == |ino| && inum < |ino| && ino[inum] == ino0[inum].(addrs := ino[inum].addrs)
      && SameInodeBlocks(TheSuper(), g0, Final())
      && (forall m :: 0 <= m < |ino| && m != inum ==> ino[m] == ino0[m])
      && (forall m, n {:trigger DataBlock(Final(), ino[m], n)} :: 0 <= m < |ino| && m != inum && 0 <= n < MAXFILE ==>
            DataBlock(Final(), ino[m], n) == DataBlock(g0, ino0[m], n))
    }

    /** iappend: the file grows by exactly `data`; the others keep their bytes. */
    method Iappend(inum: nat, data: seq<byte>) returns (ok: bool)
      requires Valid() && inum < freeinode
      modifies this`disk, this`freeblock, this`ino
      ensures ok ==> Valid() && Grown(old(Final()), old(ino), inum, data)
      ensures var size := old(ino)[inum].size;
              ok <==> size + |data| <= MAXFILE * BSIZE
                      && old(freeblock) + BlocksFor(size + |data|) - BlocksFor(size) <= FSSIZE
      ensures var size := old(ino)[inum].size;
              ok ==> freeblock == old(freeblock) + BlocksFor(size + |data|) - BlocksFor(size)
    {
      hide SlotsInRange; hide SlotsUnique; hide Holds; hide FileByte; hide Slot; hide Used; hide FirstBits;
      hide GetInode; hide BytesWritten; hide BlocksFor;
      ghost var g0, ino0 := Final(), ino;
      assert FileOk(Final(), ino[inum]) && Synced(TheSuper(), Final(), ino, inum);
      var din := GetInode(disk[TheSuper().Iblock(inum)], inum % IPB);
      ghost var off := din.size as nat;
      var at, done := din.size, 0;
      AppendStart(inum, off);
      assert data[..0] == [];
      while done < |data|
        invariant done <= |data| && AppendedSoFar(g0, ino0, inum, off, data[..done])
        invariant at == off + done && ino[inum] == din
        invariant freeblock == old(freeblock) + BlocksFor(off + done) - BlocksFor(off)
      {
        if at / BSIZE >= MAXFILE {
          return false;
        }
        var n1 := if |data| - done < BSIZE - at % BSIZE then |data| - done else BSIZE - at % BSIZE;
        BlocksForGrows(at + n1, off + |data|);
        ok, din := AppendNext(g0, ino0, inum, din, off, data[..done], at, data[done..done + n1]);
        if !ok {
          return false;
        }
        PrefixGrows(data, done, n1, n1);
        at, done := at + n1, done + n1;
      }
      assert data[..done] == data;
      Winode(g0, ino0, inum, din.(size := at), data);
      return true;
    }

    ghost predicate AppendedSoFar(g0: Disk, ino0: Table, inum: nat, off: nat, data: seq<byte>)
      reads this
    {
      && Building(inum) && SameFilesBut(g0, ino0, inum) && inum < freeinode
      && BytesWritten(g0, ino0, Final(), ino, inum, off, data)
      && off + |data| <= MAXFILE * BSIZE && MappedUpTo(Final(), ino[inum], off + |data|)
    }

    lemma AppendStart(inum: nat, off: nat)
      requires Building(inum) && inum < freeinode && off == ino[inum].size && FileOk(Final(), ino[inum])
      ensures AppendedSoFar(Final(), ino, inum, off, [])
    {
    }

    method AppendNext(ghost g0: Disk, ghost ino0: Table, ghost inum: nat, din: Inode, ghost off: nat,
                      ghost data: seq<byte>, at: nat, piece: seq<byte>) returns (ok: bool, din': Inode)
      requires AppendedSoFar(g0, ino0, inum, off, data) && ino[inum] == din && at == off + |data|
      requires 1 <= |piece| <= BSIZE - at % BSIZE && at / BSIZE < MAXFILE
      modifies this`disk, this`freeblock, this`ino
      ensures ok ==> AppendedSoFar(g0, ino0, inum, off, data + piece) && ino[inum] == din'
      ensures ok <==> old(freeblock) + BlocksFor(at + |piece|) - BlocksFor(at) <= FSSIZE
      ensures ok ==> freeblock == old(freeblock) + BlocksFor(at + |piece|) - BlocksFor(at)
    {
      hide BlocksFor; hide Owned; hide AllSyncedBut; hide FileByte; hide DataBlock; hide FirstBits; hide ZeroBlock;
      ghost var g1, ino1 := Final(), ino;
      ok, din' := AppendPiece(inum, din, at, piece);
      if ok {
        BytesCompose(g0, ino0, g1, ino1, Final(), ino, inum, off, data, piece);
      }
    }

    /** What appending `data` to file inum means for all files. */
    ghost predicate Grown(g0: Disk, ino0: Table, inum: nat, data: seq<byte>)
      reads this
    {
      && Sized() && |ino0| == |ino| && inum < |ino|
      && Content(Final(), ino[inum]) == Content(g0, ino0[inum]) + data
      && SameKind(ino0[inum], ino[inum])
      && (forall m :: 0 <= m < |ino| && m != inum ==>
          ino[m] == ino0[m]
          && Content(Final(), ino[m]) == Content(g0, ino0[m]))
    }

    /** The end of iappend: record the size and write the dinode. */
    method Winode(ghost g0: Disk, ghost ino0: Table, inum: nat, din: Inode, ghost data: seq<byte>)
      requires |ino0| == NINODES && inum < NINODES && (forall i :: 0 <= i < NINODES ==> FileOk(g0, ino0[i]))
      requires AppendedSoFar(g0, ino0, inum, ino0[inum].size, data)
                 && din == ino[inum].(size := ino0[inum].size + |data|)
      modifies this`disk, this`ino
      ensures Valid() && Grown(g0, ino0, inum, data) && freeblock == old(freeblock)
    {
      hide SlotsInRange; hide SlotsUnique; hide Holds; hide FileByte; hide Slot; hide Used; hide FirstBits;
      hide PutInode; hide GetInode; hide ZeroBlock;
      ghost var g1, ino1 := Final(), ino;
      ResizeKeeps(TheSuper(), g1, ino, {}, inum, din.size);
      ino := ino[inum := din];
      var at := TheSuper().Iblock(inum);
      var b := PutInode(disk[at], inum % IPB, din, 16);
      SyncedKept(TheSuper(), g1, ino1, g1, ino, inum);
      InodeStored(TheSuper(), g1, ino, inum, b);
      disk := disk[at := b];
      assert Final() == g1[at := b];
      ghost var g2 := Final();
      forall m | 0 <= m < |ino| ensures FileOk(g2, ino[m]) {
        assert FileOk(g0, ino0[m]);
        BlocksSame(g1, ino1, g1, ino, m);
        BlocksSame(g1, ino, g2, ino, m);
      }
      ContentSpliced(g0, ino0[inum], g2, din, ino0[inum].size, data);
      forall m | 0 <= m < |ino| && m != inum ensures Content(g2, ino[m]) == Content(g0, ino0[m]) {
        assert forall p :: 0 <= p < MAXFILE * BSIZE ==> FileByte(g2, ino[m], p) == FileByte(g0, ino0[m], p);
      }
    }

    /** wsect of zeroes over the whole image; nothing is handed out yet. */
    constructor ()
      ensures Valid() && freeinode == 1 && freeblock == NMETA
      ensures forall i :: 0 <= i < NINODES ==> Content(Final(), ino[i]) == []
    {
      disk := seq(FSSIZE, i => ZeroBlock());
      freeblock, freeinode := NMETA, 1;
      ino := seq(NINODES, i => Inode(0, 0, 0, NoAddrs));
      new;
      EmptyImage();
    }

    lemma EmptyImage()
      requires |disk| == FSSIZE && freeblock == NMETA && freeinode == 1 && |ino| == NINODES
      requires forall b :: 0 <= b < FSSIZE ==> disk[b] == ZeroBlock()
      requires forall i :: 0 <= i < NINODES ==> ino[i] == Inode(0, 0, 0, NoAddrs)
      ensures Valid()
    {
      hide FirstBits; hide Word; hide ZeroBlock; hide Used; hide GetInode;
      forall b: nat | b < FSSIZE ensures Used(TheSuper(), Final(), b) == (b < NMETA) { WithBitmapUsed(disk, NMETA, b); }
      forall i: nat | i < NINODES ensures Synced(TheSuper(), Final(), ino, i) { ZeroInode(i % IPB); }
      assert AllSyncedBut(TheSuper(), Final(), ino, -1);
    }

    lemma ZeroInode(slot: nat)
      requires slot < IPB
      ensures GetInode(ZeroBlock(), slot) == Inode(0, 0, 0, NoAddrs)
    {
      hide Word; hide ZeroBlock;
      forall w: nat | w < WORDS ensures Word(ZeroBlock(), w) == 0 { WordOfZero(w); }
      assert GetInode(ZeroBlock(), slot).addrs == NoAddrs;
    }

    /** ialloc: the next inode, empty, with one link. */
    method Ialloc(kind: uint) returns (inum: nat)
      requires Valid() && freeinode < NINODES && kind < 0x1_0000
      modifies this`disk, this`freeinode, this`ino
      ensures Valid() && inum == old(freeinode) && freeinode == inum + 1
      ensures ino[inum] == Inode(kind, 0x1_0000, 0, NoAddrs) && Content(Final(), ino[inum]) == []
      ensures forall m :: 0 <= m < NINODES && m != inum ==>
                ino[m] == old(ino)[m]
                && Content(Final(), ino[m]) == Content(old(Final()), old(ino)[m])
    {
      hide SlotsInRange; hide SlotsUnique; hide Holds; hide FileByte; hide Used; hide FirstBits;
      hide PutInode; hide GetInode; hide ZeroBlock; hide Word;
      inum := freeinode;
      freeinode := freeinode + 1;
      ghost var g1, ino1 := Final(), ino;
      var din := Inode(kind, 0x1_0000, 0, NoAddrs);
      ino := ino[inum := din];
      assert SameSlots(g1, ino1, g1, ino);
      OwnedSame(TheSuper(), g1, ino1, g1, ino, {});
      BytesKept(g1, ino1, g1, ino, -1, -1);
      SyncedKept(TheSuper(), g1, ino1, g1, ino, inum);
      var at := TheSuper().Iblock(inum);
      var b := PutInode(disk[at], inum % IPB, din, 16);
      InodeStored(TheSuper(), g1, ino, inum, b);
      disk := disk[at := b];
      ghost var g2 := Final();
      assert g2 == g1[at := b];
      forall m | 0 <= m < |ino| ensures FileOk(g2, ino[m]) && (m != inum ==>
          Content(g2, ino[m]) == Content(g1, ino1[m])) {
        assert FileOk(g1, ino1[m]);
        BlocksSame(g1, ino, g2, ino, m);
        BlocksSame(g1, ino1, g1, ino, m);
      }
    }

    /** Round the root size up to the next block; always up, even from an exact multiple. */
    method FixRoot()
      requires Valid() && ROOTINO < freeinode
      modifies this`disk, this`ino
      ensures Building(-1) && SameFiles(old(Final()), old(ino))
      ensures ino[ROOTINO] == old(ino)[ROOTINO].(size := (old(ino)[ROOTINO].size / BSIZE + 1) * BSIZE)
      ensures NoHoles(Final(), ino[ROOTINO]) <==> old(ino)[ROOTINO].size % BSIZE != 0
      ensures Content(Final(), ino[ROOTINO]) ==
              Content(old(Final()), old(ino)[ROOTINO]) + Zeros(BSIZE - old(ino)[ROOTINO].size % BSIZE)
    {
      hide SlotsInRange; hide SlotsUnique; hide Holds; hide FileByte; hide Used; hide FirstBits;
      hide PutInode; hide GetInode; hide ZeroBlock; hide Slot;
      ghost var g1, ino1 := Final(), ino;
      var at := TheSuper().Iblock(ROOTINO);
      assert Synced(TheSuper(), Final(), ino, ROOTINO) && FileOk(g1, ino[ROOTINO]);
      var din := GetInode(disk[at], ROOTINO % IPB);
      din := din.(size := (din.size / BSIZE + 1) * BSIZE);
      ResizeKeeps(TheSuper(), g1, ino, {}, ROOTINO, din.size);
      ino := ino[ROOTINO := din];
      SyncedKept(TheSuper(), g1, ino1, g1, ino, ROOTINO);
      var b := PutInode(disk[at], ROOTINO % IPB, din, 16);
      InodeStored(TheSuper(), g1, ino, ROOTINO, b);
      disk := disk[at := b];
      ghost var g2 := Final();
      assert g2 == g1[at := b];
      forall m | 0 <= m < |ino| ensures SameDataBlocks(g1, ino1[m], g2, ino[m]) {
        BlocksSame(g1, ino1, g1, ino, m);
        BlocksSame(g1, ino, g2, ino, m);
      }
      RootHole(g1, ino1[ROOTINO], g2, din);
    }

    ghost predicate SameFiles(g0: Disk, ino0: Table)
      reads this
    {
      && Sized() && |ino0| == |ino|
      && forall m :: 0 <= m < |ino| && m != ROOTINO ==>
           ino[m] == ino0[m] && Content(Final(), ino[m]) == Content(g0, ino0[m]) && NoHoles(Final(), ino[m])
    }

    lemma RootHole(g1: Disk, ip1: Inode, g2: Disk, ip2: Inode)
      requires FileOk(g1, ip1) && SameDataBlocks(g1, ip1, g2, ip2) && ip2.size == (ip1.size / BSIZE + 1) * BSIZE
      ensures NoHoles(g2, ip2) <==> ip1.size % BSIZE != 0
    {
      hide DataBlock;
      var bn := ip1.size / BSIZE;
      if ip1.size % BSIZE == 0 && bn < MAXFILE {
        assert DataBlock(g2, ip2, bn) == 0;
      }
    }

    /** balloc(used): write the bitmap. */
    method WriteBitmap()
      requires Building(-1)
      modifies this`disk
      ensures disk == old(Final())
    {
      var buf := ZeroBlock();
      var i := 0;
      assert freeblock < BPB;
      while i < freeblock
        invariant i <= freeblock && buf == FirstBits(i)
      {
        buf := SetBit(buf, i);
        i := i + 1;
      }
      disk := disk[TheSuper().bmapstart := buf];
    }

    /** The root directory and the first k files are in place. */
    ghost predicate Populated(files: seq<File>)
      reads this
    {
      && Valid() && |files| + 2 <= NINODES && freeinode == |files| + 2 && freeblock == ImageBlocks(files)
      && (forall k :: 0 <= k < |files| ==> |files[k].name| <= DIRSIZ)
      && Content(Final(), ino[ROOTINO]) == RootEntries(files) && Kinds(ino, |files|)
      && (forall k :: 0 <= k < |files| ==> Content(Final(), ino[k + 2]) == files[k].data)
    }

    /** One file of mkfs's command line: inode, directory entry, data block by block. */
    method AddFile(ghost files: seq<File>, f: File) returns (ok: bool)
      requires Populated(files) && |files| + 3 <= NINODES
      modifies this
      ensures ok ==> Populated(files + [f])
      ensures ok <==> |f.name| <= DIRSIZ && |f.data| <= MAXFILE * BSIZE && ImageBlocks(files + [f]) <= FSSIZE
    {
      hide Building; hide FileOk; hide Content; hide Dirent; hide BlocksFor;
      ghost var more := files + [f];
      assert more[..|more| - 1] == files;
      if |f.name| > DIRSIZ {
        return false;
      }
      var inum := Ialloc(2);
      FileSize(ROOTINO);
      ok := Iappend(ROOTINO, Dirent(inum, f.name));
      if !ok {
        return false;
      }
      assert Content(Final(), ino[inum]) == [];
      assert Content(Final(), ino[ROOTINO]) == RootEntries(more);
      ok := AppendAll(inum, f.data);
      assert ok ==> Kinds(ino, |more|);
    }

    lemma FileSize(i: nat)
      requires Valid() && i < NINODES
      ensures |Content(Final(), ino[i])| == ino[i].size
    {
    }

    method AppendAll(inum: nat, data: seq<byte>) returns (ok: bool)
      requires Valid() && inum < freeinode && Content(Final(), ino[inum]) == []
      modifies this`disk, this`freeblock, this`ino
      ensures ok ==> Valid() && Grown(old(Final()), old(ino), inum, data)
      ensures ok <==> |data| <= MAXFILE * BSIZE && old(freeblock) + BlocksFor(|data|) <= FSSIZE
      ensures ok ==> freeblock == old(freeblock) + BlocksFor(|data|)
    {
      hide Owned; hide AllSyncedBut; hide FileOk; hide Content; hide BlocksFor;
      assert BlocksFor(0) == 0 by { NoBlocks(); }
      var done := 0;
      ghost var g0, ino0 := Final(), ino;
      assert data[..0] == [] && Content(g0, ino[inum]) + [] == Content(g0, ino[inum]);
      while done < |data|
        invariant done <= |data| && Valid() && inum < freeinode && Grown(g0, ino0, inum, data[..done])
        invariant freeblock == old(freeblock) + BlocksFor(done) && done <= MAXFILE * BSIZE
      {
        var cc := if |data| - done < BSIZE then |data| - done else BSIZE;
        FileSize(inum);
        BlocksForGrows(done + cc, |data|);
        ok := Iappend(inum, data[done..done + cc]);
        if !ok {
          return false;
        }
        PrefixGrows(data, done, cc, cc);
        done := done + cc;
      }
      assert data[..done] == data;
      return true;
    }

    lemma NoBlocks()
      ensures BlocksFor(0) == 0 && BlocksFor(16) == 1 && BlocksFor(32) == 1
    {
    }

    /** The root directory with "." and "..". */
    method MakeRoot() returns (ok: bool)
      requires Valid() && freeinode == 1 && freeblock == NMETA
      requires forall i :: 0 <= i < NINODES ==> Content(Final(), ino[i]) == []
      modifies this
      ensures ok && Populated([])
    {
      hide Building; hide FileOk; hide Content; hide Dirent; hide BlocksFor;
      NoBlocks();
      var root := Ialloc(1);
      FileSize(root);
      ok := Iappend(root, Dirent(root, [46]));
      if !ok {
        return false;
      }
      FileSize(root);
      ok := Iappend(root, Dirent(root, [46, 46]));
      if !ok {
        return false;
      }
    }

    /** mkfs: it finishes exactly when the names, the files and all their blocks fit.  Then
        every block number is marked and stored once and no marked block is lost, the
        files hold their data, and the image is free of holes exactly when the root
        directory does not fill its last block. */
    method Build(files: seq<File>) returns (ok: bool)
      requires Valid() && freeinode == 1 && freeblock == NMETA && |files| + 2 <= NINODES
      requires forall i :: 0 <= i < NINODES ==> Content(Final(), ino[i]) == []
      modifies this
      ensures ok <==> Fits(files)
      ensures ok ==> |ino| == NINODES && Owned(TheSuper(), disk, ino, {}) && AllSyncedBut(TheSuper(), disk, ino, -1)
      ensures ok ==> Kinds(ino, |files|)
      ensures ok ==> (AllNoHoles(disk, ino) <==> (|files| + 2) % 64 != 0)
      ensures ok ==> forall k :: 0 <= k < |files| ==> Content(disk, ino[k + 2]) == files[k].data
      ensures ok ==>
                (forall k :: 0 <= k < |files| ==> |files[k].name| <= DIRSIZ)
                && RootEntries(files) <= Content(disk, ino[ROOTINO])
    {
      hide Populated; hide Owned; hide AllSyncedBut; hide AllNoHoles; hide Content; hide RootEntries; hide FileOk;
      hide Fits; hide ImageBlocks;
      ok := MakeRoot();
      if !ok {
        return false;
      }
      var k := 0;
      assert files[..0] == [];
      RootFits();
      while k < |files|
        invariant k <= |files| && Populated(files[..k]) && Fits(files[..k])
      {
        if Fits(files) { PrefixFits(files, k + 1); }
        OneMoreFits(files, k);
        ok := AddFile(files[..k], files[k]);
        if !ok {
          return false;
        }
        k := k + 1;
      }
      assert files[..k] == files;
      Finish(files);
      return true;
    }

    lemma RootFits()
      ensures Fits([])
    {
    }

    lemma OneMoreFits(files: seq<File>, k: nat)
      requires k < |files| && Fits(files[..k])
      ensures files[..k] + [files[k]] == files[..k + 1]
      ensures Fits(files[..k + 1]) <==>
              |files[k].name| <= DIRSIZ && |files[k].data| <= MAXFILE * BSIZE && ImageBlocks(files[..k + 1]) <= FSSIZE
    {
      hide ImageBlocks;
      var more := files[..k + 1];
      assert more[k] == files[k] && forall j :: 0 <= j < k ==> more[j] == files[..k][j];
    }

    method Finish(ghost files: seq<File>)
      requires Populated(files)
      modifies this`disk, this`ino
      ensures |ino| == NINODES && Owned(TheSuper(), disk, ino, {}) && AllSyncedBut(TheSuper(), disk, ino, -1)
      ensures Kinds(ino, |files|)
      ensures (AllNoHoles(disk, ino) <==> (|files| + 2) % 64 != 0)
      ensures forall k :: 0 <= k < |files| ==> Content(disk, ino[k + 2]) == files[k].data
      ensures (forall k :: 0 <= k < |files| ==> |files[k].name| <= DIRSIZ)
                && RootEntries(files) <= Content(disk, ino[ROOTINO])
    {
      hide Owned; hide AllSyncedBut; hide FileOk; hide FirstBits; hide NoHoles; hide FileByte; hide RootEntries;
      FixRoot();
      WriteBitmap();
      assert (16 * (|files| + 2)) % 1024 != 0 <==> (|files| + 2) % 64 != 0;
    }
  }

  // ---- a root directory that fills its block -----------------------------------------

  /** 62 empty files, called "aa", "ba" and so on: with "." and ".." the directory is 64 entries, one whole block. */
  function FullRoot(): seq<File> {
    seq(62, i requires 0 <= i < 62 => File([97 + i % 26, 97 + i / 26], []))
  }

  lemma FullRootFits()
    ensures Fits(FullRoot()) && (|FullRoot()| + 2) % 64 == 0
  {
    NoData(FullRoot());
  }

  lemma {:induction false} NoData(files: seq<File>)
    requires forall k :: 0 <= k < |files| ==> files[k].data == []
    ensures DataBlocksOf(files) == 0
  {
    if files != [] {
      NoData(files[..|files| - 1]);
    }
  }

  /** mkfs then succeeds, and its root directory has a hole. */
  method HoleInRoot() returns (ok: bool, image: Image)
    ensures ok && |image.ino| == NINODES && Owned(TheSuper(), image.disk, image.ino, {})
    ensures !AllNoHoles(image.disk, image.ino)
  {
    hide Owned; hide AllNoHoles; hide AllSyncedBut; hide Fits; hide Content;
    FullRootFits();
    image := new Image();
    ok := image.Build(FullRoot());
  }
}
