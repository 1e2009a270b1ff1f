/** balloc, bfree, bmap, iupdate, itrunc, readi and writei of kernel/fs.c, and
    the chunked filewrite of kernel/file.c, on the structures of FsModel.

    `disk` is what bread returns (the buffer cache over the log), `ino` the
    in-memory inodes, `logged` the blocks the current transaction has passed to
    log_write.  Copies are from and to kernel memory, so they do not fail. */
module FsCode {
  import opened Blocks
  import opened FsModel
  import opened FsFiles

  class FileSystem {
    const sb: Super
    var disk: Disk
    var ino: Table
    ghost var logged: set<nat>

    constructor (sb: Super, disk: Disk, ino: Table)
      ensures this.sb == sb && this.disk == disk && this.ino == ino && logged == {}
    {
      this.sb, this.disk, this.ino, this.logged := sb, disk, ino, {};
    }

    ghost predicate Valid()
      reads this
    {
      FsInv(sb, disk, ino)
    }

    /** balloc would fail. */
    ghost predicate Full()
      reads this
    {
      sb.Valid() && |disk| == sb.size && forall b :: 0 <= b < sb.size ==> Used(sb, disk, b)
    }

    /** balloc: the first free block, marked and zeroed; 0 when there is none. */
    method Balloc() returns (r: uint)
      requires sb.Valid() && |disk| == sb.size && Used(sb, disk, 0)
      modifies this`disk, this`logged
      ensures r == 0 ==> disk == old(disk) && logged == old(logged) && Full()
      ensures r != 0 ==> r < sb.size && !Used(sb, old(disk), r) && disk == Allocated(sb, old(disk), r)
                         && logged == old(logged) + {sb.Bblock(r), r as nat}
      ensures r != 0 ==> forall b :: 0 <= b < r ==> Used(sb, old(disk), b)
    {
      hide Bit; hide SetBit; hide ZeroBlock;
      var b := 0;
      while b < sb.size
        invariant b % BPB == 0
        invariant forall c :: 0 <= c < b && c < sb.size ==> Used(sb, disk, c)
        invariant disk == old(disk) && logged == old(logged)
        decreases sb.size - b
      {
        var bp := disk[sb.Bblock(b)];
        var bi := 0;
        while bi < BPB && b + bi < sb.size
          invariant 0 <= bi <= BPB
          invariant forall c :: 0 <= c < b + bi && c < sb.size ==> Used(sb, disk, c)
          invariant disk == old(disk) && logged == old(logged)
        {
          assert (b + bi) / BPB == b / BPB && (b + bi) % BPB == bi;
          if !Bit(bp, bi) {
            BblockInRange(sb, b + bi);
            disk := disk[sb.Bblock(b) := SetBit(bp, bi)];
            disk := disk[b + bi := ZeroBlock()];
            logged := logged + {sb.Bblock(b), b + bi};
            return b + bi;
          }
          bi := bi + 1;
        }
        b := b + BPB;
      }
      return 0;
    }

    /** bfree: the caller owns the block, so it is marked. */
    method Bfree(b: uint)
      requires sb.Valid() && |disk| == sb.size && b < sb.size && Used(sb, disk, b)
      modifies this`disk, this`logged
      ensures disk == Unmarked(sb, old(disk), b) && logged == old(logged) + {sb.Bblock(b)}
    {
      var bp := disk[sb.Bblock(b)];
      disk := disk[sb.Bblock(b) := ClearBit(bp, b % BPB)];
      logged := logged + {sb.Bblock(b)};
    }

    /** iupdate: copy the in-memory inode to its dinode. */
    method Iupdate(i: nat)
      requires Owned(sb, disk, ino, {}) && |ino| == sb.ninodes && i < |ino| && AllSyncedBut(sb, disk, ino, i)
      modifies this`disk, this`logged
      ensures Owned(sb, disk, ino, {}) && AllSyncedBut(sb, disk, ino, -1)
      ensures SameSlots(old(disk), ino, disk, ino) && SameBytes(old(disk), ino, disk, ino)
      ensures SameUsedBut(sb, old(disk), disk, -1)
      ensures AllLogged(old(disk), disk, logged) && old(logged) <= logged
      ensures logged == old(logged) + {sb.Iblock(i)}
    {
      hide SlotsInRange; hide SlotsUnique; hide Holds; hide GetInode; hide PutWord; hide FileByte; hide Slot; hide Used;
      var at, slot := sb.Iblock(i), i % IPB;
      var w, b := 0, disk[at];
      while w < 16
        invariant w <= 16 && b == PutInode(disk[at], slot, ino[i], w)
      {
        b := PutWord(b, 16 * slot + w, InodeWord(ino[i], w));
        w := w + 1;
      }
      InodeStored(sb, disk, ino, i, b);
      disk := disk[at := b];
      logged := logged + {at};
    }

    /** What bmap guarantees: only a full disk makes it return 0. */
    ghost predicate Mapped(disk0: Disk, ino0: Table, i: nat, bn: nat, addr: uint)
      requires bn < MAXFILE && i < |ino0|
      reads this
    {
      && BlockMapped(disk0, ino0, disk, ino, i, bn, addr) && SameInodeBlocks(sb, disk0, disk)
      && (addr == 0 ==> Full())
    }

    ghost function BitmapBlocks(): set<nat>
    {
      BlockRange(sb.bmapstart, sb.size / BPB + 1)
    }

    /** bmap: the address of data block bn, allocating it if necessary. */
    method Bmap(i: nat, bn: nat) returns (addr: uint)
      requires Owned(sb, disk, ino, {}) && i < |ino| && bn < MAXFILE
      modifies this`disk, this`ino, this`logged
      ensures Owned(sb, disk, ino, {}) && Mapped(old(disk), old(ino), i, bn, addr)
      ensures AllLogged(old(disk), disk, logged) && old(logged) <= logged
      ensures logged <= old(logged) + BitmapBlocks() + ({addr as nat, ino[i].addrs[NDIRECT] as nat} - {0})
      ensures DataBlock(old(disk), old(ino)[i], bn) != 0 ==> logged == old(logged)
    {
      hide SlotsInRange; hide SlotsUnique; hide Holds; hide FileByte; hide Used; hide Word; hide BlockRange;
      if bn < NDIRECT {
        addr := ino[i].addrs[bn];
        if addr == 0 {
          addr := MapAddr(i, bn);
        }
      } else {
        addr := BmapIndirect(i, bn);
      }
    }

    method BmapIndirect(i: nat, bn: nat) returns (addr: uint)
      requires Owned(sb, disk, ino, {}) && i < |ino| && NDIRECT <= bn < MAXFILE
      modifies this`disk, this`ino, this`logged
      ensures Owned(sb, disk, ino, {}) && Mapped(old(disk), old(ino), i, bn, addr)
      ensures AllLogged(old(disk), disk, logged) && old(logged) <= logged
      ensures logged <= old(logged) + BitmapBlocks() + ({addr as nat, ino[i].addrs[NDIRECT] as nat} - {0})
      ensures DataBlock(old(disk), old(ino)[i], bn) != 0 ==> logged == old(logged)
    {
      hide SlotsInRange; hide SlotsUnique; hide Holds; hide FileByte; hide Used; hide Word; hide BlockRange;
      hide BlockMapped;
      ghost var disk0, ino0 := disk, ino;
      if ino[i].addrs[NDIRECT] == 0 {
        var a := MapAddr(i, NDIRECT);
        if a == 0 {
          MappedInTwoSteps(disk0, ino0, disk, ino, disk, i, bn);
          return 0;
        }
      }
      ghost var disk1 := disk;
      addr := MapEntry(i, bn - NDIRECT);
      MappedInTwoSteps(disk0, ino0, disk1, ino, disk, i, bn);
    }

    /** Allocate a block for the empty slot addrs[k]. */
    method MapAddr(i: nat, k: nat) returns (addr: uint)
      requires Owned(sb, disk, ino, {}) && i < |ino| && k <= NDIRECT && ino[i].addrs[k] == 0
      modifies this`disk, this`ino, this`logged
      ensures Owned(sb, disk, ino, {}) && SameBytes(old(disk), old(ino), disk, ino)
                && SameInodeBlocks(sb, old(disk), disk)
      ensures addr == 0 ==> disk == old(disk) && ino == old(ino) && logged == old(logged) && Full()
      ensures addr != 0 ==> ino == old(ino)[i := WithAddr(old(ino)[i], k, addr)]
      ensures SameSlotsBut(old(disk), old(ino), disk, ino, i, k)
      ensures AllLogged(old(disk), disk, logged) && old(logged) <= logged
      ensures logged <= old(logged) + BitmapBlocks() + ({addr as nat} - {0})
    {
      hide SlotsInRange; hide SlotsUnique; hide Holds; hide FileByte; hide Slot; hide Used; hide ZeroBlock;
      addr := Balloc();
      if addr != 0 {
        ghost var disk0 := old(disk);
        AllocateKeeps(sb, disk0, ino, {}, addr);
        BblockInRange(sb, addr);
        assert {} + {addr as nat} == {addr as nat};
        StoreAddrKeeps(sb, disk, ino, {addr as nat}, i, k, addr);
        ino := ino[i := WithAddr(ino[i], k, addr)];
        assert {addr as nat} - {addr as nat} == {};
        assert sb.Bblock(addr) in BitmapBlocks();
      }
    }

    lemma IndirectInRange(i: nat)
      requires Owned(sb, disk, ino, {}) && i < |ino| && ino[i].addrs[NDIRECT] != 0
      ensures sb.datastart <= ino[i].addrs[NDIRECT] < |disk|
    {
      assert GoodNumber(sb, disk, {}, Slot(disk, ino[i], NDIRECT));
    }

    /** Entry j of the indirect block, allocating the block it names. */
    method MapEntry(i: nat, j: nat) returns (addr: uint)
      requires Owned(sb, disk, ino, {}) && i < |ino| && j < NINDIRECT && ino[i].addrs[NDIRECT] != 0
      modifies this`disk, this`logged
      ensures Owned(sb, disk, ino, {}) && SameBytes(old(disk), ino, disk, ino) && SameInodeBlocks(sb, old(disk), disk)
      ensures SameSlotsBut(old(disk), ino, disk, ino, i, NDIRECT + 1 + j)
      ensures addr == Slot(disk, ino[i], NDIRECT + 1 + j)
      ensures Slot(old(disk), ino[i], NDIRECT + 1 + j) != 0 ==> disk == old(disk) && logged == old(logged)
      ensures addr == 0 ==> disk == old(disk) && Full()
      ensures AllLogged(old(disk), disk, logged) && old(logged) <= logged
      ensures logged <= old(logged) + BitmapBlocks() + ({addr as nat, ino[i].addrs[NDIRECT] as nat} - {0})
    {
      hide SlotsUnique; hide Holds; hide FileByte; hide Used; hide ZeroBlock; hide Word; hide PutWord;
      hide SlotsInRange; hide BlockRange;
      var a := ino[i].addrs[NDIRECT];
      IndirectInRange(i);
      addr := Word(disk[a], j);
      if addr == 0 {
        addr := Balloc();
        if addr != 0 {
          FillEntryKeeps(sb, old(disk), ino, i, j, addr);
          BblockInRange(sb, addr);
          disk := disk[a := PutWord(disk[a], j, addr)];
          logged := logged + {a as nat};
          assert sb.Bblock(addr) in BitmapBlocks();
        }
      }
    }

    /** readi: the requested slice of the file, clipped at its size; nothing changes. */
    method Readi(i: nat, off: uint, n: uint) returns (dst: seq<byte>)
      requires Valid() && i < |ino|
      modifies this`disk, this`ino, this`logged
      ensures disk == old(disk) && ino == old(ino) && logged == old(logged)
      ensures off > ino[i].size || (off + n) % UINT_LIMIT < off ==> dst == []
      ensures off <= ino[i].size && off + n < UINT_LIMIT ==>
                dst == Content(disk, ino[i])[off..if off + n > ino[i].size then ino[i].size else off + n]
    {
      hide Owned; hide Slot; hide AllSyncedBut; hide FileByte;
      dst := [];
      if off > ino[i].size || (off + n) % UINT_LIMIT < off {
        return;
      }
      var want := if off + n > ino[i].size then ino[i].size - off else n;
      assert NoHoles(disk, ino[i]);
      ghost var all := Content(disk, ino[i]);
      var tot := 0;
      while tot < want
        invariant tot <= want && disk == old(disk) && ino == old(ino) && logged == old(logged)
        invariant dst == all[off..off + tot]
      {
        var at := off + tot;
        var m := if want - tot < BSIZE - at % BSIZE then want - tot else BSIZE - at % BSIZE;
        var piece := ReadPiece(i, at, m);
        dst := dst + piece;
        tot := tot + m;
      }
    }

    /** One iteration of readi: m bytes that lie in one block. */
    method ReadPiece(i: nat, at: nat, m: nat) returns (piece: seq<byte>)
      requires Owned(sb, disk, ino, {}) && i < |ino| && NoHoles(disk, ino[i])
      requires 1 <= m <= BSIZE - at % BSIZE && at + m <= ino[i].size
      modifies this`disk, this`ino, this`logged
      ensures disk == old(disk) && ino == old(ino) && logged == old(logged)
      ensures piece == Content(disk, ino[i])[at..at + m]
    {
      hide SlotsInRange; hide SlotsUnique; hide Holds; hide Slot; hide Used; hide BlockRange; hide SameBytes;
      assert DataBlock(disk, ino[i], at / BSIZE) != 0;
      var addr := Bmap(i, at / BSIZE);
      BlockBytes(at, m);
      GoodBlock(at / BSIZE, i);
      piece := disk[addr][at % BSIZE..at % BSIZE + m];
      forall k | 0 <= k < m ensures piece[k] == Content(disk, ino[i])[at + k] {
        BlockBytes(at, k + 1);
      }
    }

    lemma GoodBlock(bn: nat, i: nat)
      requires Owned(sb, disk, ino, {}) && i < |ino| && bn < MAXFILE && DataBlock(disk, ino[i], bn) != 0
      ensures sb.datastart <= DataBlock(disk, ino[i], bn) < |disk|
    {
    }

    /** One iteration of writei: bytes that lie in one block. */
    method WritePiece(i: nat, at: nat, piece: seq<byte>) returns (ok: bool)
      requires Owned(sb, disk, ino, {}) && i < |ino|
      requires 1 <= |piece| <= BSIZE - at % BSIZE && at / BSIZE < MAXFILE
      modifies this`disk, this`ino, this`logged
      ensures Owned(sb, disk, ino, {}) && SameInodeBlocks(sb, old(disk), disk)
      ensures BytesWritten(old(disk), old(ino), disk, ino, i, at, if ok then piece else [])
      ensures forall m :: 0 <= m < |ino| && m != i ==> ino[m] == old(ino)[m]
      ensures forall m :: 0 <= m < |ino| ==> BlocksGrow(old(disk), old(ino)[m], disk, ino[m])
      ensures ok <==> DataBlock(disk, ino[i], at / BSIZE) != 0
      ensures !ok ==> Full()
      ensures AllLogged(old(disk), disk, logged) && old(logged) <= logged
      ensures logged <= old(logged) + BitmapBlocks()
                        + ({DataBlock(disk, ino[i], at / BSIZE) as nat, ino[i].addrs[NDIRECT] as nat} - {0})
    {
      hide SlotsInRange; hide SlotsUnique; hide Holds; hide Slot; hide Used; hide BlockRange; hide FileByte;
      var bn := at / BSIZE;
      var addr := Bmap(i, bn);
      MappedGrows(old(disk), old(ino), disk, ino, i, bn, addr);
      if addr == 0 {
        return false;
      }
      GoodBlock(bn, i);
      ghost var disk1 := disk;
      var lo := at % BSIZE;
      var x: Block := disk[addr][..lo] + piece + disk[addr][lo + |piece|..];
      WriteDataKeeps(sb, disk, ino, {}, i, bn, x);
      disk := disk[addr := x];
      PieceInBlock(disk1, disk, ino, i, at, piece, x);
      logged := logged + {addr as nat};
      return true;
    }

    // ---- writei -------------------------------------------------------------

    /** What the loop of writei has done after `data` was stored at `off`. */
    ghost predicate WrittenSoFar(disk0: Disk, ino0: Table, logged0: set<nat>, i: nat, off: nat, data: seq<byte>)
      requires i < |ino0|
      reads this
    {
      && Owned(sb, disk, ino, {}) && |ino| == |ino0| && SameInodeBlocks(sb, disk0, disk)
      && AllLogged(disk0, disk, logged) && logged0 <= logged
      && (forall m :: 0 <= m < |ino| && m != i ==> ino[m] == ino0[m])
      && (forall m :: 0 <= m < |ino| ==> BlocksGrow(disk0, ino0[m], disk, ino[m]))
      && BytesWritten(disk0, ino0, disk, ino, i, off, data)
      && (forall bn {:trigger DataBlock(disk, ino[i], bn)} ::
            off / BSIZE <= bn < MAXFILE && bn * BSIZE < off + |data| ==> DataBlock(disk, ino[i], bn) != 0)
      && logged <= logged0 + BitmapBlocks() + ((Touched(disk, ino[i], off,
          |data|) + {ino[i].addrs[NDIRECT] as nat}) - {0})
    }

    method WriteNext(ghost disk0: Disk, ghost ino0: Table, ghost logged0: set<nat>, i: nat, ghost off: nat,
                     ghost data: seq<byte>, at: nat, piece: seq<byte>) returns (ok: bool)
      requires i < |ino0| && WrittenSoFar(disk0, ino0, logged0, i, off, data) && at == off + |data|
      requires 1 <= |piece| <= BSIZE - at % BSIZE && at + |piece| <= MAXFILE * BSIZE
      modifies this`disk, this`ino, this`logged
      ensures WrittenSoFar(disk0, ino0, logged0, i, off, if ok then data + piece else data)
      ensures !ok ==> Full()
    {
      hide SlotsInRange; hide SlotsUnique; hide Holds; hide Slot; hide Used; hide BlockRange; hide FileByte;
      ghost var disk1, ino1, logged1 := disk, ino, logged;
      ok := WritePiece(i, at, piece);
      ghost var more := if ok then data + piece else data;
      BytesCompose(disk0, ino0, disk1, ino1, disk, ino, i, off, data, if ok then piece else []);
      GrowCompose(disk0, ino0, disk1, ino1, disk, ino);
      TouchedGrows(disk1, ino1[i], disk, ino[i], off, |data|, |more|);
      if ok { AtIsTouched(disk, ino[i], off, |more|, at); }
      forall bn | off / BSIZE <= bn < MAXFILE && bn * BSIZE < off + |more| ensures DataBlock(disk, ino[i], bn) != 0 {
        if bn * BSIZE < off + |data| {
          assert DataBlock(disk1, ino1[i], bn) != 0;
        } else {
          LaterBlock(bn, at, |piece|);
        }
      }
    }

    lemma NothingWritten(i: nat, off: nat)
      requires Owned(sb, disk, ino, {}) && i < |ino|
      requires off <= ino[i].size && NoHoles(disk, ino[i])
      ensures WrittenSoFar(disk, ino, logged, i, off, [])
    {
    }

    /** The rest of writei: the new size and the dinode. */
    method FinishWrite(ghost disk0: Disk, ghost ino0: Table, ghost logged0: set<nat>, i: nat, off: nat, data: seq<byte>)
      requires FsInv(sb, disk0, ino0) && i < |ino0| && off <= ino0[i].size && off + |data| <= MAXFILE * BSIZE
      requires WrittenSoFar(disk0, ino0, logged0, i, off, data)
      modifies this`disk, this`ino, this`logged
      ensures Valid() && |ino| == |ino0| && Extended(ino0[i], ino[i], off + |data|)
      ensures Content(disk, ino[i]) == Splice(Content(disk0, ino0[i]), off, data)
      ensures forall m :: 0 <= m < |ino| && m != i ==>
                ino[m] == ino0[m]
                && Content(disk, ino[m]) == Content(disk0, ino0[m])
      ensures AllLogged(disk0, disk, logged) && logged0 <= logged
      ensures logged <= logged0 + BitmapBlocks() + Touched(disk, ino[i], off, |data|)
                        + {ino[i].addrs[NDIRECT] as nat, sb.Iblock(i)}
      ensures old(Full()) ==> Full()
    {
      hide SlotsInRange; hide SlotsUnique; hide Holds; hide Slot; hide Used; hide BlockRange; hide FileByte;
      hide GetInode; hide Extended; hide Content; hide Splice;
      assert NoHoles(disk0, ino0[i]);
      ghost var disk1, ino1 := disk, ino;
      if off + |data| > ino[i].size {
        ResizeKeeps(sb, disk, ino, {}, i, off + |data|);
        ino := ino[i := ino[i].(size := off + |data|)];
      }
      GrowExtends(disk0, ino0[i], disk1, ino1[i], ino[i], off + |data|);
      SyncedKept(sb, disk0, ino0, disk, ino, i);
      Iupdate(i);
      ContentsWritten(disk0, ino0, disk1, ino1, disk, ino, i, off, data);
      assert SameSlots(disk1, ino1, disk, ino);
      BlocksSame(disk1, ino1, disk, ino, i);
      TouchedSame(disk1, ino1[i], disk, ino[i], off, |data|);
      HolesAfterWrite(disk0, ino0, disk1, ino1, disk, ino, i, off, |data|);
    }

    /** writei: the file becomes the old bytes with a prefix of src spliced in at
        off; the prefix is all of src unless the disk is full. */
    method Writei(i: nat, src: seq<byte>, off: uint) returns (r: int)
      requires Valid() && i < |ino| && |src| < UINT_LIMIT
      modifies this`disk, this`ino, this`logged
      ensures Valid() && |ino| == |old(ino)|
      ensures r == -1 <==> off > old(ino)[i].size || (off + |src|) % UINT_LIMIT < off || off + |src| > MAXFILE * BSIZE
      ensures r == -1 ==> disk == old(disk) && ino == old(ino) && logged == old(logged)
      ensures r != -1 ==> 0 <= r <= |src| && Extended(old(ino)[i], ino[i], off + r)
      ensures r != -1 ==> Content(disk, ino[i]) == Splice(Content(old(disk), old(ino)[i]), off, src[..r])
      ensures forall m :: 0 <= m < |ino| && m != i ==>
                ino[m] == old(ino)[m]
                && Content(disk, ino[m]) == Content(old(disk), old(ino)[m])
      ensures AllLogged(old(disk), disk, logged) && old(logged) <= logged
      ensures 0 <= r < |src| ==> Full()
      ensures r != -1 ==> logged <= old(logged) + BitmapBlocks()
                            + Touched(disk, ino[i], off, r) + {ino[i].addrs[NDIRECT] as nat, sb.Iblock(i)}
    {
      assert NoHoles(disk, ino[i]);
      hide Owned; hide AllNoHoles; hide AllSyncedBut; hide WrittenSoFar; hide Content; hide Touched;
      hide Used; hide AllLogged;
      if off > ino[i].size || (off + |src|) % UINT_LIMIT < off || off + |src| > MAXFILE * BSIZE {
        return -1;
      }
      ghost var disk0, ino0, logged0 := disk, ino, logged;
      var tot := 0;
      NothingWritten(i, off);
      assert src[..0] == [];
      var full := false;
      while tot < |src| && !full
        invariant tot <= |src|
        invariant WrittenSoFar(disk0, ino0, logged0, i, off, src[..tot])
        invariant full ==> Full()
        decreases |src| - tot, !full
      {
        var at := off + tot;
        var m := if |src| - tot < BSIZE - at % BSIZE then |src| - tot else BSIZE - at % BSIZE;
        var ok := WriteNext(disk0, ino0, logged0, i, off, src[..tot], at, src[tot..tot + m]);
        PrefixGrows(src, tot, m, m);
        tot := if ok then tot + m else tot;
        full := !ok;
      }
      FinishWrite(disk0, ino0, logged0, i, off, src[..tot]);
      return tot;
    }

    // ---- itrunc -------------------------------------------------------------

    /** itrunc has gone through t slots of inode i of the original table. */
    ghost predicate FreedSoFar(disk0: Disk, ino0: Table, i: nat, t: nat)
      requires i < |ino0|
      reads this
    {
      && Owned(sb, disk0, ino0, {}) && |disk| == |disk0|
      && Owned(sb, disk, ino0[i := ino0[i].(addrs := NoAddrs)], Remaining(disk0, ino0[i], t))
      && (forall b {:trigger Used(sb, disk, b)} :: 0 <= b < sb.size ==>
            (Used(sb, disk, b) <==>
                Used(sb, disk0, b)
                && (b !in Remaining(disk0, ino0[i], 0) || b in Remaining(disk0, ino0[i], t))))
      && (forall c :: sb.datastart <= c < sb.size ==> disk[c] == disk0[c])
      && SameInodeBlocks(sb, disk0, disk) && AllLogged(disk0, disk, logged)
    }

    /** Free the block of the t-th slot, if there is one. */
    method FreeSlot(ghost disk0: Disk, ghost ino0: Table, ghost i: nat, ghost t: nat, b: uint)
      requires i < |ino0| && t < NSLOTS && FreedSoFar(disk0, ino0, i, t) && b == Slot(disk0, ino0[i], TruncSlot(t))
      modifies this`disk, this`logged
      ensures FreedSoFar(disk0, ino0, i, t + 1) && old(logged) <= logged <= old(logged) + BitmapBlocks()
    {
      hide SlotsInRange; hide Holds; hide Slot; hide Used; hide Remaining;
      RemainingStep(disk0, ino0, i, t);
      if b != 0 {
        ghost var ino' := ino0[i := ino0[i].(addrs := NoAddrs)];
        ghost var disk1 := disk;
        FreeKeeps(sb, disk, ino', Remaining(disk0, ino0[i], t), b);
        Bfree(b);
        BblockInRange(sb, b);
        assert sb.Bblock(b) in BitmapBlocks();
        forall c: nat | c < sb.size ensures Used(sb, disk, c) == (c != b && Used(sb, disk1, c)) {
          UsedAfterMark(sb, disk1, b, c);
        }
        RemainingShrinks(disk0, ino0[i], t);
      }
    }

    /** itrunc: exactly the blocks of file i are released, and none twice. */
    method Itrunc(i: nat)
      requires Valid() && i < |ino|
      modifies this`disk, this`ino, this`logged
      ensures Valid() && ino == old(ino)[i := old(ino)[i].(addrs := NoAddrs, size := 0)]
      ensures forall b :: 0 <= b < sb.size ==>
                (Used(sb, disk, b) <==> Used(sb, old(disk), b) && b !in Remaining(old(disk), old(ino)[i], 0))
      ensures AllLogged(old(disk), disk, logged)
      ensures old(logged) <= logged <= old(logged) + BitmapBlocks() + {sb.Iblock(i)}
      ensures forall m :: 0 <= m < |ino| && m != i ==> Content(disk, ino[m]) == Content(old(disk), old(ino)[m])
    {
      hide SlotsInRange; hide SlotsUnique; hide Holds; hide Used; hide Word; hide Remaining; hide FileByte;
      hide GetInode; hide BlockRange; hide BitmapBlocks;
      ghost var disk0, ino0 := disk, ino;
      DropFile(sb, disk, ino, {}, i, ino[i].(addrs := NoAddrs));
      assert {} + Remaining(disk, ino[i], 0) == Remaining(disk, ino[i], 0);
      var k := 0;
      while k < NDIRECT
        invariant k <= NDIRECT && FreedSoFar(disk0, ino0, i, k) && old(logged) <= logged <= old(logged) + BitmapBlocks()
        invariant |ino| == |ino0| && (forall m :: 0 <= m < |ino| && m != i ==> ino[m] == ino0[m])
        invariant ino[i] == ino0[i].(addrs := ino[i].addrs)
        invariant forall j :: 0 <= j <= NDIRECT ==> ino[i].addrs[j] == if j < k then 0 else ino0[i].addrs[j]
      {
        FreeSlot(disk0, ino0, i, k, ino[i].addrs[k]);
        ino := ino[i := WithAddr(ino[i], k, 0)];
        k := k + 1;
      }
      FreeIndirect(disk0, ino0, i);
      assert ino[i].addrs == NoAddrs;
      assert ino == ino0[i := ino0[i].(addrs := NoAddrs)];
      FinishTrunc(disk0, ino0, i);
    }

    method FreeIndirect(ghost disk0: Disk, ghost ino0: Table, i: nat)
      requires i < |ino0| && i < |ino| && FreedSoFar(disk0, ino0, i, NDIRECT)
      requires ino[i].addrs[NDIRECT] == ino0[i].addrs[NDIRECT]
      modifies this`disk, this`ino, this`logged
      ensures FreedSoFar(disk0, ino0, i, NSLOTS) && old(logged) <= logged <= old(logged) + BitmapBlocks()
      ensures ino == old(ino)[i := WithAddr(old(ino)[i], NDIRECT, 0)]
    {
      hide SlotsUnique; hide Holds; hide Used; hide Word; hide Remaining; hide FileByte; hide BlockRange;
      hide BitmapBlocks;
      var a := ino[i].addrs[NDIRECT];
      if a != 0 {
        assert GoodNumber(sb, disk0, {}, Slot(disk0, ino0[i], NDIRECT));
        var bp := disk[a];
        var j := 0;
        while j < NINDIRECT
          invariant j <= NINDIRECT && FreedSoFar(disk0, ino0, i, NDIRECT + j) && ino == old(ino)
          invariant old(logged) <= logged <= old(logged) + BitmapBlocks()
        {
          assert TruncSlot(NDIRECT + j) == NDIRECT + 1 + j;
          FreeSlot(disk0, ino0, i, NDIRECT + j, Word(bp, j));
          j := j + 1;
        }
        FreeSlot(disk0, ino0, i, MAXFILE, a);
        ino := ino[i := WithAddr(ino[i], NDIRECT, 0)];
      } else {
        NoIndirect(disk0, ino0[i]);
        assert ino[i].addrs[NDIRECT := 0] == ino[i].addrs;
        assert ino == ino[i := WithAddr(ino[i], NDIRECT, 0)];
      }
    }

    method FinishTrunc(ghost disk0: Disk, ghost ino0: Table, i: nat)
      requires FsInv(sb, disk0, ino0) && i < |ino0| && FreedSoFar(disk0, ino0, i, NSLOTS)
      requires ino == ino0[i := ino0[i].(addrs := NoAddrs)]
      modifies this`disk, this`ino, this`logged
      ensures Valid() && ino == ino0[i := ino0[i].(addrs := NoAddrs, size := 0)]
      ensures forall b :: 0 <= b < sb.size ==>
                (Used(sb, disk, b) <==> Used(sb, disk0, b) && b !in Remaining(disk0, ino0[i], 0))
      ensures AllLogged(disk0, disk, logged) && logged == old(logged) + {sb.Iblock(i)}
      ensures forall m :: 0 <= m < |ino| && m != i ==> Content(disk, ino[m]) == Content(disk0, ino0[m])
    {
      hide SlotsInRange; hide SlotsUnique; hide Holds; hide Used; hide Word; hide FileByte; hide GetInode; hide Slot;
      assert Remaining(disk0, ino0[i], NSLOTS) == {};
      ResizeKeeps(sb, disk, ino, {}, i, 0);
      ino := ino[i := ino[i].(size := 0)];
      SyncedKept(sb, disk0, ino0, disk, ino, i);
      DataAreaKept(sb, disk0, ino0, {}, disk);
      ghost var disk1 := disk;
      Iupdate(i);
      forall m | 0 <= m < |ino| && m != i
        ensures NoHoles(disk, ino[m]) && Content(disk, ino[m]) == Content(disk0, ino0[m])
      {
        assert NoHoles(disk0, ino0[m]);
        BlocksSame(disk0, ino0, disk1, ino0, m);
        BlocksSame(disk1, ino, disk, ino, m);
        assert forall p :: 0 <= p < MAXFILE * BSIZE ==> FileByte(disk, ino[m], p) == FileByte(disk0, ino0[m], p);
      }
    }

    // ---- filewrite ------------------------------------------------------------

    /** What one chunk of filewrite logs fits the budget of one operation. */
    lemma ChunkFitsBudget(disk: Disk, ip: Inode, off: nat, n: nat, inum: nat, logged: set<nat>)
      requires sb.size < BPB && n <= 3 * BSIZE
      requires logged <= BitmapBlocks() + Touched(disk, ip, off, n) + {ip.addrs[NDIRECT] as nat, sb.Iblock(inum)}
      ensures |logged| <= 7
    {
      hide Slot; hide DataBlock; hide Touched;
      ChunkTouchesFour(disk, ip, off, n);
      assert |BitmapBlocks()| == 1;
      var rest := {ip.addrs[NDIRECT] as nat, sb.Iblock(inum)};
      var all := BitmapBlocks() + Touched(disk, ip, off, n) + rest;
      assert |all| <= 1 + 4 + 2;
      SubsetSize(logged, all);
    }

    /** File i was rewritten by storing `data` at `off`; the other files are as they were. */
    ghost predicate Stored(disk0: Disk, ino0: Table, i: nat, off: nat, data: seq<byte>)
      requires i < |ino0|
      reads this
    {
      && Valid() && |ino| == |ino0|
      && (off <= |Content(disk0, ino0[i])| ==> Content(disk, ino[i]) == Splice(Content(disk0, ino0[i]), off, data))
      && (off <= |Content(disk0, ino0[i])| ==> Extended(ino0[i], ino[i], off + |data|))
      && (off > |Content(disk0, ino0[i])| ==> data == [] && disk == disk0 && ino == ino0)
      && (forall m {:trigger ino[m]} :: 0 <= m < |ino| && m != i ==>
            ino[m] == ino0[m] && Content(disk, ino[m]) == Content(disk0, ino0[m]))
    }

    /** One chunk: begin_op, writei, end_op. */
    method WriteChunk(ghost disk0: Disk, ghost ino0: Table, i: nat, ghost off: nat, ghost data: seq<byte>,
                      at: uint, chunk: seq<byte>) returns (r: int)
      requires i < |ino0| && Stored(disk0, ino0, i, off, data) && at == off + |data|
      requires 0 < |chunk| <= 3 * BSIZE
      modifies this`disk, this`ino, this`logged
      ensures -1 <= r <= |chunk| && Stored(disk0, ino0, i, off, data + if r > 0 then chunk[..r] else [])
      ensures r == -1 <==> off > ino0[i].size || at + |chunk| > MAXFILE * BSIZE
      ensures 0 <= r < |chunk| ==> Full()
      ensures AllLogged(old(disk), disk, logged) && (sb.size < BPB ==> |logged| <= 7)
    {
      hide FsInv; hide FileByte; hide Touched; hide BlockRange; hide Used; hide Full; hide AllLogged;
      logged := {};
      ghost var c := Content(disk, ino[i]);
      r := Writei(i, chunk, at);
      assert data + [] == data;
      if r != -1 {
        assert chunk[..0] == [];
        if sb.size < BPB { ChunkFitsBudget(disk, ino[i], at, r, i, logged); }
        if off <= |Content(disk0, ino0[i])| {
          SpliceTwice(Content(disk0, ino0[i]), off, data, chunk[..r]);
        }
      }
    }

    /** The chunk of src from `done` on. */
    method WriteFrom(ghost disk0: Disk, ghost ino0: Table, i: nat, ghost off: nat, src: seq<byte>, done: nat, at: uint)
      returns (r: int, n1: nat)
      requires i < |ino0| && done < |src| && Stored(disk0, ino0, i, off, src[..done]) && at == off + done
      modifies this`disk, this`ino, this`logged
      ensures 0 < n1 <= |src| - done && -1 <= r <= n1 && at + r < UINT_LIMIT
      ensures Stored(disk0, ino0, i, off, src[..if r > 0 then done + r else done])
      ensures r == -1 <==> off > ino0[i].size || at + n1 > MAXFILE * BSIZE
      ensures 0 <= r < n1 ==> Full()
      ensures AllLogged(old(disk), disk, logged) && (sb.size < BPB ==> |logged| <= 7)
    {
      hide Stored; hide Content; hide Full; hide AllLogged;
      var max := (10 - 1 - 1 - 2) / 2 * BSIZE;
      n1 := if |src| - done > max then max else |src| - done;
      r := WriteChunk(disk0, ino0, i, off, src[..done], at, src[done..done + n1]);
      PrefixGrows(src, done, n1, r);
    }

    /** filewrite on an inode, a transaction per chunk.  The result is n exactly
        when all n bytes were stored; otherwise a prefix was.  It fails when the range
        is bad, and otherwise only when the disk is full.  When the bitmap
        fits one block no transaction logs more than seven different blocks; every block
        that changes is in one. */
    method FileWrite(i: nat, off: uint, src: seq<byte>, n: int)
      returns (ret: int, newoff: uint, ghost txns: seq<set<nat>>)
      requires Valid() && i < |ino| && n < 0x8000_0000 && |src| == if n > 0 then n else 0
      modifies this`disk, this`ino, this`logged
      ensures off <= newoff <= off + |src| && Stored(old(disk), old(ino), i, off, src[..newoff - off])
      ensures ret == if newoff == off + n then n else -1
      ensures n > 0 && (off > old(ino)[i].size || off + n > MAXFILE * BSIZE) ==> ret == -1
      ensures n > 0 && ret == -1 ==> off > old(ino)[i].size || off + n > MAXFILE * BSIZE || Full()
      ensures AllLogged(old(disk), disk, InAny(txns))
      ensures sb.size < BPB ==> forall k :: 0 <= k < |txns| ==> |txns[k]| <= 7
    {
      hide FsInv; hide Stored; hide Full; hide AllLogged; hide InAny;
      NothingStored(i, off);
      ghost var disk0, ino0 := disk, ino;
      assert src[..0] == [];
      var done, failed := 0, false;
      ghost var stored := src[..0];
      newoff, txns := off, [];
      NothingLogged(disk);
      while done < n && !failed
        invariant 0 <= done <= newoff - off <= |src|
        invariant Stored(disk0, ino0, i, off, stored) && stored == src[..newoff - off]
        invariant if failed then newoff < off + n && done < n else done == newoff - off
        invariant failed ==> off > ino0[i].size || off + n > MAXFILE * BSIZE || Full()
        invariant failed || done == 0 || (off <= ino0[i].size && newoff <= MAXFILE * BSIZE)
        invariant AllLogged(disk0, disk, InAny(txns))
        invariant sb.size < BPB ==> forall k :: 0 <= k < |txns| ==> |txns[k]| <= 7
        decreases n - done, !failed
      {
        ghost var disk1 := disk;
        var r, n1 := WriteFrom(disk0, ino0, i, off, src, done, newoff);
        LoggedInAny(disk0, disk1, disk, txns, logged);
        txns := txns + [logged];
        newoff := if r > 0 then newoff + r else newoff;
        failed := r != n1;
        done := if failed then done else done + r;
        stored := src[..newoff - off];
      }
      ret := if done == n then n else -1;
    }

    lemma NothingStored(i: nat, off: nat)
      requires Valid() && i < |ino|
      ensures Stored(disk, ino, i, off, [])
    {
    }
  }
}
