/** kernel/kalloc.c and the user memory operations of kernel/vm.c on a machine
    with `mem` as physical memory.  The free list is threaded through the first
    word of each free page, as in the kernel.  The methods that work on a page
    table take its shape as a ghost argument and return the new one. */
module VmCode {
  import opened Blocks
  import opened PageTable

  const JUNK_ALLOC: word := 0x0505_0505_0505_0505
  const JUNK_FREE: word := 0x0101_0101_0101_0101

  /** The pages reached from head through first words, in order. */
  ghost predicate FreeList(mem: Memory, head: nat, free: seq<nat>) {
    && head == (if free == [] then 0 else free[0])
    && (forall i :: 0 <= i < |free| ==> 0 < free[i] < |mem| && NextIs(mem, free, i))
    && (forall i, j :: 0 <= i < j < |free| ==> free[i] != free[j])
  }

  ghost predicate NextIs(mem: Memory, free: seq<nat>, i: nat)
    requires i < |free| && free[i] < |mem|
  {
    mem[free[i]][0] == PGSIZE * (if i + 1 < |free| then free[i + 1] else 0)
  }

  ghost function ToSet(free: seq<nat>): set<nat> {
    set p | p in free
  }

  lemma FreeListFrame(mem: Memory, mem': Memory, head: nat, free: seq<nat>)
    requires FreeList(mem, head, free) && |mem'| == |mem| && forall p :: p in free && p < |mem| ==> mem'[p] == mem[p]
    ensures FreeList(mem', head, free)
  {
  }

  lemma PushFree(mem: Memory, head: nat, free: seq<nat>, p: nat, page: Page)
    requires FreeList(mem, head, free) && 0 < p < |mem| && p !in free && page[0] == PGSIZE * head
    ensures FreeList(mem[p := page], p, [p] + free) && ToSet([p] + free) == ToSet(free) + {p}
  {
  }

  lemma PopFree(mem: Memory, free: seq<nat>, page: Page)
    requires free != [] && FreeList(mem, free[0], free)
    ensures FreeList(mem[free[0] := page], mem[free[0]][0] / PGSIZE, free[1..])
    ensures ToSet(free[1..]) == ToSet(free) - {free[0]} && free[0] in ToSet(free)
  {
  }

  lemma NoLeafBelow(mem: Memory, pt: Shape, root: nat, vpn: nat, level: nat)
    requires Tree(mem, pt, root) && vpn < MAXVPN && 1 <= level <= 2 && NodeOf(level - 1, vpn) !in pt
    ensures NodeOf(0, vpn) !in pt
  {
    hide NodeOf; hide Parent; hide Child; hide Px; hide EntryOk; hide Bounded;
    Path(vpn);
  }

  lemma GrowTwice(mem: Memory, pt: Shape, free: set<nat>, mem1: Memory, pt1: Shape, free1: set<nat>, mem2: Memory,
                  pt2: Shape, free2: set<nat>)
    requires TablesGrow(mem, pt, free, mem1, pt1, free1) && TablesGrow(mem1, pt1, free1, mem2, pt2, free2)
    requires SameLeaves(mem, pt, mem1, pt1) && SameLeaves(mem1, pt1, mem2, pt2)
    ensures TablesGrow(mem, pt, free, mem2, pt2, free2) && SameLeaves(mem, pt, mem2, pt2)
  {
  }

  /** A page taken from the free list and zeroed becomes the table below entry i of n. */
  lemma InstallTable(mem: Memory, pt: Shape, root: nat, free: set<nat>, memA: Memory, n: Node, i: nat, page: nat)
    requires Tree(mem, pt, root) && pt.Values !! free && page in free && 0 < page < |mem|
    requires |memA| == |mem| && (forall q :: 0 <= q < |mem| && q != page ==> memA[q] == mem[q])
               && memA[page] == Filled(0)
    requires n in pt && n.level > 0 && i < 512 && Child(n, i) !in pt && Bounded(Child(n, i))
    ensures var mem' := memA[pt[n] := memA[pt[n]][i := page * 1024 + 1]];
            var pt' := pt[Child(n, i) := page];
            && Tree(mem', pt', root) && SameLeaves(mem, pt, mem', pt') && pt'.Values == pt.Values + {page}
            && TablesGrow(mem, pt, free, mem', pt', free - {page})
  {
    hide Child; hide Parent; hide EntryOk; hide Leaf;
    var mem', pt' := memA[pt[n] := memA[pt[n]][i := page * 1024 + 1]], pt[Child(n, i) := page];
    forall m | m in pt ensures pt[m] != page { assert pt[m] in pt.Values; }
    TreeFrame(mem, memA, pt, root);
    AddTable(memA, pt, root, n, i, page);
    hide Tree;
    ValuesGrow(pt, Child(n, i), page);
    assert free - (free - {page}) == {page};
  }

  lemma ValuesGrow(pt: Shape, c: Node, page: nat)
    requires c !in pt
    ensures pt[c := page].Values == pt.Values + {page}
  {
    var pt' := pt[c := page];
    forall m | m in pt ensures pt[m] in pt'.Values { assert pt'[m] == pt[m]; }
    assert pt'[c] == page;
  }

  class Machine {
    const lo: nat                       // PGROUNDUP(end) / PGSIZE
    const hi: nat                       // PHYSTOP / PGSIZE
    var mem: Memory
    var head: nat                       // kmem.freelist, as a page number; 0 is null
    ghost var free: seq<nat>

    ghost function Pool(): set<nat> {
      if lo <= hi then BlockRange(lo, hi - lo) else {}
    }

    ghost function Free(): set<nat>
      reads this
    {
      ToSet(free)
    }

    ghost predicate Valid()
      reads this
    {
      && 0 < lo <= hi <= |mem| < 0x1000_0000_0000
      && FreeList(mem, head, free) && Free() <= Pool()
    }

    /** kfree: push the page on the free list. */
    method Kfree(p: nat)
      requires Valid() && p in Pool() && p !in Free()   // so none of kfree's panics is reachable
      modifies this`mem, this`head, this`free
      ensures Valid() && free == [p] + old(free)
      ensures Free() == old(Free()) + {p} && |mem| == |old(mem)|
      ensures forall q :: 0 <= q < |mem| && q != p ==> mem[q] == old(mem)[q]
      ensures forall i :: 1 <= i < 512 ==> mem[p][i] == JUNK_FREE
    {
      hide NextIs;
      assert lo <= p < hi;
      var page := Filled(JUNK_FREE)[0 := PGSIZE * head];
      PushFree(mem, head, free, p, page);
      mem := mem[p := page];
      free := [p] + free;
      head := p;
    }

    /** kalloc: pop a page, or 0 when there is none. */
    method Kalloc() returns (p: nat)
      requires Valid()
      modifies this`mem, this`head, this`free
      ensures Valid() && |mem| == |old(mem)|
      ensures p == 0 <==> old(free) == []
      ensures p == 0 ==> mem == old(mem) && free == old(free)
      ensures p != 0 ==> p == old(head) && p in Pool() && old(free) == [p] + free && Free() == old(Free()) - {p}
      ensures p != 0 ==> p in old(Free()) && mem[p] == Filled(JUNK_ALLOC)
      ensures forall q :: 0 <= q < |mem| && q != p ==> mem[q] == old(mem)[q]
    {
      hide NextIs;
      p := head;
      if p != 0 {
        PopFree(mem, free, Filled(JUNK_ALLOC));
        head := mem[p][0] / PGSIZE;
        free := free[1..];
        mem := mem[p := Filled(JUNK_ALLOC)];
      }
    }

    /** kinit and freerange: all pages of the pool end up on the free list. */
    constructor (end: nat, memory: Memory)
      requires 0 < end <= PGSIZE * |memory| && |memory| < 0x1000_0000_0000
      ensures Valid() && Free() == Pool() && lo == (end + PGSIZE - 1) / PGSIZE && hi == |memory| == |mem|
    {
      lo, hi := (end + PGSIZE - 1) / PGSIZE, |memory|;
      mem, head, free := memory, 0, [];
      new;
      NothingFree();
      Freerange();
    }

    /** freerange: kfree every whole page of the pool. */
    method Freerange()
      requires Valid() && free == [] && hi == |mem|
      modifies this`mem, this`head, this`free
      ensures Valid() && Free() == Pool() && |mem| == |old(mem)|
    {
      hide FreeList;
      var p := lo;
      while p < hi
        invariant lo <= p <= hi == |mem| && Valid() && Free() == BlockRange(lo, p - lo)
      {
        Kfree(p);
        p := p + 1;
      }
    }

    lemma NothingFree()
      requires free == [] && head == 0
      ensures FreeList(mem, head, free)
    {
    }

    // ---- walk ---------------------------------------------------------------------------

    /** What walk is given: a tree whose pages come from the pool and are not free. */
    ghost predicate Walkable(pt: Shape, root: nat)
      reads this
    {
      Valid() && Tree(mem, pt, root) && pt.Values !! Free() && pt.Values <= Pool()
    }

    /** walk: the address of the leaf entry, creating tables on the way if asked.
        The map never changes; running out of memory half way is harmless. */
    method Walk(root: nat, vpn: nat, alloc: bool, ghost pt: Shape) returns (slot: Option<Slot>, ghost pt': Shape)
      requires Walkable(pt, root) && vpn < MAXVPN
      modifies this`mem, this`head, this`free
      ensures Walkable(pt', root) && slot == HardwareWalk(mem, root, vpn)
      ensures SameLeaves(old(mem), pt, mem, pt') && TablesGrow(old(mem), pt, old(Free()), mem, pt', Free())
      ensures !alloc ==> mem == old(mem) && free == old(free) && pt' == pt
      ensures Spent(pt, |old(free)|, pt', |free|, PathOf(vpn)) && (slot.Some? ==> Complete(pt', PathOf(vpn)))
      ensures alloc ==> (slot.Some? <==> |old(free)| >= Missing(pt, PathOf(vpn)))
      ensures alloc && slot.None? ==> free == [] && NodeOf(0, vpn) !in pt'
    {
      hide Px; hide NodeOf; hide HardwareWalk; hide Tree; hide TablesGrow; hide SameLeaves; hide FreeList;
      hide Spent; hide Missing; hide Complete; hide PathOf; hide BlockRange; hide Walkable; hide Free; hide Leaf;
      Path(vpn);
      RootIn(pt, root);
      NoGrowth(pt);
      SpentNothing(pt, |free|, PathOf(vpn));
      pt' := pt;
      var level, pagetable := 2, root;
      while level > 0
        invariant 0 <= level <= 2 && Walkable(pt', root)
        invariant NodeOf(2, vpn) in pt' && NodeOf(level, vpn) in pt' && (level == 0 ==> NodeOf(1, vpn) in pt')
        invariant pt'[NodeOf(level, vpn)] == pagetable && Spent(pt, |old(free)|, pt', |free|, PathOf(vpn))
        invariant SameLeaves(old(mem), pt, mem, pt') && TablesGrow(old(mem), pt, old(Free()), mem, pt', Free())
        invariant !alloc ==> mem == old(mem) && free == old(free) && pt' == pt
      {
        ghost var mem1, free1, n1, pt1 := mem, Free(), |free|, pt';
        var ok;
        ok, pagetable, pt' := Descend(root, vpn, level, pagetable, alloc, pt');
        GrowTwice(old(mem), pt, old(Free()), mem1, pt1, free1, mem, pt', Free());
        SpentWithin(pt, |old(free)|, pt1, n1, pt', |free|, PathOf(vpn), PathOf(vpn));
        WalkAgrees(pt', root, vpn);
        if !ok {
          if alloc { MissingHere(pt, |old(free)|, pt', PathOf(vpn), vpn); }
          return None, pt';
        }
        level := level - 1;
      }
      PathIn(pt', vpn);
      SpentAll(pt, |old(free)|, pt', |free|, PathOf(vpn));
      WalkAgrees(pt', root, vpn);
      slot := Some(Slot(pagetable, Px(0, vpn)));
    }

    lemma RootIn(pt: Shape, root: nat)
      requires Walkable(pt, root)
      ensures Root in pt && pt[Root] == root
    {
    }

    lemma WalkAgrees(pt: Shape, root: nat, vpn: nat)
      requires Walkable(pt, root) && vpn < MAXVPN
      ensures HardwareWalk(mem, root, vpn) == if NodeOf(0, vpn) in pt then Some(Slot(pt[NodeOf(0, vpn)], Px(0, vpn)))
                                              else None
    {
      hide Tree;
      HardwareAgrees(mem, pt, root, vpn);
    }

    lemma NoGrowth(pt: Shape)
      ensures SameLeaves(mem, pt, mem, pt) && TablesGrow(mem, pt, Free(), mem, pt, Free())
    {
    }

    lemma SpentNothing(pt: Shape, n: nat, path: set<Node>)
      ensures Spent(pt, n, pt, n, path)
    {
      assert pt.Keys - pt.Keys == {};
    }

    /** One level of walk's loop. */
    method Descend(root: nat, vpn: nat, level: nat, pagetable: nat, alloc: bool, ghost pt: Shape)
      returns (ok: bool, table: nat, ghost pt': Shape)
      requires Walkable(pt, root) && vpn < MAXVPN && 1 <= level <= 2
      requires NodeOf(level, vpn) in pt && pt[NodeOf(level, vpn)] == pagetable
      modifies this`mem, this`head, this`free
      ensures Walkable(pt', root)
      ensures ok ==> NodeOf(level - 1, vpn) in pt' && pt'[NodeOf(level - 1, vpn)] == table
      ensures !ok ==> NodeOf(0, vpn) !in pt' && (alloc ==> free == [])
      ensures SameLeaves(old(mem), pt, mem, pt') && TablesGrow(old(mem), pt, old(Free()), mem, pt', Free())
      ensures !alloc ==> mem == old(mem) && free == old(free) && pt' == pt
      ensures Spent(pt, |old(free)|, pt', |free|, PathOf(vpn)) && pt.Keys <= pt'.Keys
    {
      hide Px; hide NodeOf; hide Child; hide Parent; hide Leaf; hide Ppn; hide IsValid; hide FreeList; hide EntryOk;
      hide Spent; hide Missing; hide Complete; hide PathOf; hide BlockRange;
      Path(vpn);
      SpentNothing(pt, |free|, PathOf(vpn));
      pt' := pt;
      ghost var n := NodeOf(level, vpn);
      assert Child(n, Px(level, vpn)) == NodeOf(level - 1, vpn);
      StepDown(mem, pt, root, n, Px(level, vpn));
      var pte := mem[pagetable][Px(level, vpn)];
      if IsValid(pte) {
        return true, Ppn(pte), pt;
      }
      NoLeafBelow(mem, pt, root, vpn, level);
      if !alloc {
        return false, 0, pt;
      }
      ok, table, pt' := AddLevel(root, vpn, level, pagetable, pt);
    }

    /** The branch of walk's loop that makes a table. */
    method AddLevel(root: nat, vpn: nat, level: nat, pagetable: nat, ghost pt: Shape)
      returns (ok: bool, table: nat, ghost pt': Shape)
      requires Walkable(pt, root) && vpn < MAXVPN && 1 <= level <= 2
      requires NodeOf(level, vpn) in pt && pt[NodeOf(level, vpn)] == pagetable && NodeOf(level - 1, vpn) !in pt
      modifies this`mem, this`head, this`free
      ensures Walkable(pt', root)
      ensures ok ==> NodeOf(level - 1, vpn) in pt' && pt'[NodeOf(level - 1, vpn)] == table
      ensures !ok ==> pt' == pt && free == []
      ensures SameLeaves(old(mem), pt, mem, pt') && TablesGrow(old(mem), pt, old(Free()), mem, pt', Free())
      ensures Spent(pt, |old(free)|, pt', |free|, PathOf(vpn)) && pt.Keys <= pt'.Keys
    {
      hide Px; hide NodeOf; hide Child; hide Parent; hide Leaf; hide FreeList; hide EntryOk; hide Tree; hide BlockRange;
      hide Spent; hide PathOf;
      Path(vpn);
      NoGrowth(pt);
      SpentNothing(pt, |free|, PathOf(vpn));
      SpentOne(pt, |free|, level - 1, head, vpn);
      ghost var mem1, free1 := mem, Free();
      var page := Kalloc();
      if page == 0 {
        return false, 0, pt;
      }
      table, pt' := Install(root, NodeOf(level, vpn), pagetable, Px(level, vpn), page, mem1, free1, pt);
      return true, table, pt';
    }

    lemma SpentOne(pt: Shape, n: nat, level: nat, page: nat, v: nat)
      requires level <= 1 && NodeOf(level, v) !in pt
      ensures Spent(pt, n, pt[NodeOf(level, v) := page], n - 1, PathOf(v))
    {
      var c := NodeOf(level, v);
      assert pt[c := page].Keys - pt.Keys == {c};
    }

    /** The allocating branch of walk, after kalloc. */
    method Install(root: nat, ghost n: Node, pagetable: nat, i: nat, page: nat, ghost mem1: Memory,
                   ghost free1: set<nat>, ghost pt1: Shape) returns (table: nat, ghost pt': Shape)
      requires Valid() && Tree(mem1, pt1, root) && pt1.Values !! free1 && pt1.Values <= Pool()
      requires page in free1 && page in Pool() && Free() == free1 - {page} && |mem| == |mem1|
      requires forall q :: 0 <= q < |mem| && q != page ==> mem[q] == mem1[q]
      requires n in pt1 && n.level > 0 && pt1[n] == pagetable && i < 512 && Child(n, i) !in pt1 && Bounded(Child(n, i))
      modifies this`mem
      ensures Walkable(pt', root) && table == page && pt' == pt1[Child(n, i) := page]
      ensures SameLeaves(mem1, pt1, mem, pt') && TablesGrow(mem1, pt1, free1, mem, pt', Free())
    {
      hide Child; hide Parent; hide EntryOk; hide Leaf; hide FreeList; hide BlockRange; hide Bounded; hide Filled;
      assert pagetable in pt1.Values && pagetable < |mem|;
      hide Tree;
      ghost var mem2 := mem;
      mem := mem[page := Filled(0)];
      InstallTable(mem1, pt1, root, free1, mem, n, i, page);
      mem := mem[pagetable := mem[pagetable][i := page * 1024 + 1]];
      pt' := pt1[Child(n, i) := page];
      FreeListFrame(mem2, mem, head, free);
      table := page;
    }

    /** *pte = x, for the entry walk returned. */
    method StoreLeaf(root: nat, ghost vpn: nat, slot: Slot, x: word, ghost pt: Shape)
      requires Walkable(pt, root) && vpn < MAXVPN && HardwareWalk(mem, root, vpn) == Some(slot)
      modifies this`mem
      ensures Walkable(pt, root) && LeafChanged(old(mem), pt, mem, pt, vpn, x)
      ensures TablesGrow(old(mem), pt, old(Free()), mem, pt, Free())
    {
      hide NodeOf; hide Child; hide Parent; hide Leaf; hide EntryOk; hide HardwareWalk; hide FreeList;
      HardwareAgrees(mem, pt, root, vpn);
      SetLeaf(mem, pt, root, vpn, x);
      ghost var mem0 := mem;
      assert slot.page in pt.Values;
      mem := mem[slot.page := mem[slot.page][slot.index := x]];
      FreeListFrame(mem0, mem, head, free);
    }

    /** The entry walk returned holds the leaf. */
    lemma SlotIsLeaf(root: nat, vpn: nat, pt: Shape)
      requires Walkable(pt, root) && vpn < MAXVPN
      ensures HardwareWalk(mem, root, vpn).None? ==> Leaf(mem, pt, vpn) == 0
      ensures HardwareWalk(mem, root, vpn).Some? ==>
                var slot := HardwareWalk(mem, root, vpn).value;
                slot.page < |mem| && slot.index < 512 && mem[slot.page][slot.index] == Leaf(mem, pt, vpn)
    {
      hide Child; hide Parent; hide EntryOk; hide HardwareWalk; hide FreeList;
      HardwareAgrees(mem, pt, root, vpn);
    }

    // ---- mappages -------------------------------------------------------------------------

    /** Pages v0 .. v0 + k - 1, and no others, are newly mapped, to successive physical pages. */
    ghost predicate RangeMapped(mem0: Memory, pt0: Shape, pt': Shape, v0: nat, k: nat, ppn: nat, perm: nat)
      reads this
    {
      forall v: nat {:trigger Leaf(mem, pt', v)} :: v < MAXVPN ==>
        Leaf(mem, pt', v) == if v0 <= v < v0 + k then MakePte(ppn + (v - v0), perm) else Leaf(mem0, pt0, v)
    }

    /** The next entry is valid already. */
    static ghost predicate InTheWay(mem0: Memory, pt0: Shape, v0: nat, k: nat) { IsValid(Leaf(mem0, pt0, v0 + k)) }

    static ghost predicate NoneMapped(mem0: Memory, pt0: Shape, v0: nat, k: nat) {
      forall v: nat {:trigger Leaf(mem0, pt0, v)} :: v0 <= v < v0 + k ==> !IsValid(Leaf(mem0, pt0, v))
    }

    static lemma OneMoreFree(mem0: Memory, pt0: Shape, v0: nat, k: nat)
      requires NoneMapped(mem0, pt0, v0, k) && !IsValid(Leaf(mem0, pt0, v0 + k))
      ensures NoneMapped(mem0, pt0, v0, k + 1)
    {
      hide Leaf; hide IsValid;
    }

    /** mappages, in pages: map n pages from v0 on.  Without memory for a table, or at an
        entry that is valid already (the panic "mappages: remap"), a prefix of k pages is mapped. */
    method Mappages(root: nat, v0: nat, n: nat, ppn: nat, perm: nat, ghost pt: Shape)
      returns (ok: bool, remap: bool, ghost k: nat, ghost pt': Shape)
      requires Walkable(pt, root) && 0 < n && v0 + n <= MAXVPN && ppn + n < 0x1000_0000_0000 && perm < 1024
      modifies this`mem, this`head, this`free
      ensures Walkable(pt', root) && TablesGrow(old(mem), pt, old(Free()), mem, pt', Free())
      ensures k <= n && (ok <==> k == n) && RangeMapped(old(mem), pt, pt', v0, k, ppn, perm)
      ensures NoneMapped(old(mem), pt, v0, k) && (remap ==> !ok && InTheWay(old(mem), pt, v0, k))
      ensures Spent(pt, |old(free)|, pt', |free|, PathsOf(Range(v0, n)))
      ensures ok ==> Complete(pt', PathsOf(Range(v0, n)))
      ensures !remap ==> (ok <==> |old(free)| >= Missing(pt, PathsOf(Range(v0, n))))
      ensures !remap && !ok ==> free == []
    {
      hide *;
      ghost var mem0, free0, n0 := mem, Free(), |free|;
      pt', k := pt, 0;
      MapStart(pt, root, v0, n, ppn, perm);
      var a := v0;
      while true
        invariant v0 <= a < v0 + n && k == a - v0 && MapProgress(mem0, free0, n0, pt, pt', root, v0, k, n, ppn, perm)
        decreases v0 + n - a
      {
        ok, remap, pt' := MapNext(root, a, ppn + (a - v0), perm, mem0, free0, n0, pt, pt', v0, k, n, ppn);
        if !ok {
          MapStopped(mem0, free0, n0, pt, pt', root, v0, k, n, ppn, perm);
          return false, remap, k, pt';
        }
        k := k + 1;
        if a == v0 + n - 1 {
          break;
        }
        a := a + 1;
      }
      MapDone(mem0, free0, n0, pt, pt', root, v0, n, ppn, perm);
      return true, false, k, pt';
    }

    /** The state of mappages after k of the n pages. */
    ghost predicate MapProgress(mem0: Memory, free0: set<nat>, n0: nat, pt: Shape, pt': Shape, root: nat, v0: nat,
                                k: nat, n: nat, ppn: nat, perm: nat)
      reads this
    {
      && Walkable(pt', root) && TablesGrow(mem0, pt, free0, mem, pt', Free())
      && RangeMapped(mem0, pt, pt', v0, k, ppn, perm) && NoneMapped(mem0, pt, v0, k)
      && Spent(pt, n0, pt', |free|, PathsOf(Range(v0, n))) && Complete(pt', PathsOf(Range(v0, k)))
    }

    lemma MapStart(pt: Shape, root: nat, v0: nat, n: nat, ppn: nat, perm: nat)
      requires Walkable(pt, root)
      ensures MapProgress(mem, Free(), |free|, pt, pt, root, v0, 0, n, ppn, perm)
    {
      hide Spent; hide Complete; hide PathsOf; hide Range; hide Walkable; hide TablesGrow; hide SameLeaves;
      NoGrowth(pt);
      NothingMappedYet(pt, v0, ppn, perm);
      SpentNothing(pt, |free|, PathsOf(Range(v0, n)));
      NothingMissing(pt, v0, |free|);
    }

    lemma MapStopped(mem0: Memory, free0: set<nat>, n0: nat, pt: Shape, pt': Shape, root: nat, v0: nat,
                     k: nat, n: nat, ppn: nat, perm: nat)
      requires MapProgress(mem0, free0, n0, pt, pt', root, v0, k, n, ppn, perm)
      ensures Walkable(pt', root) && TablesGrow(mem0, pt, free0, mem, pt', Free())
      ensures RangeMapped(mem0, pt, pt', v0, k, ppn, perm) && NoneMapped(mem0, pt, v0, k)
      ensures Spent(pt, n0, pt', |free|, PathsOf(Range(v0, n)))
    {
    }

    lemma MapDone(mem0: Memory, free0: set<nat>, n0: nat, pt: Shape, pt': Shape, root: nat, v0: nat,
                  n: nat, ppn: nat, perm: nat)
      requires MapProgress(mem0, free0, n0, pt, pt', root, v0, n, n, ppn, perm)
      ensures Complete(pt', PathsOf(Range(v0, n))) && |free| == n0 - Missing(pt, PathsOf(Range(v0, n)))
      ensures Walkable(pt', root) && TablesGrow(mem0, pt, free0, mem, pt', Free())
      ensures RangeMapped(mem0, pt, pt', v0, n, ppn, perm) && NoneMapped(mem0, pt, v0, n)
      ensures Spent(pt, n0, pt', |free|, PathsOf(Range(v0, n)))
    {
      hide Spent; hide Complete; hide Missing; hide PathsOf; hide Range;
      SpentAll(pt, n0, pt', |free|, PathsOf(Range(v0, n)));
    }

    /** One iteration of mappages. */
    method MapNext(root: nat, a: nat, p: nat, perm: nat, ghost mem0: Memory, ghost free0: set<nat>, ghost n0: nat,
                   ghost pt: Shape, ghost pt1: Shape, ghost v0: nat, ghost k: nat, ghost n: nat, ghost ppn: nat)
      returns (ok: bool, remap: bool, ghost pt': Shape)
      requires k < n && a == v0 + k < MAXVPN && p == ppn + k < 0x1000_0000_0000 && perm < 1024
      requires MapProgress(mem0, free0, n0, pt, pt1, root, v0, k, n, ppn, perm)
      modifies this`mem, this`head, this`free
      ensures MapProgress(mem0, free0, n0, pt, pt', root, v0, if ok then k + 1 else k, n, ppn, perm)
      ensures remap ==> !ok && InTheWay(mem0, pt, v0, k)
      ensures !ok && !remap ==> free == [] && n0 < Missing(pt, PathsOf(Range(v0, n)))
    {
      hide Walkable; hide TablesGrow; hide Leaf; hide IsValid; hide NoneMapped; hide RangeMapped; hide NodeOf;
      hide Spent; hide Missing; hide Complete; hide PathsOf; hide PathOf; hide BlockRange; hide Range; hide Free;
      ghost var n1 := |free|;
      ok, remap, pt' := MapOne(root, a, p, perm, pt1, mem0, pt, free0, v0, k, ppn);
      SpentInRange(pt, n0, pt1, n1, pt', |free|, v0, k, n);
      if ok {
        PathsIn(pt1, n1, pt', |free|, v0, k);
        OneMoreFree(mem0, pt, v0, k);
      } else {
        StillIn(pt1, n1, pt', |free|, PathOf(a), PathsOf(Range(v0, k)));
        if !remap { MissingInRange(pt, n0, pt', v0, k, n); }
      }
    }

    lemma StillIn(pt: Shape, n0: int, pt': Shape, n: int, path: set<Node>, done: set<Node>)
      requires Spent(pt, n0, pt', n, path) && Complete(pt, done)
      ensures Complete(pt', done)
    {
    }

    lemma NothingMappedYet(pt: Shape, v0: nat, ppn: nat, perm: nat)
      ensures RangeMapped(mem, pt, pt, v0, 0, ppn, perm) && NoneMapped(mem, pt, v0, 0)
    {
      hide Leaf;
    }

    lemma NothingMissing(pt: Shape, v0: nat, n: nat)
      ensures Complete(pt, PathsOf(Range(v0, 0))) && Spent(pt, n, pt, n, PathsOf(Range(v0, 0)))
    {
      NoPaths(Range(v0, 0));
      SpentNothing(pt, n, {});
    }

    lemma PathIn(pt: Shape, v: nat)
      requires NodeOf(0, v) in pt && NodeOf(1, v) in pt && NodeOf(2, v) in pt
      ensures Complete(pt, PathOf(v))
    {
    }

    lemma PathsIn(pt: Shape, n0: int, pt': Shape, n: int, v0: nat, k: nat)
      requires Complete(pt, PathsOf(Range(v0, k))) && Complete(pt', PathOf(v0 + k))
      requires Spent(pt, n0, pt', n, PathOf(v0 + k))
      ensures Complete(pt', PathsOf(Range(v0, k + 1)))
    {
      hide PathsOf; hide PathOf; hide BlockRange; hide Range;
      PathInRange(v0, k, k + 1);
    }

    lemma SpentInRange(pt: Shape, n0: int, pt1: Shape, n1: int, pt2: Shape, n2: int, v0: nat, k: nat, n: nat)
      requires k < n && Spent(pt, n0, pt1, n1, PathsOf(Range(v0, n))) && Spent(pt1, n1, pt2, n2, PathOf(v0 + k))
      ensures Spent(pt, n0, pt2, n2, PathsOf(Range(v0, n)))
    {
      hide PathsOf; hide PathOf; hide Range; hide Spent;
      PathInRange(v0, k, n);
      SpentWithin(pt, n0, pt1, n1, pt2, n2, PathsOf(Range(v0, n)), PathOf(v0 + k));
    }

    lemma MissingInRange(pt: Shape, n0: int, pt': Shape, v0: nat, k: nat, n: nat)
      requires k < n && Spent(pt, n0, pt', 0, PathsOf(Range(v0, n))) && NodeOf(0, v0 + k) !in pt'
      ensures n0 < Missing(pt, PathsOf(Range(v0, n)))
    {
      hide PathsOf; hide PathOf; hide Range; hide Spent; hide Missing;
      PathInRange(v0, k, n);
      MissingHere(pt, n0, pt', PathsOf(Range(v0, n)), v0 + k);
    }

    lemma PathInRange(v0: nat, k: nat, n: nat)
      requires k < n
      ensures PathOf(v0 + k) <= PathsOf(Range(v0, n))
      ensures PathsOf(Range(v0, k + 1)) == PathsOf(Range(v0, k)) + PathOf(v0 + k)
    {
      hide PathOf; hide Range;
      assert v0 + k in Range(v0, n);
      assert Range(v0, k + 1) == Range(v0, k) + {v0 + k};
      PathsMore(Range(v0, k), v0 + k);
    }

    lemma MissingHere(pt: Shape, n0: int, pt': Shape, path: set<Node>, a: nat)
      requires Spent(pt, n0, pt', 0, path) && PathOf(a) <= path && NodeOf(0, a) !in pt'
      ensures n0 < Missing(pt, path)
    {
      SpentOut(pt, n0, pt', path, NodeOf(0, a));
    }

    /** The walk and the store of one iteration. */
    method MapOne(root: nat, a: nat, p: nat, perm: nat, ghost pt: Shape, ghost mem0: Memory, ghost pt0: Shape,
                  ghost free0: set<nat>, ghost v0: nat, ghost k: nat, ghost ppn: nat)
      returns (ok: bool, remap: bool, ghost pt': Shape)
      requires Walkable(pt, root) && a < MAXVPN && a == v0 + k && p == ppn + k < 0x1000_0000_0000 && perm < 1024
      requires TablesGrow(mem0, pt0, free0, mem, pt, Free()) && RangeMapped(mem0, pt0, pt, v0, k, ppn, perm)
      modifies this`mem, this`head, this`free
      ensures Walkable(pt', root) && TablesGrow(mem0, pt0, free0, mem, pt', Free())
      ensures RangeMapped(mem0, pt0, pt', v0, if ok then k + 1 else k, ppn, perm)
      ensures if ok then !remap && !IsValid(Leaf(mem0, pt0, a)) else remap ==> IsValid(Leaf(mem0, pt0, a))
      ensures Spent(pt, |old(free)|, pt', |free|, PathOf(a)) && (ok ==> Complete(pt', PathOf(a)))
      ensures !ok && !remap ==> free == [] && NodeOf(0, a) !in pt'
    {
      hide Tree; hide HardwareWalk; hide Leaf; hide FreeList; hide IsValid; hide BlockRange;
      hide Spent; hide Missing; hide Complete; hide PathOf;
      var slot;
      slot, pt' := Walk(root, a, true, pt);
      if slot.None? {
        return false, false, pt';
      }
      SlotIsLeaf(root, a, pt');
      if IsValid(mem[slot.value.page][slot.value.index]) {
        return false, true, pt';
      }
      StoreLeaf(root, a, slot.value, MakePte(p, perm), pt');
      return true, false, pt';
    }

    // ---- uvmunmap -------------------------------------------------------------------------

    ghost predicate Space(pt: Shape, root: nat)
      reads this
    {
      Walkable(pt, root) && Private(mem, pt, Free(), Pool())
    }

    ghost function Pages(pt: Shape): set<nat>
      reads this
    {
      Total(mem, pt, Free())
    }

    /** Pages v0 .. v0 + n - 1 are unmapped, every other entry is as before. */
    ghost predicate RangeUnmapped(mem0: Memory, pt: Shape, v0: nat, n: nat)
      reads this
    {
      forall v: nat {:trigger Leaf(mem, pt, v)} :: v < MAXVPN ==>
        Leaf(mem, pt, v) == if v0 <= v < v0 + n && IsValid(Leaf(mem0, pt, v)) then 0 else Leaf(mem0, pt, v)
    }

    /** Only tables and pages that are now free were written. */
    ghost predicate OthersUntouched(mem0: Memory, pt: Shape)
      reads this
    {
      |mem| == |mem0| && forall p :: 0 <= p < |mem| && p !in pt.Values && p !in Free() ==> mem[p] == mem0[p]
    }

    /** Only pages of the given set were written. */
    static ghost predicate Outside(mem0: Memory, mem1: Memory, all: set<nat>) {
      |mem1| == |mem0| && forall p :: 0 <= p < |mem0| && p !in all ==> mem1[p] == mem0[p]
    }

    static lemma NothingWritten(mem0: Memory, all: set<nat>)
      ensures Outside(mem0, mem0, all)
    {
    }

    static lemma OutsideTwice(mem0: Memory, mem1: Memory, mem2: Memory, all: set<nat>)
      requires Outside(mem0, mem1, all) && Outside(mem1, mem2, all)
      ensures Outside(mem0, mem2, all)
    {
    }

    lemma UntouchedOutside(mem0: Memory, pt: Shape)
      requires OthersUntouched(mem0, pt)
      ensures Outside(mem0, mem, Pages(pt))
    {
    }

    /** uvmunmap, in pages.  With do_free the mapped pages go back to the free list. */
    method Uvmunmap(root: nat, v0: nat, n: nat, do_free: bool, ghost pt: Shape)
      requires Walkable(pt, root) && v0 + n <= MAXVPN
      requires do_free ==> Space(pt, root) && v0 + n <= USERTOP
      modifies this`mem, this`head, this`free
      ensures Walkable(pt, root) && RangeUnmapped(old(mem), pt, v0, n) && OthersUntouched(old(mem), pt)
      ensures do_free ==> Space(pt, root) && Pages(pt) == old(Pages(pt)) && old(Free()) <= Free()
      ensures !do_free ==> free == old(free)
    {
      hide Tree; hide HardwareWalk; hide Leaf; hide FreeList; hide IsValid; hide Private; hide Walkable; hide Total;
      ghost var mem0, all := mem, Pages(pt);
      var a := v0;
      while a < v0 + n
        invariant v0 <= a <= v0 + n && Walkable(pt, root)
        invariant RangeUnmapped(mem0, pt, v0, a - v0) && OthersUntouched(mem0, pt)
        invariant do_free ==> Space(pt, root) && Pages(pt) == all && old(Free()) <= Free()
        invariant !do_free ==> free == old(free)
      {
        ghost var mem1 := mem;
        UnmapOne(root, a, do_free, pt);
        UnmapMore(mem0, mem1, pt, v0, a);
        a := a + 1;
      }
    }

    lemma UnmapMore(mem0: Memory, mem1: Memory, pt: Shape, v0: nat, a: nat)
      requires v0 <= a < MAXVPN && |mem1| == |mem|
      requires forall v: nat {:trigger Leaf(mem1, pt, v)} :: v < MAXVPN ==>
                 Leaf(mem1, pt, v) == if v0 <= v < a && IsValid(Leaf(mem0, pt, v)) then 0 else Leaf(mem0, pt, v)
      requires LeafChanged(mem1, pt, mem, pt, a, if IsValid(Leaf(mem1, pt, a)) then 0 else Leaf(mem1, pt, a))
      ensures RangeUnmapped(mem0, pt, v0, a + 1 - v0)
    {
    }

    /** One iteration of uvmunmap: the entry is cleared if it was valid. */
    method UnmapOne(root: nat, a: nat, do_free: bool, ghost pt: Shape)
      requires Walkable(pt, root) && a < MAXVPN && (do_free ==> Space(pt, root) && a < USERTOP)
      modifies this`mem, this`head, this`free
      ensures Walkable(pt, root) && |mem| == |old(mem)|
      ensures LeafChanged(old(mem), pt, mem, pt, a, if IsValid(Leaf(old(mem), pt, a)) then 0 else Leaf(old(mem), pt, a))
      ensures OthersUntouched(old(mem), pt)
      ensures do_free ==> Space(pt, root) && Pages(pt) == old(Pages(pt)) && old(Free()) <= Free()
      ensures !do_free ==> free == old(free)
    {
      hide Tree; hide HardwareWalk; hide Leaf; hide FreeList; hide IsValid; hide Private; hide Total;
      hide Spent; hide Missing; hide Complete; hide PathOf;
      var slot;
      ghost var pt1;
      slot, pt1 := Walk(root, a, false, pt);
      SlotIsLeaf(root, a, pt);
      if slot.None? || !IsValid(mem[slot.value.page][slot.value.index]) {
        InvalidZero();
        return;
      }
      var pte := mem[slot.value.page][slot.value.index];
      if do_free {
        FreeAndClear(root, a, slot.value, pte, pt);
      } else {
        StoreLeaf(root, a, slot.value, 0, pt);
      }
    }

    lemma InvalidZero()
      ensures !IsValid(0)
    {
    }

    /** kfree the page, then clear the entry (the page is not a table, so the order does not matter). */
    method FreeAndClear(root: nat, ghost a: nat, slot: Slot, pte: word, ghost pt: Shape)
      requires Space(pt, root) && a < USERTOP && HardwareWalk(mem, root, a) == Some(slot)
      requires pte == Leaf(mem, pt, a) && IsValid(pte)
      modifies this`mem, this`head, this`free
      ensures Space(pt, root) && LeafChanged(old(mem), pt, mem, pt, a, 0)
      ensures OthersUntouched(old(mem), pt) && Pages(pt) == old(Pages(pt)) && old(Free()) <= Free()
    {
      hide Tree; hide HardwareWalk; hide Leaf; hide FreeList; hide IsValid; hide Ppn; hide Total;
      ghost var mem0 := mem;
      var p := Ppn(pte);
      assert Mapped(mem, pt, a);
      Kfree(p);
      ghost var mem1 := mem;
      KeepTree(mem0, pt, root, p);
      HardwareSame(mem0, pt, root, a);
      StoreLeaf(root, a, slot, 0, pt);
      Moved(mem0, mem1, pt, a, p, old(Free()));
    }

    lemma KeepTree(mem0: Memory, pt: Shape, root: nat, p: nat)
      requires Tree(mem0, pt, root) && |mem| == |mem0| && p !in pt.Values && forall q :: 0 <= q < |mem| && q != p ==>
                 mem[q] == mem0[q]
      ensures Tree(mem, pt, root) && SameLeaves(mem0, pt, mem, pt)
    {
      hide Leaf; hide EntryOk; hide Parent;
      forall n | n in pt ensures mem[pt[n]] == mem0[pt[n]] { assert pt[n] in pt.Values; }
      TreeFrame(mem0, mem, pt, root);
    }

    lemma HardwareSame(mem0: Memory, pt: Shape, root: nat, a: nat)
      requires Tree(mem0, pt, root) && Tree(mem, pt, root) && a < MAXVPN
      ensures HardwareWalk(mem, root, a) == HardwareWalk(mem0, root, a)
    {
      hide HardwareWalk; hide Tree; hide NodeOf;
      HardwareAgrees(mem0, pt, root, a);
      HardwareAgrees(mem, pt, root, a);
    }

    /** Unmapping and freeing moves one page from the address space to the free list. */
    lemma Moved(mem0: Memory, mem1: Memory, pt: Shape, a: nat, p: nat, free0: set<nat>)
      requires Private(mem0, pt, free0, Pool()) && Mapped(mem0, pt, a) && p == Ppn(Leaf(mem0, pt, a))
      requires SameLeaves(mem0, pt, mem1, pt) && LeafChanged(mem1, pt, mem, pt, a, 0) && Free() == free0 + {p}
      ensures Private(mem, pt, Free(), Pool()) && Pages(pt) == Total(mem0, pt, free0)
      ensures LeafChanged(mem0, pt, mem, pt, a, 0)
    {
      hide Leaf; hide IsValid; hide Ppn; hide Private; hide Total;
      assert LeafChanged(mem0, pt, mem, pt, a, 0);
      UnmapKeepsPrivate(mem0, pt, mem, free0, Pool(), a);
      FreeKeepsPrivate(mem, pt, mem, free0, Pool(), p);
      assert Total(mem0, pt, free0) - {p} + {p} == Total(mem0, pt, free0);
    }

    // ---- uvmalloc and uvmdealloc ------------------------------------------------------------

    /** The rounded size is the least number of pages that hold sz bytes. */
    static lemma PgUpIsLeast(sz: nat, n: nat)
      ensures PgUp(sz) <= n <==> sz <= n * PGSIZE
    {
    }

    /** PGROUNDUP(sz) / PGSIZE */
    static function PgUp(sz: nat): nat {
      (sz + PGSIZE - 1) / PGSIZE
    }

    method Uvmdealloc(root: nat, oldsz: nat, newsz: nat, ghost pt: Shape) returns (sz: nat)
      requires Space(pt, root) && oldsz <= USERTOP * PGSIZE
      modifies this`mem, this`head, this`free
      ensures Space(pt, root) && Pages(pt) == old(Pages(pt)) && old(Free()) <= Free() && OthersUntouched(old(mem), pt)
      ensures sz == if newsz < oldsz then newsz else oldsz
      ensures newsz < oldsz ==> RangeUnmapped(old(mem), pt, PgUp(newsz), PgUp(oldsz) - PgUp(newsz))
      ensures newsz >= oldsz ==> mem == old(mem) && free == old(free)
    {
      hide Tree; hide Leaf; hide FreeList; hide Private; hide Total;
      if newsz >= oldsz {
        return oldsz;
      }
      if PgUp(newsz) < PgUp(oldsz) {
        Uvmunmap(root, PgUp(newsz), PgUp(oldsz) - PgUp(newsz), true, pt);
      }
      return newsz;
    }

    /** The last loop-free part of uvmalloc and uvmcopy: map page p, which nobody
        owns, at a; give it back if there is no memory for a table; panic if a is mapped. */
    method MapOrFree(root: nat, a: nat, p: nat, perm: nat, ghost pt: Shape)
      returns (ok: bool, remap: bool, ghost pt': Shape)
      requires Space(pt, root) && a < USERTOP && perm < 1024 && p in Pool() && p !in Pages(pt)
      modifies this`mem, this`head, this`free
      ensures remap <==> IsValid(Leaf(old(mem), pt, a))
      ensures !remap ==> Space(pt', root) && Pages(pt') == old(Pages(pt)) + {p} && Free() <= old(Free()) + {p}
      ensures !remap ==> OthersUntouched(old(mem), pt') && Outside(old(mem), mem, old(Pages(pt)) + {p})
      ensures !remap ==> (ok <==> |old(free)| >= Missing(pt, PathOf(a)))
      ensures !remap && !ok ==> SameLeaves(old(mem), pt, mem, pt')
      ensures ok ==> !remap && LeafChanged(old(mem), pt, mem, pt', a, MakePte(p, perm)) && mem[p] == old(mem)[p]
      ensures ok ==> Spent(pt, |old(free)|, pt', |free|, PathOf(a)) && Complete(pt', PathOf(a))
    {
      hide Tree; hide HardwareWalk; hide Leaf; hide FreeList; hide IsValid; hide Private; hide Total; hide MakePte;
      hide Spent; hide Missing; hide Complete; hide PathsOf; hide PathOf; hide BlockRange; hide Range;
      ghost var mem0, free0 := mem, Free();
      MakePteFields(p, perm);
      OnePath(a);
      MappedHasPath(pt, root, a);
      ghost var k;
      ok, remap, k, pt' := Mappages(root, a, 1, p, perm, pt);
      if remap {
        return;
      }
      ghost var mem1, free1 := mem, Free();
      if ok {
        assert !IsValid(Leaf(mem0, pt, a));
        assert LeafChanged(mem0, pt, mem, pt', a, MakePte(p, perm));
        GrowAndMap(mem0, pt, free0, mem, pt', Free(), Pool(), a, MakePte(p, perm));
        NotTable(mem, pt', Free(), p, a);
      } else {
        assert SameLeaves(mem0, pt, mem, pt');
        GrowKeepsPrivate(mem0, pt, free0, mem, pt', Free(), Pool());
        NotInTotal(mem, pt', Free(), p);
        Kfree(p);
        KeepTree(mem1, pt', root, p);
        FreeKeepsPrivate(mem1, pt', mem, free1, Pool(), p);
      }
      UntouchedOutside(mem0, pt');
    }

    /** No table is missing on the way to a mapped page. */
    lemma MappedHasPath(pt: Shape, root: nat, a: nat)
      requires Walkable(pt, root) && a < MAXVPN
      ensures IsValid(Leaf(mem, pt, a)) ==> Missing(pt, PathOf(a)) == 0
    {
      hide FreeList; hide EntryOk; hide Px;
      if NodeOf(0, a) in pt {
        Path(a);
        assert NodeOf(1, a) == Parent(NodeOf(0, a)) && NodeOf(2, a) == Parent(NodeOf(1, a));
        assert PathOf(a) - pt.Keys == {};
      }
    }

    lemma OnePath(a: nat)
      ensures PathsOf(Range(a, 1)) == PathOf(a)
    {
      hide PathOf; hide Range;
      NoPaths(Range(a, 0));
      PathInRange(a, 0, 1);
    }

    lemma NotTable(mem: Memory, pt: Shape, free: set<nat>, p: nat, v: nat)
      requires Private(mem, pt, free, Pool()) && Mapped(mem, pt, v) && Ppn(Leaf(mem, pt, v)) == p
      ensures p !in pt.Values && p !in free
    {
    }

    lemma NotInTotal(mem: Memory, pt: Shape, free: set<nat>, p: nat)
      requires p !in Total(mem, pt, free)
      ensures p !in pt.Values && p !in free
    {
    }

    /** The contents of every page that was mapped in this space are as they were. */
    static ghost predicate UserDataKept(mem0: Memory, pt0: Shape, mem1: Memory) {
      |mem1| == |mem0| && forall q :: q in UserPages(mem0, pt0) && q < |mem1| ==> mem1[q] == mem0[q]
    }

    /** One iteration of uvmalloc: a fresh zeroed page at a, if nothing is mapped there. */
    method GrowOne(root: nat, a: nat, perm: nat, ghost pt: Shape)
      returns (ok: bool, remap: bool, p: nat, ghost pt': Shape)
      requires Space(pt, root) && a < USERTOP && perm < 1024
      modifies this`mem, this`head, this`free
      ensures remap <==> IsValid(Leaf(old(mem), pt, a)) && old(free) != []
      ensures !remap ==> Space(pt', root) && Pages(pt') == old(Pages(pt)) && Free() <= old(Free())
      ensures !remap ==> UserDataKept(old(mem), pt, mem) && Outside(old(mem), mem, old(Pages(pt)))
      ensures !remap ==> (ok <==> |old(free)| >= 1 + Missing(pt, PathOf(a)))
      ensures !remap && !ok ==> SameLeaves(old(mem), pt, mem, pt')
      ensures ok ==>
                !remap && p in old(Free()) && 0 < p < |mem| && LeafChanged(old(mem), pt, mem, pt', a, MakePte(p, perm))
                && mem[p] == Filled(0)
      ensures ok ==> Spent(pt, |old(free)| - 1, pt', |free|, PathOf(a)) && Complete(pt', PathOf(a))
    {
      hide Tree; hide HardwareWalk; hide Leaf; hide FreeList; hide IsValid; hide Private; hide Total;
      hide MakePte; hide UserPages; hide BlockRange; hide PathOf; hide Spent; hide Missing; hide Complete;
      ghost var mem0, free0 := mem, Free();
      var page := Kalloc();
      p := page;
      if page == 0 {
        ok, remap, pt' := false, false, pt;
        return;
      }
      Claim(mem0, free0, pt, root, page);
      ghost var mem1 := mem;
      mem := mem[page := Filled(0)];
      Scribbled(mem1, pt, root, page);
      ghost var mem2 := mem;
      ok, remap, pt' := MapOrFree(root, a, page, perm, pt);
      if !remap {
        AfterGrow(mem0, mem2, pt, pt', a, page, free0);
      }
    }

    /** After kalloc the space is still private and the new page is nobody's. */
    lemma Claim(mem0: Memory, free0: set<nat>, pt: Shape, root: nat, p: nat)
      requires Tree(mem0, pt, root) && pt.Values !! free0 && pt.Values <= Pool() && Private(mem0, pt, free0, Pool())
      requires Valid() && p in free0 && Free() == free0 - {p} && |mem| == |mem0|
      requires forall q :: 0 <= q < |mem| && q != p ==> mem[q] == mem0[q]
      ensures Space(pt, root) && p !in Pages(pt) && Pages(pt) + {p} == Total(mem0, pt, free0)
      ensures SameLeaves(mem0, pt, mem, pt) && p in Pool()
    {
      hide Leaf; hide EntryOk; hide Parent; hide FreeList; hide Total; hide Private;
      KeepTree(mem0, pt, root, p);
      TakeKeepsPrivate(mem0, pt, mem, free0, Pool(), p);
    }

    /** Writing a page that nobody owns changes nothing that anybody owns. */
    lemma Scribbled(mem1: Memory, pt: Shape, root: nat, p: nat)
      requires 0 < lo <= hi <= |mem| < 0x1000_0000_0000 && FreeList(mem1, head, free) && Free() <= Pool()
      requires Tree(mem1, pt, root) && pt.Values !! Free() && pt.Values <= Pool() && Private(mem1, pt, Free(), Pool())
      requires p !in Total(mem1, pt, Free()) && |mem| == |mem1| && forall q :: 0 <= q < |mem| && q != p ==>
                 mem[q] == mem1[q]
      ensures Space(pt, root) && Pages(pt) == Total(mem1, pt, Free()) && SameLeaves(mem1, pt, mem, pt)
    {
      hide Leaf; hide EntryOk; hide Parent; hide FreeList;
      NotInTotal(mem1, pt, Free(), p);
      KeepTree(mem1, pt, root, p);
      FreeListFrame(mem1, mem, head, free);
      UserPagesSame(mem1, pt, mem, pt);
      PrivateSame(mem1, pt, mem, Free());
    }

    lemma PrivateSame(mem1: Memory, pt: Shape, mem2: Memory, free: set<nat>)
      requires Private(mem1, pt, free, Pool()) && SameLeaves(mem1, pt, mem2, pt)
      ensures Private(mem2, pt, free, Pool())
    {
    }

    lemma AfterGrow(mem0: Memory, mem2: Memory, pt: Shape, pt': Shape, a: nat, page: nat, free0: set<nat>)
      requires SameLeaves(mem0, pt, mem2, pt) && Private(mem0, pt, free0, Pool()) && page in free0
      requires |mem2| == |mem0| && forall q :: 0 <= q < |mem0| && q != page ==> mem2[q] == mem0[q]
      requires Private(mem, pt', Free(), Pool()) && OthersUntouched(mem2, pt') && !IsValid(Leaf(mem0, pt, a))
      requires forall v: nat {:trigger Leaf(mem, pt', v)} :: v < MAXVPN && v != a ==>
                 Leaf(mem, pt', v) == Leaf(mem2, pt, v)
      ensures UserDataKept(mem0, pt, mem)
    {
      hide Leaf; hide Ppn; hide IsValid;
      forall q | q in UserPages(mem0, pt) && q < |mem| ensures mem[q] == mem0[q] {
        var v: nat :| v < USERTOP && IsValid(Leaf(mem0, pt, v)) && Ppn(Leaf(mem0, pt, v)) == q;
        assert Mapped(mem0, pt, v);
        assert Leaf(mem2, pt, v) == Leaf(mem0, pt, v);
        assert Leaf(mem, pt', v) == Leaf(mem0, pt, v) && Mapped(mem, pt', v);
      }
    }

    /** pte maps a page that was free, now zeroed, with this permission. */
    static ghost predicate FreshPage(mem1: Memory, pte: nat, perm: nat, free0: set<nat>) {
      Ppn(pte) in free0 && Ppn(pte) < |mem1| && pte == MakePte(Ppn(pte), perm) && mem1[Ppn(pte)] == Filled(0)
    }

    /** Pages v0 .. a - 1 are fresh, every other entry is as before. */
    static ghost predicate RangeFresh(mem0: Memory, pt0: Shape, free0: set<nat>, mem1: Memory, pt1: Shape, v0: nat,
                                      a: nat, perm: nat)
    {
      forall v: nat {:trigger Leaf(mem1, pt1, v)} :: v < MAXVPN ==>
        if v0 <= v < a then FreshPage(mem1, Leaf(mem1, pt1, v), perm, free0)
        else Leaf(mem1, pt1, v) == Leaf(mem0, pt0, v)
    }

    /** In the flags of the entries from v0 to a exactly V, R, U and the bits of xperm are set. */
    static ghost predicate RangeUser(mem1: Memory, pt1: Shape, v0: nat, a: nat, xperm: nat) {
      forall v: nat {:trigger Leaf(mem1, pt1, v)} :: v0 <= v < a ==>
        FlagsAre(Leaf(mem1, pt1, v), {PTE_V, PTE_R, PTE_U} + Bits(xperm))
    }

    static lemma FreshFlags(mem0: Memory, pt0: Shape, free0: set<nat>, mem1: Memory, pt1: Shape, v0: nat, a: nat,
                            xperm: nat)
      requires RangeFresh(mem0, pt0, free0, mem1, pt1, v0, a, UserPerm(xperm)) && xperm < 1024
      requires a <= MAXVPN || a == v0
      ensures RangeUser(mem1, pt1, v0, a, xperm)
    {
      hide Leaf; hide MakePte; hide UserPerm; hide FlagsAre; hide Bits;
      UserPermBound(xperm);
      UserPermBits(xperm);
      forall v: nat | v0 <= v < a ensures FlagsAre(Leaf(mem1, pt1, v), {PTE_V, PTE_R, PTE_U} + Bits(xperm)) {
        MadeFlags(Ppn(Leaf(mem1, pt1, v)), UserPerm(xperm));
        assert {PTE_V, PTE_R, PTE_U} + Bits(xperm) == Bits(UserPerm(xperm)) + {PTE_V};
      }
    }

    /** PTE_R | PTE_U | xperm has exactly those bits. */
    static lemma UserPermBits(xperm: nat)
      requires xperm < 1024
      ensures Bits(UserPerm(xperm)) == {PTE_R, PTE_U} + Bits(xperm)
    {
      hide BitOf; hide SetBitOf;
      var y := SetBitOf(xperm, PTE_R);
      forall j: nat | j < 10 ensures BitOf(UserPerm(xperm), j) <==> j == PTE_R || j == PTE_U || BitOf(xperm, j) {
        SetBitOfBits(xperm, PTE_R, j);
        SetBitOfBits(y, PTE_U, j);
      }
    }

    static lemma FreshNothing(mem0: Memory, pt0: Shape, free0: set<nat>, v0: nat, perm: nat)
      ensures RangeFresh(mem0, pt0, free0, mem0, pt0, v0, v0, perm) && UserDataKept(mem0, pt0, mem0)
      ensures SameMap(mem0, pt0, mem0, pt0) && NoneMapped(mem0, pt0, v0, 0)
    {
      hide Leaf; hide UserPages;
    }

    static lemma FreshMore(mem0: Memory, pt0: Shape, free0: set<nat>, mem1: Memory, pt1: Shape, mem2: Memory,
                           pt2: Shape, v0: nat, a: nat, perm: nat, p: nat)
      requires v0 <= a < USERTOP && perm < 1024 && NoneMapped(mem0, pt0, v0, a + 1 - v0)
      requires RangeFresh(mem0, pt0, free0, mem1, pt1, v0, a, perm) && UserDataKept(mem0, pt0, mem1)
      requires LeafChanged(mem1, pt1, mem2, pt2, a, MakePte(p, perm)) && UserDataKept(mem1, pt1, mem2)
      requires p in free0 && p < |mem2| && mem2[p] == Filled(0)
      ensures RangeFresh(mem0, pt0, free0, mem2, pt2, v0, a + 1, perm) && UserDataKept(mem0, pt0, mem2)
    {
      hide Leaf; hide Ppn; hide IsValid; hide MakePte;
      MakePteFields(p, perm);
      forall q | q in UserPages(mem0, pt0) && q < |mem2| ensures mem2[q] == mem0[q] {
        var v: nat :| v < USERTOP && IsValid(Leaf(mem0, pt0, v)) && Ppn(Leaf(mem0, pt0, v)) == q;
        assert Leaf(mem1, pt1, v) == Leaf(mem0, pt0, v);
        assert q in UserPages(mem1, pt1);
      }
      forall v: nat | v < MAXVPN
        ensures if v0 <= v < a + 1 then FreshPage(mem2, Leaf(mem2, pt2, v), perm, free0)
                else Leaf(mem2, pt2, v) == Leaf(mem0, pt0, v)
      {
        if v != a {
          assert Leaf(mem2, pt2, v) == Leaf(mem1, pt1, v);
          if v0 <= v < a {
            MakePteFields(Ppn(Leaf(mem1, pt1, v)), perm);
            assert Ppn(Leaf(mem1, pt1, v)) in UserPages(mem1, pt1);
          }
        }
      }
    }

    /** uvmalloc: on success the new pages are fresh and zeroed; on failure the map is what it was.
        It panics exactly when it gets as far as a page that is mapped already, and otherwise
        fails exactly when such a page is in its way or memory is short. */
    method Uvmalloc(root: nat, oldsz: nat, newsz: nat, xperm: nat, ghost pt: Shape)
      returns (sz: nat, remap: bool, ghost pt': Shape)
      requires Space(pt, root) && newsz <= USERTOP * PGSIZE && xperm < 1024
      modifies this`mem, this`head, this`free
      ensures remap <==> exists v: nat ::
                PgUp(oldsz) <= v < PgUp(newsz) && Runs(old(mem), pt, |old(free)|, PgUp(oldsz), v)
      ensures !remap ==> Space(pt', root) && Pages(pt') == old(Pages(pt)) && UserDataKept(old(mem), pt, mem)
      ensures newsz < oldsz ==> sz == oldsz && mem == old(mem) && pt' == pt
      ensures newsz >= oldsz ==> sz == newsz || sz == 0
      ensures newsz >= oldsz && sz != 0 && !remap ==>
                RangeFresh(old(mem), pt, old(Free()), mem, pt', PgUp(oldsz), PgUp(newsz), UserPerm(xperm))
                && RangeUser(mem, pt', PgUp(oldsz), PgUp(newsz), xperm)
      ensures newsz >= oldsz && sz == 0 && !remap ==> SameMap(old(mem), pt, mem, pt')
      ensures newsz >= oldsz && newsz > 0 && !remap ==>
                (sz == 0 <==> !NoneMapped(old(mem), pt, PgUp(oldsz), PgUp(newsz) - PgUp(oldsz))
                              || |old(free)| < Needed(pt, Range(PgUp(oldsz), PgUp(newsz) - PgUp(oldsz))))
      ensures !remap ==> Outside(old(mem), mem, old(Pages(pt)))
    {
      hide Tree; hide Leaf; hide FreeList; hide IsValid; hide Private; hide Total; hide MakePte; hide Runs;
      hide UserPages; hide Walkable; hide SetBitOf; hide Paid; hide Outside; hide RangeFresh; hide UserDataKept;
      hide NoneMapped; hide SameMap; hide LeafChanged; hide SameLeaves; hide UserPerm; hide RangeUser;
      hide Missing; hide Complete; hide PathOf; hide BlockRange; hide Range; hide Needed; hide Spent;
      NothingWritten(mem, Pages(pt));
      FreshNothing(mem, pt, Free(), PgUp(oldsz), UserPerm(xperm));
      if newsz < oldsz {
        return oldsz, false, pt;
      }
      ghost var mem0, free0, n0 := mem, Free(), |free|;
      UserPermBound(xperm);
      PaidNothing(pt, n0, Range(PgUp(oldsz), 0));
      pt' := pt;
      var v0 := PgUp(oldsz);
      var a := v0;
      while a * PGSIZE < newsz
        invariant v0 <= a && (a <= PgUp(newsz) || a == v0) && Space(pt', root) && Pages(pt') == old(Pages(pt))
                    && Free() <= free0
        invariant RangeFresh(mem0, pt, free0, mem, pt', v0, a, UserPerm(xperm)) && UserDataKept(mem0, pt, mem)
        invariant Outside(mem0, mem, old(Pages(pt))) && Paid(pt, n0, pt', |free|, Range(v0, a - v0))
        invariant NoneMapped(mem0, pt, v0, a - v0) && (newsz == 0 ==> mem == mem0 && pt' == pt)
        decreases USERTOP - a
      {
        ghost var mem1, n1, pt1 := mem, |free|, pt';
        NextSame(mem0, pt, free0, mem, pt', v0, a, UserPerm(xperm));
        MappedHasPath(pt', root, a);
        var ok, p;
        ok, remap, p, pt' := GrowOne(root, a, UserPerm(xperm), pt');
        RangeStep(v0, a, PgUp(newsz));
        if remap {
          RunsInto(mem0, pt, n0, pt1, n1, v0, a);
          return 0, true, pt';
        }
        OutsideTwice(mem0, mem1, mem, old(Pages(pt)));
        if !ok {
          PaidShort(pt, n0, pt1, n1, Range(v0, a - v0), a, Range(v0, PgUp(newsz) - v0));
          StopsBefore(mem0, pt, n0, pt1, n1, v0, a);
          ghost var mem2 := mem;
          Rollback(mem0, root, pt, free0, v0, a, UserPerm(xperm), mem1, pt1, pt');
          OutsideTwice(mem0, mem2, mem, old(Pages(pt)));
          return 0, false, pt';
        }
        OneMoreFree(mem0, pt, v0, a - v0);
        PaidMore(pt, n0, pt1, n1, pt', |free|, Range(v0, a - v0), a);
        FreshMore(mem0, pt, free0, mem1, pt1, mem, pt', v0, a, UserPerm(xperm), p);
        a := a + 1;
      }
      PaidFor(pt, n0, pt', |free|, Range(v0, a - v0));
      NothingRuns(mem0, pt, n0, v0, a);
      FreshFlags(mem0, pt, free0, mem, pt', v0, a, xperm);
      return newsz, false, pt';
    }

    /** Page v is mapped already, none of those from v0 to v is, and n pages are enough for
        those and one more: mapping from v0 on gets as far as v. */
    static ghost predicate Runs(mem0: Memory, pt0: Shape, n: nat, v0: nat, v: nat) {
      v0 <= v && IsValid(Leaf(mem0, pt0, v)) && NoneMapped(mem0, pt0, v0, v - v0) && n > Needed(pt0, Range(v0, v - v0))
    }

    static lemma RunsInto(mem0: Memory, pt: Shape, n0: nat, pt1: Shape, n1: nat, v0: nat, a: nat)
      requires v0 <= a && Paid(pt, n0, pt1, n1, Range(v0, a - v0)) && n1 > 0
      requires NoneMapped(mem0, pt, v0, a - v0) && IsValid(Leaf(mem0, pt, a))
      ensures Runs(mem0, pt, n0, v0, a)
    {
      hide Leaf; hide IsValid; hide NoneMapped; hide Range; hide PathsOf;
      SpentAll(pt, n0 - |Range(v0, a - v0)|, pt1, n1, PathsOf(Range(v0, a - v0)));
    }

    static lemma StopsBefore(mem0: Memory, pt: Shape, n0: nat, pt1: Shape, n1: nat, v0: nat, a: nat)
      requires v0 <= a && Paid(pt, n0, pt1, n1, Range(v0, a - v0)) && n1 < 1 + Missing(pt1, PathOf(a))
      requires NoneMapped(mem0, pt, v0, a - v0) && (IsValid(Leaf(mem0, pt, a)) ==> n1 == 0)
      ensures forall v: nat :: !Runs(mem0, pt, n0, v0, v)
    {
      hide Leaf; hide IsValid; hide Range; hide PathsOf; hide PathOf; hide Paid; hide Missing; hide Needed;
      forall v: nat | v0 <= v && IsValid(Leaf(mem0, pt, v)) && NoneMapped(mem0, pt, v0, v - v0)
        ensures n0 <= Needed(pt, Range(v0, v - v0))
      {
        if v == a {
          PaidAll(pt, n0, pt1, n1, Range(v0, a - v0));
        } else if v > a {
          RangeHas(v0, a, v);
          PaidShort(pt, n0, pt1, n1, Range(v0, a - v0), a, Range(v0, v - v0));
        }
      }
    }

    static lemma PaidAll(pt: Shape, n0: nat, pt1: Shape, n1: nat, vs: set<nat>)
      requires Paid(pt, n0, pt1, n1, vs)
      ensures n0 == Needed(pt, vs) + n1
    {
      SpentAll(pt, n0 - |vs|, pt1, n1, PathsOf(vs));
    }

    static lemma RangeHas(v0: nat, a: nat, b: nat)
      requires v0 <= a < b
      ensures a !in Range(v0, a - v0) && Range(v0, a - v0) + {a} <= Range(v0, b - v0)
    {
      hide Range;
    }

    static lemma NothingRuns(mem0: Memory, pt: Shape, n0: nat, v0: nat, a: nat)
      requires v0 <= a && NoneMapped(mem0, pt, v0, a - v0)
      ensures forall v: nat :: v < a ==> !Runs(mem0, pt, n0, v0, v)
    {
      hide Leaf; hide IsValid; hide Needed; hide Range;
    }

    /** Outside what was mapped so far the map is as it was. */
    static lemma NextSame(mem0: Memory, pt0: Shape, free0: set<nat>, mem1: Memory, pt1: Shape, v0: nat, a: nat,
                          perm: nat)
      requires RangeFresh(mem0, pt0, free0, mem1, pt1, v0, a, perm) && v0 <= a < MAXVPN
      ensures Leaf(mem1, pt1, a) == Leaf(mem0, pt0, a)
    {
      hide Leaf; hide FreshPage;
    }

    /** vmfault: a fresh zeroed page where a page below the size is not mapped yet.  It fails
        exactly when the address is too high, the page is mapped, or memory is short. */
    method Vmfault(root: nat, sz: nat, va: nat, ghost pt: Shape) returns (p: nat, ghost pt': Shape)
      requires Space(pt, root) && sz <= USERTOP * PGSIZE
      modifies this`mem, this`head, this`free
      ensures Space(pt', root) && Pages(pt') == old(Pages(pt))
      ensures UserDataKept(old(mem), pt, mem) && Outside(old(mem), mem, old(Pages(pt)))
      ensures p == 0 <==> va >= sz || IsValid(Leaf(old(mem), pt, va / PGSIZE))
                          || |old(free)| < 1 + Missing(pt, PathOf(va / PGSIZE))
      ensures p == 0 ==> SameLeaves(old(mem), pt, mem, pt')
      ensures p != 0 ==> p in old(Free()) && p < |mem| && mem[p] == Filled(0)
      ensures p != 0 ==> LeafChanged(old(mem), pt, mem, pt', va / PGSIZE, MakePte(p, 22))
                         && UserWritable(MakePte(p, 22))
    {
      hide Tree; hide Leaf; hide FreeList; hide IsValid; hide Private; hide Total; hide MakePte; hide UserPages;
      hide BlockRange; hide PathOf; hide Missing; hide Spent; hide Complete; hide HardwareWalk; hide UserWritable;
      NoGrowth(pt);
      FaultFlags();
      if va >= sz {
        return 0, pt;
      }
      var v := va / PGSIZE;
      var slot;
      ghost var pt1;
      slot, pt1 := Walk(root, v, false, pt);
      SlotIsLeaf(root, v, pt);
      InvalidZero();
      if slot.Some? && IsValid(mem[slot.value.page][slot.value.index]) {
        return 0, pt;
      }
      var ok, remap;
      ok, remap, p, pt' := GrowOne(root, v, 22, pt);
      if !ok {
        p := 0;
      }
    }

    /** Valid, and open to the user for reading and writing alone. */
    static ghost predicate UserWritable(pte: nat) { FlagsAre(pte, {PTE_V, PTE_R, PTE_W, PTE_U}) }

    /** PTE_W | PTE_U | PTE_R is 22. */
    lemma FaultFlags()
      ensures forall p: nat :: UserWritable(MakePte(p, 22))
    {
      hide FlagsAre; hide BitOf; hide MakePte;
      assert Bits(22) == {PTE_R, PTE_W, PTE_U} by { BitsOf22(); }
      forall p: nat ensures FlagsAre(MakePte(p, 22), {PTE_V, PTE_R, PTE_W, PTE_U}) {
        MadeFlags(p, 22);
        assert Bits(22) + {PTE_V} == {PTE_V, PTE_R, PTE_W, PTE_U};
      }
    }

    lemma BitsOf22()
      ensures forall j: nat :: j < 10 ==> (BitOf(22, j) <==> j in {PTE_R, PTE_W, PTE_U})
    {
      assert Pow2(1) == 2 && Pow2(2) == 4 && Pow2(3) == 8 && Pow2(4) == 16;
      assert Pow2(5) == 32 && Pow2(6) == 64 && Pow2(7) == 128 && Pow2(8) == 256 && Pow2(9) == 512;
    }

    lemma RangeStep(v0: nat, a: nat, b: nat)
      requires v0 <= a < b
      ensures Range(v0, a - v0) + {a} == Range(v0, a + 1 - v0) <= Range(v0, b - v0)
    {
      hide Range;
    }

    /** PTE_R | PTE_U | xperm */
    static function UserPerm(xperm: nat): nat {
      SetBitOf(SetBitOf(xperm, PTE_R), PTE_U)
    }

    static lemma UserPermBound(xperm: nat)
      requires xperm < 1024
      ensures UserPerm(xperm) < 1024
    {
      hide SetBitOf;
      assert Pow2(10) == 1024;
      SetBitOfBound(xperm, PTE_R, 10);
      SetBitOfBound(SetBitOf(xperm, PTE_R), PTE_U, 10);
    }

    /** uvmalloc's failure path: unmap and free what was mapped so far. */
    method Rollback(ghost mem0: Memory, root: nat, ghost pt: Shape, ghost free0: set<nat>, v0: nat, a: nat,
                    ghost perm: nat, ghost mem1: Memory, ghost pt1: Shape, ghost pt': Shape)
      requires Space(pt', root) && v0 <= a <= USERTOP && NoneMapped(mem0, pt, v0, a - v0)
      requires RangeFresh(mem0, pt, free0, mem1, pt1, v0, a, perm) && SameLeaves(mem1, pt1, mem, pt')
      requires UserDataKept(mem0, pt, mem1) && UserDataKept(mem1, pt1, mem)
      modifies this`mem, this`head, this`free
      ensures Space(pt', root) && Pages(pt') == old(Pages(pt'))
      ensures SameMap(mem0, pt, mem, pt') && UserDataKept(mem0, pt, mem) && Outside(old(mem), mem, Pages(pt'))
    {
      hide Tree; hide Leaf; hide FreeList; hide IsValid; hide Private; hide Total; hide UserPages; hide Walkable;
      hide RangeFresh; hide UserDataKept; hide SameMap; hide SameLeaves; hide Outside; hide NoneMapped;
      ghost var mem2 := mem;
      assert PgUp(a * PGSIZE) == a && PgUp(v0 * PGSIZE) == v0;
      var sz := Uvmdealloc(root, a * PGSIZE, v0 * PGSIZE, pt');
      UntouchedOutside(mem2, pt');
      Restored(mem0, pt, free0, v0, a, perm, mem1, pt1, mem2, pt');
    }

    lemma Restored(mem0: Memory, pt: Shape, free0: set<nat>, v0: nat, a: nat, perm: nat, mem1: Memory, pt1: Shape,
                   mem2: Memory, pt': Shape)
      requires v0 <= a <= USERTOP && NoneMapped(mem0, pt, v0, a - v0)
      requires RangeFresh(mem0, pt, free0, mem1, pt1, v0, a, perm) && SameLeaves(mem1, pt1, mem2, pt')
      requires if v0 < a then RangeUnmapped(mem2, pt', v0, a - v0) else mem == mem2
      requires UserDataKept(mem0, pt, mem1) && UserDataKept(mem1, pt1, mem2)
      requires OthersUntouched(mem2, pt') && Private(mem, pt', Free(), Pool())
      ensures SameMap(mem0, pt, mem, pt') && UserDataKept(mem0, pt, mem)
    {
      hide Leaf; hide Ppn;
      forall v: nat | v < MAXVPN
        ensures (IsValid(Leaf(mem, pt', v)) <==> IsValid(Leaf(mem0, pt, v)))
        ensures IsValid(Leaf(mem0, pt, v)) ==> Leaf(mem, pt', v) == Leaf(mem0, pt, v) == Leaf(mem1, pt1, v)
      {
        assert Leaf(mem2, pt', v) == Leaf(mem1, pt1, v);
      }
      forall q | q in UserPages(mem0, pt) && q < |mem| ensures mem[q] == mem0[q] {
        var v: nat :| v < USERTOP && IsValid(Leaf(mem0, pt, v)) && Ppn(Leaf(mem0, pt, v)) == q;
        assert q in UserPages(mem1, pt1);
        assert Mapped(mem, pt', v) && Leaf(mem, pt', v) == Leaf(mem0, pt, v);
      }
    }

    // ---- uvmcopy ---------------------------------------------------------------------------------

    /** All pages of the space, tables and mapped, hold what they held. */
    static ghost predicate SpaceKept(mem0: Memory, pt: Shape, mem1: Memory) {
      |mem1| == |mem0| && forall q :: q in pt.Values + UserPages(mem0, pt) && q < |mem1| ==> mem1[q] == mem0[q]
    }

    /** An operation on one space leaves every other space as it is: same map, same contents. */
    lemma OtherSpaceKept(mem0: Memory, free0: set<nat>, pt: Shape, root: nat, all: set<nat>)
      requires Tree(mem0, pt, root) && Private(mem0, pt, free0, Pool()) && pt.Values + UserPages(mem0, pt) !! all
      requires Valid() && Free() <= all && Outside(mem0, mem, all)
      ensures Space(pt, root) && SameLeaves(mem0, pt, mem, pt) && SpaceKept(mem0, pt, mem)
    {
      hide Leaf; hide EntryOk; hide Parent; hide FreeList; hide Ppn; hide IsValid;
      forall n | n in pt ensures mem[pt[n]] == mem0[pt[n]] { assert pt[n] in pt.Values; }
      TreeFrame(mem0, mem, pt, root);
      hide Tree;
      forall v: nat | Mapped(mem0, pt, v) ensures Ppn(Leaf(mem0, pt, v)) !in all {
        assert Ppn(Leaf(mem0, pt, v)) in UserPages(mem0, pt);
      }
    }

    /** pte is a copy of page `from`: same flags, fresh page, same contents as at mem0. */
    static ghost predicate CopyOf(mem0: Memory, from: nat, mem1: Memory, pte: nat, free0: set<nat>) {
      && Ppn(pte) in free0 && Ppn(pte) < |mem1| && pte == MakePte(Ppn(pte), Flags(from))
      && Ppn(from) < |mem0| && mem1[Ppn(pte)] == mem0[Ppn(from)]
    }

    /** The new space has copies of the old pages below a, and is otherwise as it was. */
    static ghost predicate RangeCopied(mem0: Memory, pto: Shape, ptn0: Shape, free0: set<nat>, mem1: Memory,
                                       ptn1: Shape, a: nat) {
      forall v: nat {:trigger Leaf(mem1, ptn1, v)} :: v < MAXVPN ==>
        if v < a && IsValid(Leaf(mem0, pto, v)) then CopyOf(mem0, Leaf(mem0, pto, v), mem1, Leaf(mem1, ptn1, v), free0)
        else Leaf(mem1, ptn1, v) == Leaf(mem0, ptn0, v)
    }

    /** The pages to be copied: those mapped below page number a. */
    static ghost function MappedBelow(mem0: Memory, pto: Shape, a: nat): set<nat> {
      set v: nat | v < a && IsValid(Leaf(mem0, pto, v))
    }

    static lemma MappedStep(mem0: Memory, pto: Shape, a: nat, b: nat)
      requires a < b
      ensures MappedBelow(mem0, pto, a + 1) ==
              MappedBelow(mem0, pto, a) + if IsValid(Leaf(mem0, pto, a)) then {a} else {}
      ensures a !in MappedBelow(mem0, pto, a) && MappedBelow(mem0, pto, a + 1) <= MappedBelow(mem0, pto, b)
    {
      hide Leaf; hide IsValid;
    }

    /** The old space is apart from the free list and the new space, and as it was in mem0. */
    ghost predicate OldSpace(mem0: Memory, pto: Shape, rooto: nat, all: set<nat>, mem1: Memory) {
      && Tree(mem0, pto, rooto) && pto.Values <= Pool() && pto.Values + UserPages(mem0, pto) !! all
      && (forall v: nat {:trigger Leaf(mem0, pto, v)} :: Mapped(mem0, pto, v) ==> Ppn(Leaf(mem0, pto, v)) < |mem0|)
      && SpaceKept(mem0, pto, mem1)
    }

    lemma OldSpaceKept(mem0: Memory, pto: Shape, rooto: nat, all: set<nat>, mem1: Memory, mem2: Memory)
      requires OldSpace(mem0, pto, rooto, all, mem1) && Outside(mem1, mem2, all)
      ensures OldSpace(mem0, pto, rooto, all, mem2)
    {
      hide Tree; hide UserPages; hide Leaf; hide Ppn;
    }

    lemma OldReadable(mem0: Memory, pto: Shape, rooto: nat, all: set<nat>)
      requires Valid() && OldSpace(mem0, pto, rooto, all, mem) && Free() <= all
      ensures Walkable(pto, rooto) && SameLeaves(mem0, pto, mem, pto)
    {
      hide Leaf; hide EntryOk; hide Parent; hide FreeList; hide UserPages;
      forall n | n in pto ensures mem[pto[n]] == mem0[pto[n]] { assert pto[n] in pto.Values; }
      TreeFrame(mem0, mem, pto, rooto);
    }

    /** The new space has one more page, p, a copy of what pte maps. */
    static ghost predicate OneCopied(mem0: Memory, pte: nat, mem1: Memory, ptn1: Shape, mem2: Memory, ptn2: Shape,
                                     a: nat, p: nat)
    {
      && LeafChanged(mem1, ptn1, mem2, ptn2, a, MakePte(p, Flags(pte)))
      && p < |mem2| && Ppn(pte) < |mem0| && mem2[p] == mem0[Ppn(pte)]
    }

    /** One iteration of uvmcopy. */
    method CopyOne(rooto: nat, rootn: nat, a: nat, ghost mem0: Memory, ghost pto: Shape, ghost ptn: Shape)
      returns (ok: bool, ghost p: nat, ghost ptn': Shape)
      requires Space(ptn, rootn) && OldSpace(mem0, pto, rooto, Pages(ptn), mem) && a < USERTOP
      requires !IsValid(Leaf(mem, ptn, a))
      modifies this`mem, this`head, this`free
      ensures Space(ptn', rootn) && Pages(ptn') == old(Pages(ptn)) && Free() <= old(Free())
      ensures Outside(old(mem), mem, old(Pages(ptn))) && UserDataKept(old(mem), ptn, mem)
      ensures !ok <==> IsValid(Leaf(mem0, pto, a)) && |old(free)| < 1 + Missing(ptn, PathOf(a))
      ensures !ok ==> SameLeaves(old(mem), ptn, mem, ptn')
      ensures ok && IsValid(Leaf(mem0, pto, a)) ==>
                p in old(Free()) && OneCopied(mem0, Leaf(mem0, pto, a), old(mem), ptn, mem, ptn', a, p)
                && Spent(ptn, |old(free)| - 1, ptn', |free|, PathOf(a)) && Complete(ptn', PathOf(a))
      ensures !IsValid(Leaf(mem0, pto, a)) ==> mem == old(mem) && free == old(free) && ptn' == ptn
    {
      hide Tree; hide HardwareWalk; hide Leaf; hide FreeList; hide IsValid; hide Private; hide UserPages;
      hide BlockRange; hide Total; hide Spent; hide Missing; hide Complete; hide PathOf; hide OneCopied;
      ghost var all := Pages(ptn);
      ptn', p := ptn, 0;
      PartsOfPages(ptn);
      OldReadable(mem0, pto, rooto, all);
      var slot;
      ghost var pto1;
      slot, pto1 := Walk(rooto, a, false, pto);
      SlotIsLeaf(rooto, a, pto);
      InvalidZero();
      if slot.None? || !IsValid(mem[slot.value.page][slot.value.index]) {
        return true, 0, ptn;
      }
      var pte := mem[slot.value.page][slot.value.index];
      assert pte == Leaf(mem0, pto, a) && Mapped(mem0, pto, a);
      OldPage(mem0, pto, rooto, all, a);
      ok, p, ptn' := CopyPage(rootn, a, pte, mem0, ptn);
    }

    /** Allocate a page, copy what pte maps, map the copy. */
    method CopyPage(rootn: nat, a: nat, pte: word, ghost mem0: Memory, ghost ptn: Shape)
      returns (ok: bool, ghost p: nat, ghost ptn': Shape)
      requires Space(ptn, rootn) && a < USERTOP && !IsValid(Leaf(mem, ptn, a))
      requires Ppn(pte) < |mem0| == |mem| && Ppn(pte) !in Pages(ptn) && mem[Ppn(pte)] == mem0[Ppn(pte)]
      modifies this`mem, this`head, this`free
      ensures Space(ptn', rootn) && Pages(ptn') == old(Pages(ptn)) && Free() <= old(Free())
      ensures Outside(old(mem), mem, old(Pages(ptn))) && UserDataKept(old(mem), ptn, mem)
      ensures ok <==> |old(free)| >= 1 + Missing(ptn, PathOf(a))
      ensures !ok ==> SameLeaves(old(mem), ptn, mem, ptn')
      ensures ok ==> p in old(Free()) && OneCopied(mem0, pte, old(mem), ptn, mem, ptn', a, p)
                     && Spent(ptn, |old(free)| - 1, ptn', |free|, PathOf(a)) && Complete(ptn', PathOf(a))
    {
      hide Tree; hide HardwareWalk; hide Leaf; hide FreeList; hide IsValid; hide Private; hide MakePte; hide Ppn;
      hide UserPages; hide BlockRange; hide Total; hide Spent; hide Missing; hide Complete; hide PathOf; hide Flags;
      ghost var mem1, free1 := mem, Free();
      PartsOfPages(ptn);
      var page := Kalloc();
      p := page;
      if page == 0 {
        ok, ptn' := false, ptn;
        return;
      }
      Claim(mem1, free1, ptn, rootn, page);
      ghost var mem2 := mem;
      mem := mem[page := mem[Ppn(pte)]];
      Scribbled(mem2, ptn, rootn, page);
      ghost var mem3 := mem;
      FlagsBound(pte);
      var remap;
      ok, remap, ptn' := MapOrFree(rootn, a, page, Flags(pte), ptn);
      assert !remap;
      AfterGrow(mem1, mem3, ptn, ptn', a, page, free1);
    }

    static lemma FlagsBound(pte: nat)
      ensures Flags(pte) < 1024
    {
    }

    lemma PartsOfPages(pt: Shape)
      ensures Free() <= Pages(pt) && pt.Values <= Pages(pt) && UserPages(mem, pt) <= Pages(pt)
    {
    }

    lemma OldPage(mem0: Memory, pto: Shape, rooto: nat, all: set<nat>, a: nat)
      requires OldSpace(mem0, pto, rooto, all, mem) && Mapped(mem0, pto, a)
      ensures var q := Ppn(Leaf(mem0, pto, a)); q < |mem0| && q !in all && mem[q] == mem0[q]
    {
    }

    static lemma CopyMore(mem0: Memory, pto: Shape, ptn0: Shape, free0: set<nat>, mem1: Memory, ptn1: Shape,
                          mem2: Memory, ptn2: Shape, a: nat, p: nat)
      requires a < USERTOP && UserDataKept(mem1, ptn1, mem2) && RangeCopied(mem0, pto, ptn0, free0, mem1, ptn1, a)
      requires IsValid(Leaf(mem0, pto, a)) ==>
                 p in free0 && OneCopied(mem0, Leaf(mem0, pto, a), mem1, ptn1, mem2, ptn2, a, p)
      requires !IsValid(Leaf(mem0, pto, a)) ==> SameLeaves(mem1, ptn1, mem2, ptn2)
      ensures RangeCopied(mem0, pto, ptn0, free0, mem2, ptn2, a + 1)
    {
      hide Leaf; hide Ppn; hide IsValid; hide MakePte; hide Flags;
      forall v: nat | v < MAXVPN
        ensures if v < a + 1 && IsValid(Leaf(mem0, pto, v))
                then CopyOf(mem0, Leaf(mem0, pto, v), mem2, Leaf(mem2, ptn2, v), free0)
                else Leaf(mem2, ptn2, v) == Leaf(mem0, ptn0, v)
      {
        if v == a && IsValid(Leaf(mem0, pto, a)) {
          FlagsBound(Leaf(mem0, pto, a));
          MakePteFields(p, Flags(Leaf(mem0, pto, a)));
        } else {
          assert Leaf(mem2, ptn2, v) == Leaf(mem1, ptn1, v);
          if v < a && IsValid(Leaf(mem0, pto, v)) {
            FlagsBound(Leaf(mem0, pto, v));
            MakePteFields(Ppn(Leaf(mem1, ptn1, v)), Flags(Leaf(mem0, pto, v)));
            assert Ppn(Leaf(mem1, ptn1, v)) in UserPages(mem1, ptn1);
          }
        }
      }
    }

    static lemma NextToCopy(mem0: Memory, pto: Shape, ptn0: Shape, free0: set<nat>, mem1: Memory, ptn1: Shape, a: nat,
                            b: nat)
      requires RangeCopied(mem0, pto, ptn0, free0, mem1, ptn1, a) && NoneMapped(mem0, ptn0, 0, b) && a < b <= MAXVPN
      ensures !IsValid(Leaf(mem1, ptn1, a)) && NoneMapped(mem0, ptn0, 0, a)
    {
      hide Leaf; hide IsValid; hide CopyOf;
      assert Leaf(mem1, ptn1, a) == Leaf(mem0, ptn0, a);
    }

    static lemma CopiedNothing(mem0: Memory, pto: Shape, ptn0: Shape, free0: set<nat>)
      ensures RangeCopied(mem0, pto, ptn0, free0, mem0, ptn0, 0) && MappedBelow(mem0, pto, 0) == {}
    {
      hide Leaf; hide CopyOf;
    }

    /** uvmcopy: on success the child's pages below sz are fresh copies of the
        parent's, with the same flags; on failure the child's map is as it was.
        It fails exactly when the pages to copy and the tables the child is missing
        are more than the free pages.  Either way no page is lost and nothing but the
        child and the free list is written. */
    method Uvmcopy(rooto: nat, rootn: nat, sz: nat, ghost pto: Shape, ghost ptn: Shape)
      returns (ok: bool, ghost ptn': Shape)
      requires Space(ptn, rootn) && OldSpace(mem, pto, rooto, Pages(ptn), mem) && sz <= USERTOP * PGSIZE
      requires NoneMapped(mem, ptn, 0, PgUp(sz))
      modifies this`mem, this`head, this`free
      ensures Space(ptn', rootn) && Pages(ptn') == old(Pages(ptn)) && OldSpace(old(mem), pto, rooto, Pages(ptn'), mem)
      ensures ok <==> |old(free)| >= Needed(ptn, MappedBelow(old(mem), pto, PgUp(sz)))
      ensures ok ==> RangeCopied(old(mem), pto, ptn, old(Free()), mem, ptn', PgUp(sz))
      ensures !ok ==> SameMap(old(mem), ptn, mem, ptn')
      ensures Outside(old(mem), mem, old(Pages(ptn)))
    {
      hide Tree; hide Leaf; hide FreeList; hide IsValid; hide Private; hide Total; hide MakePte; hide SameMap;
      hide UserPages; hide Walkable; hide OldSpace; hide Outside; hide RangeCopied; hide NoneMapped; hide OneCopied;
      hide Missing; hide Complete; hide PathOf; hide BlockRange; hide Needed; hide Spent; hide Paid; hide MappedBelow;
      hide UserDataKept; hide SameLeaves;
      ghost var mem0, free0, n0, all := mem, Free(), |free|, Pages(ptn);
      NothingWritten(mem, all);
      CopiedNothing(mem, pto, ptn, free0);
      PaidNothing(ptn, n0, MappedBelow(mem, pto, 0));
      ptn' := ptn;
      var a := 0;
      while a * PGSIZE < sz
        invariant a <= PgUp(sz) && Space(ptn', rootn) && Pages(ptn') == all && Free() <= free0
        invariant OldSpace(mem0, pto, rooto, all, mem) && RangeCopied(mem0, pto, ptn, free0, mem, ptn', a)
        invariant Outside(mem0, mem, all) && Paid(ptn, n0, ptn', |free|, MappedBelow(mem0, pto, a))
        decreases PgUp(sz) - a
      {
        ghost var mem1, ptn1, n1, p := mem, ptn', |free|, 0;
        NextToCopy(mem0, pto, ptn, free0, mem, ptn', a, PgUp(sz));
        MappedStep(mem0, pto, a, PgUp(sz));
        ok, p, ptn' := CopyOne(rooto, rootn, a, mem0, pto, ptn');
        OutsideTwice(mem0, mem1, mem, all);
        OldSpaceKept(mem0, pto, rooto, all, mem1, mem);
        if !ok {
          PaidShort(ptn, n0, ptn1, n1, MappedBelow(mem0, pto, a), a, MappedBelow(mem0, pto, PgUp(sz)));
          ghost var mem2 := mem;
          Undo(mem0, rootn, pto, ptn, a, mem1, ptn1, ptn', free0);
          OutsideTwice(mem0, mem2, mem, all);
          OldSpaceKept(mem0, pto, rooto, all, mem2, mem);
          return false, ptn';
        }
        PaidStep(mem0, pto, a, ptn, n0, ptn1, n1, ptn', |free|);
        LeavesSame(mem1, ptn1);
        CopyMore(mem0, pto, ptn, free0, mem1, ptn1, mem, ptn', a, p);
        a := a + 1;
      }
      PaidFor(ptn, n0, ptn', |free|, MappedBelow(mem0, pto, a));
      return true, ptn';
    }

    static lemma LeavesSame(mem1: Memory, pt1: Shape)
      ensures SameLeaves(mem1, pt1, mem1, pt1)
    {
    }

    static lemma PaidStep(mem0: Memory, pto: Shape, a: nat, pt: Shape, n0: int, pt1: Shape, n1: int, pt2: Shape,
                          n2: int)
      requires Paid(pt, n0, pt1, n1, MappedBelow(mem0, pto, a))
      requires if IsValid(Leaf(mem0, pto, a)) then Spent(pt1, n1 - 1, pt2, n2, PathOf(a)) && Complete(pt2, PathOf(a))
               else pt2 == pt1 && n2 == n1
      ensures Paid(pt, n0, pt2, n2, MappedBelow(mem0, pto, a + 1))
    {
      hide Paid; hide Spent; hide Complete; hide PathOf; hide MappedBelow;
      MappedStep(mem0, pto, a, a + 1);
      if IsValid(Leaf(mem0, pto, a)) {
        PaidMore(pt, n0, pt1, n1, pt2, n2, MappedBelow(mem0, pto, a), a);
      } else {
        assert MappedBelow(mem0, pto, a + 1) == MappedBelow(mem0, pto, a);
      }
    }

    /** uvmcopy's err label. */
    method Undo(ghost mem0: Memory, rootn: nat, ghost pto: Shape, ghost ptn: Shape, a: nat, ghost mem1: Memory,
                ghost ptn1: Shape, ghost ptn': Shape, ghost free0: set<nat>)
      requires Space(ptn', rootn) && a <= USERTOP && SameLeaves(mem1, ptn1, mem, ptn')
      requires RangeCopied(mem0, pto, ptn, free0, mem1, ptn1, a) && NoneMapped(mem0, ptn, 0, a)
      modifies this`mem, this`head, this`free
      ensures Space(ptn', rootn) && Pages(ptn') == old(Pages(ptn')) && SameMap(mem0, ptn, mem, ptn')
      ensures Outside(old(mem), mem, Pages(ptn'))
    {
      hide Tree; hide Leaf; hide FreeList; hide Private; hide Total; hide UserPages; hide Walkable; hide CopyOf;
      ghost var mem2 := mem;
      Uvmunmap(rootn, 0, a, true, ptn');
      UntouchedOutside(mem2, ptn');
      forall v: nat | v < MAXVPN
        ensures (IsValid(Leaf(mem, ptn', v)) <==> IsValid(Leaf(mem0, ptn, v)))
        ensures IsValid(Leaf(mem0, ptn, v)) ==> Leaf(mem, ptn', v) == Leaf(mem0, ptn, v)
      {
        assert Leaf(mem2, ptn', v) == Leaf(mem1, ptn1, v);
      }
    }

    // ---- freewalk and uvmfree -----------------------------------------------------------------------

    /** What freewalk is given: the subtree below n is as in memT, none of its pages is free,
        and its valid leaf entries have some permission. */
    ghost predicate Freeable(memT: Memory, pt: Shape, root: nat, n: Node)
      reads this
    {
      && Valid() && |mem| == |memT| && Tree(memT, pt, root) && n in pt && pt.Values <= Pool()
      && SubPages(pt, n) !! Free() && (forall p :: p in SubPages(pt, n) && p < |mem| ==> mem[p] == memT[p])
      && (forall m, i :: m in pt && m.level == 0 && 0 <= i < 512 && IsValid(memT[pt[m]][i]) ==>
          !IsPointer(memT[pt[m]][i]))
    }

    /** The pages given back after the first i entries, and whether those held no leaf. */
    static ghost function DonePages(pt: Shape, n: Node, i: nat): set<nat>
      requires n in pt && i <= 512
    {
      if n.level == 0 then {} else KidsPages(pt, n, i)
    }

    static ghost predicate DoneClean(memT: Memory, pt: Shape, n: Node, i: nat)
      requires n in pt && i <= 512 && forall m :: m in pt ==> pt[m] < |memT|
    {
      if n.level == 0 then forall j :: 0 <= j < i ==> !IsValid(memT[pt[n]][j]) else KidsClean(memT, pt, n, i)
    }

    /** freewalk has gone through the first i entries of n; memory and free list are now memC and freeC. */
    static ghost predicate Progress(memT: Memory, pt: Shape, root: nat, n: Node, i: nat, mem0: Memory,
                                    free0: set<nat>, memC: Memory, freeC: set<nat>) {
      && |memC| == |memT| == |mem0| && Tree(memT, pt, root) && n in pt && i <= 512
      && SubPages(pt, n) !! free0 && freeC == free0 + DonePages(pt, n, i) && pt[n] !in freeC
      && (forall j :: i <= j < 512 ==> memC[pt[n]][j] == memT[pt[n]][j])
      && (forall p :: p in SubPages(pt, n) && p !in DonePages(pt, n, i) && p != pt[n] && p < |memC| ==>
          memC[p] == memT[p])
      && (forall p :: 0 <= p < |memC| && p !in SubPages(pt, n) ==> memC[p] == mem0[p])
      && DoneClean(memT, pt, n, i)
    }

    ghost predicate FreewalkInv(memT: Memory, pt: Shape, root: nat, n: Node, i: nat, mem0: Memory, free0: set<nat>)
      reads this
    {
      && Valid() && pt.Values <= Pool() && Progress(memT, pt, root, n, i, mem0, free0, mem, Free())
      && (forall m, j :: m in pt && m.level == 0 && 0 <= j < 512 && IsValid(memT[pt[m]][j]) ==>
          !IsPointer(memT[pt[m]][j]))
    }

    /** freewalk: false is the panic "freewalk: leaf", which happens exactly when a leaf is left. */
    method Freewalk(page: nat, ghost n: Node, ghost memT: Memory, ghost pt: Shape, ghost root: nat) returns (ok: bool)
      requires Freeable(memT, pt, root, n) && pt[n] == page
      modifies this`mem, this`head, this`free
      ensures Valid() && |mem| == |memT|
      ensures ok <==> Clean(memT, pt, n)
      ensures ok ==> Free() == old(Free()) + SubPages(pt, n)
      ensures ok ==> forall p :: 0 <= p < |mem| && p !in SubPages(pt, n) ==> mem[p] == old(mem)[p]
      decreases n.level, 1
    {
      hide FreeList; hide EntryOk; hide KidsPages; hide KidsClean; hide Parent; hide BlockRange;
      ghost var mem0, free0 := mem, Free();
      FreewalkStart(memT, pt, root, n);
      var i := 0;
      while i < 512
        invariant 0 <= i <= 512 && FreewalkInv(memT, pt, root, n, i, mem0, free0)
      {
        ok := FreeEntry(page, i, n, memT, pt, root, mem0, free0);
        if !ok {
          return false;
        }
        i := i + 1;
      }
      assert page in pt.Values;
      Kfree(page);
      return true;
    }

    lemma FreewalkStart(memT: Memory, pt: Shape, root: nat, n: Node)
      requires Freeable(memT, pt, root, n)
      ensures FreewalkInv(memT, pt, root, n, 0, mem, Free())
    {
    }

    /** One iteration of freewalk's loop. */
    method FreeEntry(page: nat, i: nat, ghost n: Node, ghost memT: Memory, ghost pt: Shape, ghost root: nat,
                     ghost mem0: Memory, ghost free0: set<nat>) returns (ok: bool)
      requires i < 512 && FreewalkInv(memT, pt, root, n, i, mem0, free0) && pt[n] == page
      modifies this`mem, this`head, this`free
      ensures ok ==> FreewalkInv(memT, pt, root, n, i + 1, mem0, free0) && page < |mem| && !IsValid(mem[page][i])
      ensures !ok ==> Valid() && |mem| == |memT| && !Clean(memT, pt, n)
      decreases n.level, 0
    {
      hide FreeList; hide EntryOk; hide SubPages; hide Parent; hide Child; hide BlockRange; hide IsPointer;
      hide IsValid; hide Ppn; hide Clean;
      var pte := mem[page][i];
      EntryKinds(memT, pt, root, n, i);
      if IsValid(pte) && IsPointer(pte) {
        ghost var mem1, free1 := mem, Free();
        ChildFreeable(memT, pt, root, n, i, mem0, free0);
        ok := Freewalk(Ppn(pte), Child(n, i), memT, pt, root);
        if !ok {
          DirtyHere(memT, pt, n, i);
          return false;
        }
        ghost var mem2 := mem;
        ChildDone(memT, pt, root, n, i, mem0, free0, mem1, free1, mem2, Free());
        mem := mem[page := mem[page][i := 0]];
        FreeListFrame(mem2, mem, head, free);
        InvalidZero();
        return true;
      } else if IsValid(pte) {
        DirtyLeafHere(memT, pt, n, i);
        return false;
      }
      EntrySkipped(memT, pt, root, n, i, mem0, free0, mem, Free());
      return true;
    }

    /** A valid entry is a pointer to the child's page in an interior node, and not one in a leaf table. */
    lemma EntryKinds(memT: Memory, pt: Shape, root: nat, n: Node, i: nat)
      requires Tree(memT, pt, root) && n in pt && i < 512
      requires forall m, j :: m in pt && m.level == 0 && 0 <= j < 512 && IsValid(memT[pt[m]][j]) ==>
                 !IsPointer(memT[pt[m]][j])
      ensures n.level == 0 ==> !(IsValid(memT[pt[n]][i]) && IsPointer(memT[pt[n]][i]))
      ensures n.level > 0 ==> (IsValid(memT[pt[n]][i]) <==> Child(n, i) in pt)
      ensures n.level > 0 && Child(n, i) in pt ==>
                IsPointer(memT[pt[n]][i]) && Ppn(memT[pt[n]][i]) == pt[Child(n, i)] && Child(n, i).level == n.level - 1
    {
      hide Child; hide Parent; hide Ppn; hide IsValid; hide IsPointer;
      if n.level > 0 {
        StepDown(memT, pt, root, n, i);
        ChildLevel(n, i);
        assert EntryOk(memT, pt, n, i);
        if Child(n, i) in pt { PpnOfPointer(pt[Child(n, i)]); }
      }
    }

    lemma ChildFreeable(memT: Memory, pt: Shape, root: nat, n: Node, i: nat, mem0: Memory, free0: set<nat>)
      requires i < 512 && FreewalkInv(memT, pt, root, n, i, mem0, free0) && n.level > 0 && Child(n, i) in pt
      ensures Freeable(memT, pt, root, Child(n, i))
    {
      hide FreeList; hide EntryOk; hide KidsPages; hide Parent; hide Child; hide BlockRange; hide KidsClean;
      hide IsPointer; hide IsValid;
      assert Injective(pt);
      KidsDisjoint(pt, n, i);
      KidInKids(pt, n, i, 512);
      hide SubPages;
      assert SubPages(pt, Child(n, i)) <= SubPages(pt, n)
          && pt[n] !in SubPages(pt, Child(n, i)) by { SubOfKids(pt, n, i); }
    }

    lemma SubOfKids(pt: Shape, n: Node, i: nat)
      requires Injective(pt) && n in pt && n.level > 0 && i < 512 && Child(n, i) in pt
      ensures SubPages(pt, Child(n, i)) <= SubPages(pt, n) && pt[n] !in SubPages(pt, Child(n, i))
    {
      hide KidsPages; hide Child;
      KidsDisjoint(pt, n, i);
      KidInKids(pt, n, i, 512);
    }

    lemma DirtyHere(memT: Memory, pt: Shape, n: Node, i: nat)
      requires n in pt && n.level > 0 && i < 512 && (forall m :: m in pt ==> pt[m] < |memT|)
      requires Child(n, i) in pt && !Clean(memT, pt, Child(n, i))
      ensures !Clean(memT, pt, n)
    {
      hide KidsClean; hide Child;
      DirtyKid(memT, pt, n, i, 512);
    }

    lemma DirtyLeafHere(memT: Memory, pt: Shape, n: Node, i: nat)
      requires n in pt && n.level == 0 && i < 512 && (forall m :: m in pt ==> pt[m] < |memT|) && IsValid(memT[pt[n]][i])
      ensures !Clean(memT, pt, n)
    {
    }

    lemma EntrySkipped(memT: Memory, pt: Shape, root: nat, n: Node, i: nat, mem0: Memory, free0: set<nat>,
                       memC: Memory, freeC: set<nat>)
      requires i < 512 && Progress(memT, pt, root, n, i, mem0, free0, memC, freeC)
      requires if n.level == 0 then !IsValid(memT[pt[n]][i]) else Child(n, i) !in pt
      ensures Progress(memT, pt, root, n, i + 1, mem0, free0, memC, freeC)
    {
      hide SubPages; hide EntryOk; hide Parent; hide Child; hide IsValid; hide Clean;
    }

    lemma ChildDone(memT: Memory, pt: Shape, root: nat, n: Node, i: nat, mem0: Memory, free0: set<nat>,
                    mem1: Memory, free1: set<nat>, mem2: Memory, free2: set<nat>)
      requires i < 512 && Progress(memT, pt, root, n, i, mem0, free0, mem1, free1) && n.level > 0 && Child(n, i) in pt
      requires |mem2| == |mem1| && free2 == free1 + SubPages(pt, Child(n, i)) && Clean(memT, pt, Child(n, i))
      requires forall p :: 0 <= p < |mem1| && p !in SubPages(pt, Child(n, i)) ==> mem2[p] == mem1[p]
      ensures Progress(memT, pt, root, n, i + 1, mem0, free0, mem2[pt[n] := mem2[pt[n]][i := 0]], free2)
    {
      hide EntryOk; hide Parent; hide Child; hide IsValid; hide Clean; hide SubPages; hide DonePages; hide DoneClean;
      assert 0 < pt[n] < |memT| && Injective(pt);
      KidSplit(memT, pt, n, i);
      hide Tree;
    }

    lemma KidSplit(memT: Memory, pt: Shape, n: Node, i: nat)
      requires Injective(pt) && n in pt && n.level > 0 && i < 512 && Child(n, i) in pt && (forall m :: m in pt ==>
                 pt[m] < |memT|)
      ensures DonePages(pt, n, i + 1) == DonePages(pt, n, i) + SubPages(pt, Child(n, i))
      ensures SubPages(pt, Child(n, i)) <= SubPages(pt, n) && pt[n] !in SubPages(pt, Child(n, i))
                && pt[n] in SubPages(pt, n)
      ensures DoneClean(memT, pt, n, i) && Clean(memT, pt, Child(n, i)) ==> DoneClean(memT, pt, n, i + 1)
    {
      hide Child; hide Clean;
      SubOfKids(pt, n, i);
    }

    /** uvmfree: everything is given back, or a mapping at or above the size was left
        and freewalk panics. */
    method Uvmfree(root: nat, sz: nat, ghost pt: Shape) returns (ok: bool)
      requires Space(pt, root) && sz <= USERTOP * PGSIZE
      requires forall v: nat {:trigger Leaf(mem, pt, v)} :: v < MAXVPN && IsValid(Leaf(mem, pt, v)) ==>
                 !IsPointer(Leaf(mem, pt, v))
      modifies this`mem, this`head, this`free
      ensures Valid()
      ensures ok <==> NoneFrom(old(mem), pt, PgUp(sz))
      ensures ok ==> Free() == old(Pages(pt))
      ensures ok ==> Outside(old(mem), mem, old(Pages(pt)))
    {
      hide Tree; hide Leaf; hide FreeList; hide IsValid; hide Private; hide Total; hide UserPages;
      hide Clean; hide SubPages; hide IsPointer; hide Walkable; hide NoneFrom;
      UnmapBelow(root, sz, pt);
      ghost var memT, freeT := mem, Free();
      ReadyToFree(pt, root);
      SpaceIsTree(pt, root);
      CleanIffEmpty(mem, pt, root);
      RootOwnsAll(mem, pt, root);
      ok := Freewalk(root, Root, memT, pt, root);
      if ok {
        EmptyTotal(memT, pt, freeT);
      }
    }

    lemma SpaceIsTree(pt: Shape, root: nat)
      requires Space(pt, root)
      ensures Tree(mem, pt, root) && Valid() && Pages(pt) >= pt.Values + Free()
    {
    }

    /** The first statement of uvmfree. */
    method UnmapBelow(root: nat, sz: nat, ghost pt: Shape)
      requires Space(pt, root) && sz <= USERTOP * PGSIZE
      requires forall v: nat {:trigger Leaf(mem, pt, v)} :: v < MAXVPN && IsValid(Leaf(mem, pt, v)) ==>
                 !IsPointer(Leaf(mem, pt, v))
      modifies this`mem, this`head, this`free
      ensures Space(pt, root) && Pages(pt) == old(Pages(pt))
      ensures NoneFrom(mem, pt, 0) <==> NoneFrom(old(mem), pt, PgUp(sz))
      ensures forall v: nat {:trigger Leaf(mem, pt, v)} :: v < MAXVPN && IsValid(Leaf(mem, pt, v)) ==>
                !IsPointer(Leaf(mem, pt, v))
      ensures |mem| == |old(mem)| && forall p :: 0 <= p < |mem| && p !in Pages(pt) ==> mem[p] == old(mem)[p]
    {
      hide Tree; hide Leaf; hide FreeList; hide IsValid; hide Private; hide Total; hide UserPages;
      hide IsPointer; hide Walkable;
      if sz > 0 {
        Uvmunmap(root, 0, PgUp(sz), true, pt);
      }
      InvalidZero();
      PartsOfPages(pt);
      OnlyAbove(old(mem), mem, pt, PgUp(sz));
    }

    lemma OnlyAbove(mem0: Memory, mem1: Memory, pt: Shape, v0: nat)
      requires forall v: nat {:trigger Leaf(mem1, pt, v)} :: v < MAXVPN ==> (IsValid(Leaf(mem1, pt, v)) <==>
                 v0 <= v
                 && IsValid(Leaf(mem0, pt, v)))
      ensures NoneFrom(mem1, pt, 0) <==> NoneFrom(mem0, pt, v0)
    {
      hide Leaf; hide IsValid;
      if NoneFrom(mem1, pt, 0) {
        forall v: nat | v0 <= v < MAXVPN ensures !IsValid(Leaf(mem0, pt, v)) { assert !IsValid(Leaf(mem1, pt, v)); }
      }
    }

    lemma ReadyToFree(pt: Shape, root: nat)
      requires Space(pt, root)
      requires forall v: nat {:trigger Leaf(mem, pt, v)} :: v < MAXVPN && IsValid(Leaf(mem, pt, v)) ==>
                 !IsPointer(Leaf(mem, pt, v))
      ensures Freeable(mem, pt, root, Root) && pt[Root] == root
    {
      hide FreeList; hide EntryOk; hide Parent; hide SubPages; hide IsPointer; hide IsValid; hide Private;
      RootOwnsAll(mem, pt, root);
      forall m, i | m in pt && m.level == 0 && 0 <= i < 512
          && IsValid(mem[pt[m]][i]) ensures !IsPointer(mem[pt[m]][i]) {
        var v := m.prefix * 512 + i;
        assert NodeOf(0, v) == m && v % 512 == i;
        assert Leaf(mem, pt, v) == mem[pt[m]][i];
      }
    }

    lemma EmptyTotal(memT: Memory, pt: Shape, freeT: set<nat>)
      requires NoneFrom(memT, pt, 0)
      ensures Total(memT, pt, freeT) == freeT + pt.Values
    {
    }

    // ---- the life of an address space --------------------------------------------------------------

    /** uvmcreate: an empty map, on one page from the free list. */
    method Uvmcreate() returns (root: nat, ghost pt: Shape)
      requires Valid()
      modifies this`mem, this`head, this`free
      ensures Valid() && (root == 0 <==> old(free) == []) && (root == 0 ==> mem == old(mem) && free == old(free))
      ensures root != 0 ==> Space(pt, root) && NoneFrom(mem, pt, 0) && Pages(pt) == old(Free())
      ensures root != 0 ==> pt == map[Root := root] && |old(free)| == |free| + 1 && Outside(old(mem), mem, old(Free()))
    {
      hide FreeList; hide BlockRange; hide EntryOk; hide Leaf; hide IsValid; hide NextIs;
      root := Kalloc();
      pt := map[Root := root];
      if root != 0 {
        ghost var mem1 := mem;
        mem := mem[root := Filled(0)];
        FreeListFrame(mem1, mem, head, free);
        EmptySpace(pt, root);
      }
    }

    lemma EmptySpace(pt: Shape, root: nat)
      requires 0 < root < |mem| < 0x1000_0000_0000 && pt == map[Root := root] && mem[root] == Filled(0)
      ensures Tree(mem, pt, root) && NoneFrom(mem, pt, 0) && pt.Values == {root}
      ensures UserPages(mem, pt) == {} && forall v: nat {:trigger Leaf(mem, pt, v)} :: !Mapped(mem, pt, v)
    {
      assert pt.Values == {root} by { assert pt[Root] == root; }
      forall v: nat ensures Leaf(mem, pt, v) == 0 && !Mapped(mem, pt, v) { assert NodeOf(0, v) !in pt; }
    }

    /** The life of an address space: create it, let it grow to sz, free it as one of size freed.
        Every page comes back exactly when freed covers what was mapped; if it does not,
        freewalk meets a leaf and panics. */
    method GrowThenFree(sz: nat, freed: nat, xperm: nat) returns (grown: bool, ok: bool)
      requires Valid() && 0 < sz <= USERTOP * PGSIZE && freed <= USERTOP * PGSIZE && xperm < 1024
      modifies this`mem, this`head, this`free
      ensures Valid() && (|old(free)| > 3 * PgUp(sz) ==> grown)
      ensures ok <==> grown ==> PgUp(sz) <= PgUp(freed)
      ensures ok ==> Free() == old(Free()) && Outside(old(mem), mem, old(Free()))
    {
      hide Tree; hide Leaf; hide FreeList; hide IsValid; hide Private; hide Total; hide UserPages; hide IsPointer;
      hide Walkable; hide NoneFrom; hide RangeFresh; hide Needed; hide Range; hide BlockRange; hide NoneMapped;
      hide SameMap; hide UserDataKept; hide UserPerm; hide Outside;
      var root;
      ghost var pt, mem0 := map[], mem;
      NothingWritten(mem, Free());
      root, pt := Uvmcreate();
      if root == 0 {
        return false, true;
      }
      ghost var mem1, free1 := mem, Free();
      FitsAbove(mem, pt, 0, PgUp(sz));
      NothingRuns(mem, pt, |free|, 0, PgUp(sz));
      NeededAtMost(pt, Range(0, PgUp(sz)));
      var size;
      var remap;
      size, remap, pt := Uvmalloc(root, 0, sz, xperm, pt);
      ghost var mem2, pt2 := mem, pt;
      OutsideTwice(mem0, mem1, mem2, old(Free()));
      grown := size == sz;
      if grown {
        FreshLeaves(mem1, map[Root := root], free1, mem, pt, PgUp(sz), UserPerm(xperm), xperm);
      } else {
        StillEmpty(mem1, map[Root := root], mem, pt);
      }
      ok := Uvmfree(root, freed, pt);
      if ok { OutsideTwice(mem0, mem2, mem, old(Free())); }
    }

    static lemma FitsAbove(mem0: Memory, pt0: Shape, v0: nat, n: nat)
      requires NoneFrom(mem0, pt0, 0) && v0 + n <= MAXVPN
      ensures NoneMapped(mem0, pt0, v0, n)
    {
      hide Leaf; hide IsValid;
    }

    static lemma StillEmpty(mem0: Memory, pt0: Shape, mem1: Memory, pt1: Shape)
      requires NoneFrom(mem0, pt0, 0) && SameMap(mem0, pt0, mem1, pt1)
      ensures forall v0: nat :: NoneFrom(mem1, pt1, v0)
      ensures forall v: nat {:trigger Leaf(mem1, pt1, v)} :: v < MAXVPN ==> !IsValid(Leaf(mem1, pt1, v))
    {
      hide Leaf; hide IsValid;
      forall v: nat | v < MAXVPN ensures !IsValid(Leaf(mem1, pt1, v)) { assert !IsValid(Leaf(mem0, pt0, v)); }
    }

    static lemma FreshLeaves(mem0: Memory, pt0: Shape, free0: set<nat>, mem1: Memory, pt1: Shape, n: nat, perm: nat,
                             xperm: nat)
      requires NoneFrom(mem0, pt0, 0) && RangeFresh(mem0, pt0, free0, mem1, pt1, 0, n, perm) && 0 < n <= USERTOP
      requires perm == UserPerm(xperm) && xperm < 1024
      ensures forall v0: nat :: NoneFrom(mem1, pt1, v0) <==> n <= v0
      ensures forall v: nat {:trigger Leaf(mem1, pt1, v)} :: v < MAXVPN && IsValid(Leaf(mem1, pt1, v)) ==>
                !IsPointer(Leaf(mem1, pt1, v))
    {
      hide Leaf; hide IsPointer; hide MakePte; hide Ppn; hide IsValid;
      forall v: nat | v < MAXVPN
        ensures IsValid(Leaf(mem1, pt1, v)) <==> v < n
        ensures IsValid(Leaf(mem1, pt1, v)) ==> !IsPointer(Leaf(mem1, pt1, v))
      {
        if v < n {
          UserPermReads(Ppn(Leaf(mem1, pt1, v)), xperm);
        } else {
          assert Leaf(mem1, pt1, v) == Leaf(mem0, pt0, v);
        }
      }
      forall v0: nat ensures NoneFrom(mem1, pt1, v0) <==> n <= v0 {
        if v0 < n { assert IsValid(Leaf(mem1, pt1, n - 1)); }
      }
    }

    static lemma UserPermReads(ppn: nat, xperm: nat)
      requires xperm < 1024
      ensures IsValid(MakePte(ppn, UserPerm(xperm))) && !IsPointer(MakePte(ppn, UserPerm(xperm)))
    {
      hide UserPerm; hide FlagsAre;
      UserPermBound(xperm);
      UserPermBits(xperm);
      var z := UserPerm(xperm);
      assert BitOf(z, PTE_R) by { assert PTE_R in Bits(z); }
      assert Pow2(1) == 2;
      var pte := MakePte(ppn, z);
      assert pte / 2 == ppn * 512 + z / 2 && pte % 2 == 1;
      assert (pte / 2) % 2 == 1;
    }
  }
}
