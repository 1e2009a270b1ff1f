/** malloc, free and morecore of user/umalloc.c over the free ring of HeapModel. */
module HeapCode {

  import opened HeapModel

  /** sizeof(Header) */
  const UNIT := 16

  /** The first place in address order after which bp belongs. */
  lemma SlotExists(mem: Mem, base: nat, ring: seq<nat>, bp: nat) returns (t: nat)
    requires RingOk(mem, base, ring) && base < bp && bp !in ring
    ensures t < |ring| && ring[t] < bp && (t + 1 < |ring| ==> bp < ring[t + 1])
  {
    hide LinkAt;
    t := 0;
    while t + 1 < |ring| && ring[t + 1] < bp
      invariant t < |ring| && ring[t] < bp
    {
      t := t + 1;
    }
  }

  /** How many steps along the ring lead from index k to index f. */
  function Steps(ring: seq<nat>, k: nat, f: nat): nat
    requires k < |ring| && f < |ring|
  {
    if k <= f then f - k else f + |ring| - k
  }

  function NextIndex(ring: seq<nat>, i: nat): nat
    requires i < |ring|
  {
    if i + 1 < |ring| then i + 1 else 0
  }

  /** The state in the middle of free: all is well once p is linked to bp, except
      that p may touch bp. */
  ghost predicate Pending(mem: Mem, base: nat, ring: seq<nat>, used: map<nat, nat>, tag: map<nat, nat>, i: nat,
                          p: nat, bp: nat) {
    && p in mem && bp in mem && p < bp && i + 1 < |ring| && ring[i] == p && ring[i + 1] == bp
    && var linked := mem[p := Header(bp, mem[p].size)];
       HeapOk(linked, base, ring, used, tag) && GapsOutside(linked, ring, i, i + 1)
  }

  /** tag' gives the units of the blocks in used the same block as tag. */
  ghost predicate SameTags(tag: map<nat, nat>, tag': map<nat, nat>, used: map<nat, nat>) {
    tag'.Keys == tag.Keys && forall u :: u in tag && tag[u] in used ==> tag'[u] == tag[u]
  }

  lemma JunctionClosed(mem: Mem, base: nat, ring: seq<nat>, lo: nat, j: nat)
    requires RingOk(mem, base, ring) && GapsOutside(mem, ring, lo, j + 1) && lo <= j < |ring|
    requires j + 1 < |ring| ==> ring[j] + mem[ring[j]].size != ring[j + 1]
    ensures GapsOutside(mem, ring, lo, j)
  {
  }

  /** The header free gives bp: it takes over its upper neighbour if they touch. */
  function UpperHead(mem: Mem, p: nat, bp: nat): Header
    requires p in mem && bp in mem && mem[p].ptr in mem
  {
    var q := mem[p].ptr;
    if bp + mem[bp].size == q then Header(mem[q].ptr, mem[bp].size + mem[q].size) else Header(q, mem[bp].size)
  }

  /** After putting bp in the ring behind p, only the junctions on either side of it
      can touch; the upper one touches exactly when the code's test says so. */
  lemma JustInserted(mem: Mem, base: nat, ring: seq<nat>, used: map<nat, nat>, tag: map<nat, nat>, i: nat, bp: nat)
    requires HeapOk(mem, base, ring, used, tag) && Coalesced(mem, ring) && bp in used
    requires i < |ring| && ring[i] < bp && (i + 1 < |ring| ==> bp < ring[i + 1])
    ensures bp in mem && ring[i] in mem && mem[ring[i]].ptr in mem && i < |ring|
    ensures var mem1, ring1 := LinkedIn(mem, ring[i], bp), Inserted(ring, i, bp);
            && HeapOk(mem1, base, ring1, used - {bp}, tag) && GapsOutside(mem1, ring1, i, i + 2)
            && |ring1| == |ring| + 1 && ring1[i] == ring[i] && ring1[i + 1] == bp
            && (i + 2 < |ring1| ==> ring1[i + 2] == mem[ring[i]].ptr > bp)
            && (i + 2 == |ring1| ==> mem[ring[i]].ptr < bp)
  {
    hide Covers; hide Inside; hide Before; hide TagsOk;
    InsertKeeps(mem, base, ring, used, tag, i, bp);
    InsertGaps(mem, base, ring, i, bp);
    assert LinkAt(mem, ring, i);
  }

  lemma UpperJoined(mem: Mem, base: nat, ring: seq<nat>, used: map<nat, nat>, tag: map<nat, nat>, i: nat, bp: nat)
    returns (ring': seq<nat>, tag': map<nat, nat>)
    requires HeapOk(mem, base, ring, used, tag) && Coalesced(mem, ring) && bp in used
    requires i < |ring| && ring[i] < bp && (i + 1 < |ring| ==> bp < ring[i + 1])
    ensures ring[i] in mem && bp in mem && mem[ring[i]].ptr in mem
    ensures Pending(mem[bp := UpperHead(mem, ring[i], bp)], base, ring', used - {bp}, tag', i, ring[i], bp)
    ensures SameTags(tag, tag', used - {bp})
  {
    hide RingOk; hide TagsOk; hide Coalesced; hide Inserted; hide GapsOutside;
    var p, used' := ring[i], used - {bp};
    JustInserted(mem, base, ring, used, tag, i, bp);
    var mem1, ring1, q := LinkedIn(mem, p, bp), Inserted(ring, i, bp), mem[p].ptr;
    ring', tag' := ring1, tag;
    var mem2 := mem[bp := UpperHead(mem, p, bp)][p := Header(bp, mem[p].size)];
    if bp + mem[bp].size == q {
      assert i + 2 < |ring1| && !GapAt(mem1, ring1, i + 1);
      MergeKeeps(mem1, base, ring1, used', tag, i + 1);
      MergeGaps(mem1, base, ring1, i, i + 1);
      assert q in ring1 && mem2 == MergedInto(mem1, bp, q);
      ring', tag' := Dropped(ring1, i + 2), Retagged(tag, q, bp);
    } else {
      JunctionClosed(mem1, base, ring1, i, i + 1);
      assert mem2 == mem1;
    }
  }

  /** The header free gives p: it takes over bp if they touch. */
  function LowerHead(mem: Mem, p: nat, bp: nat): Header
    requires p in mem && bp in mem
  {
    if p + mem[p].size == bp then Header(mem[bp].ptr, mem[p].size + mem[bp].size) else Header(bp, mem[p].size)
  }

  lemma LowerJoined(mem: Mem, base: nat, ring: seq<nat>, used: map<nat, nat>, tag: map<nat, nat>, i: nat, p: nat,
                    bp: nat)
    returns (ring': seq<nat>, tag': map<nat, nat>)
    requires Pending(mem, base, ring, used, tag, i, p, bp)
    ensures var mem' := mem[p := LowerHead(mem, p, bp)];
            HeapOk(mem', base, ring', used, tag') && Coalesced(mem', ring') && p in ring' && SameTags(tag, tag', used)
            && (p + mem[p].size != bp ==> bp in ring')
  {
    hide Covers; hide Inside; hide Before; hide TagsOk; hide LinkAt;
    var linked := mem[p := Header(bp, mem[p].size)];
    ring', tag' := ring, tag;
    assert p in ring && bp in ring;
    if p + mem[p].size == bp {
      assert i > 0 && !GapAt(linked, ring, i);
      MergeKeeps(linked, base, ring, used, tag, i);
      MergeGaps(linked, base, ring, i, i);
      assert mem[p := LowerHead(mem, p, bp)] == MergedInto(linked, p, bp);
      ring', tag' := Dropped(ring, i + 1), Retagged(tag, bp, p);
      assert ring'[i] == p;
    } else {
      JunctionClosed(linked, base, ring, i, i);
    }
  }

  /** Memory after free: first bp's header is set, then p's. */
  function Joined(mem: Mem, p: nat, bp: nat): Mem
    requires p in mem && bp in mem && mem[p].ptr in mem
  {
    var mem1 := mem[bp := UpperHead(mem, p, bp)];
    mem1[p := LowerHead(mem1, p, bp)]
  }

  /** Some free block has at least n units. */
  ghost predicate HasRoom(mem: Mem, ring: seq<nat>, n: nat) {
    exists h :: h in ring && h in mem && mem[h].size >= n
  }

  lemma HeadSizes(mem: Mem, p: nat, bp: nat, ring': seq<nat>)
    requires p in mem && bp in mem && mem[p].ptr in mem && p != bp
    requires (if p + mem[p].size == bp then p else bp) in ring'
    ensures HasRoom(Joined(mem, p, bp), ring', mem[bp].size)
  {
  }

  /** free puts the block back between its neighbours, leaves no two free blocks
      adjacent, keeps every unit in exactly one block and writes to no block in use. */
  lemma FreeKeeps(mem: Mem, base: nat, ring: seq<nat>, used: map<nat, nat>, tag: map<nat, nat>, i: nat, bp: nat)
    returns (ring': seq<nat>, tag': map<nat, nat>)
    requires HeapOk(mem, base, ring, used, tag) && Coalesced(mem, ring) && bp in used
    requires i < |ring| && ring[i] < bp && (i + 1 < |ring| ==> bp < ring[i + 1])
    ensures ring[i] in mem && bp in mem && mem[ring[i]].ptr in mem && ring[i] in ring'
    ensures var mem' := Joined(mem, ring[i], bp);
            HeapOk(mem', base, ring', used - {bp}, tag') && Coalesced(mem', ring')
    ensures SameTags(tag, tag', used - {bp}) && UnitsKept(mem, Joined(mem, ring[i], bp), tag, used - {bp})
    ensures HasRoom(Joined(mem, ring[i], bp), ring', used[bp])
  {
    var p := ring[i];
    hide HeapOk; hide Coalesced; hide Pending; hide UpperHead; hide LowerHead; hide HasRoom; hide SameTags;
    hide UnitsKept;
    Untouched(mem, base, ring, used, tag, i, bp);
    var ring1, tag1 := UpperJoined(mem, base, ring, used, tag, i, bp);
    var mem1 := mem[bp := UpperHead(mem, p, bp)];
    ring', tag' := LowerJoined(mem1, base, ring1, used - {bp}, tag1, i, p, bp);
    HeadSizes(mem, p, bp, ring');
    SameTagsTwice(tag, tag1, tag', used - {bp});
  }

  lemma SameTagsTwice(tag: map<nat, nat>, tag1: map<nat, nat>, tag2: map<nat, nat>, used: map<nat, nat>)
    requires SameTags(tag, tag1, used) && SameTags(tag1, tag2, used)
    ensures SameTags(tag, tag2, used)
  {
  }

  ghost predicate UnitsKept(mem: Mem, mem': Mem, tag: map<nat, nat>, used: map<nat, nat>) {
    forall u :: u in tag && tag[u] in used ==> u in mem && u in mem' && mem'[u] == mem[u]
  }

  /** Neither a free header nor bp lies in another allocated block. */
  lemma Untouched(mem: Mem, base: nat, ring: seq<nat>, used: map<nat, nat>, tag: map<nat, nat>, i: nat, bp: nat)
    requires HeapOk(mem, base, ring, used, tag) && bp in used && i < |ring|
    ensures bp in mem && mem[bp].size == used[bp] && ring[i] in mem && mem[ring[i]].ptr in mem
    ensures UnitsKept(mem, Joined(mem, ring[i], bp), tag, used - {bp})
  {
    hide UpperHead; hide LowerHead;
    assert LinkAt(mem, ring, i);
    assert bp in used && Covers(mem, tag, bp);
    assert ring[i] != base ==> ring[i] in FreeBlocks(base, ring) && Covers(mem, tag, ring[i]);
  }

  ghost predicate CarvedOk(mem: Mem, mem': Mem, base: nat, ring': seq<nat>, used: map<nat, nat>, r: nat, n: nat,
                           tag: map<nat, nat>, tag': map<nat, nat>) {
    && r > 0 && r !in used && mem'.Keys == mem.Keys
    && HeapOk(mem', base, ring', used[r := n], tag') && Coalesced(mem', ring')
    && SameTags(tag, tag', used) && UnitsKept(mem, mem', tag, used)
  }

  lemma CarvedKeeps(mem: Mem, mem': Mem, tag: map<nat, nat>, tag': map<nat, nat>, used: map<nat, nat>)
    requires SameTags(tag, tag', used) && UnitsKept(mem, mem', tag, used)
    ensures tag'.Keys == tag.Keys && SameUnits(mem, tag, mem', tag', used.Keys)
  {
  }

  /** Handing out a whole block. */
  lemma TakeWhole(mem: Mem, base: nat, ring: seq<nat>, used: map<nat, nat>, tag: map<nat, nat>, i: nat)
    requires HeapOk(mem, base, ring, used, tag) && Coalesced(mem, ring) && 0 < i < |ring|
    ensures ring[i] in mem && ring[i - 1] in mem && base <= ring[i - 1] && ring[i - 1] in Dropped(ring, i)
    ensures CarvedOk(mem, Unlinked(mem, ring[i - 1], ring[i]), base, Dropped(ring, i), used, ring[i],
              mem[ring[i]].size, tag, tag)
  {
    hide RingOk; hide TagsOk; hide Coalesced;
    assert Dropped(ring, i)[i - 1] == ring[i - 1];
    CarveUntouched(mem, base, ring, used, tag, i);
    TakeKeeps(mem, base, ring, used, tag, i);
    TakeGaps(mem, base, ring, i);
  }

  /** Handing out the last n units of a block. */
  lemma CutTail(mem: Mem, base: nat, ring: seq<nat>, used: map<nat, nat>, tag: map<nat, nat>, i: nat, n: nat)
    requires HeapOk(mem, base, ring, used, tag) && Coalesced(mem, ring) && 0 < i < |ring|
    requires ring[i] in mem && mem[ring[i]].size > n > 0
    ensures ring[i - 1] in mem && base <= ring[i - 1]
    ensures var q := ring[i] + mem[ring[i]].size - n;
            q in mem && CarvedOk(mem, Cut(mem, ring[i], n), base, ring, used, q, n, tag, TailTagged(tag, q, n))
  {
    hide RingOk; hide TagsOk; hide Coalesced;
    CarveUntouched(mem, base, ring, used, tag, i);
    CutKeeps(mem, base, ring, used, tag, i, n);
    CutGaps(mem, base, ring, i, n);
  }

  /** No unit of an allocated block lies in the free block at i or is a free header. */
  lemma CarveUntouched(mem: Mem, base: nat, ring: seq<nat>, used: map<nat, nat>, tag: map<nat, nat>, i: nat)
    requires HeapOk(mem, base, ring, used, tag) && 0 < i < |ring|
    ensures ring[i - 1] in mem && ring[i] in mem && base <= ring[i - 1] && base < ring[i]
    ensures forall u :: u in tag && tag[u] in used ==>
              u in mem && u != ring[i - 1]
              && !(ring[i] <= u < ring[i] + mem[ring[i]].size)
  {
  }

  /** Two blocks, free or allocated, never overlap, and every unit from sbrk lies in one. */
  lemma BlocksPartition(mem: Mem, base: nat, ring: seq<nat>, used: map<nat, nat>, tag: map<nat, nat>, g: nat,
                        h: nat, u: nat)
    requires HeapOk(mem, base, ring, used, tag)
    ensures var blocks := FreeBlocks(base, ring) + used.Keys;
            && (g in blocks && h in blocks && g < h ==> g in mem && g + mem[g].size <= h)
            && (u in tag ==> exists b :: b in blocks && b in mem && b <= u < b + mem[b].size)
  {
  }

  /** Units that a request of nbytes takes, with its header. */
  function BlockUnits(nbytes: nat): nat { (nbytes + UNIT - 1) / UNIT + 1 }

  /** morecore never asks for less than 4096 units. */
  function CoreUnits(nu: nat): (r: nat)
    ensures r >= 4096 && r >= nu && (r == 4096 || r == nu)
  {
    if nu < 4096 then 4096 else nu
  }

  lemma ExtendGaps(mem: Mem, ring: seq<nat>, mem': Mem)
    requires Coalesced(mem, ring) && forall u :: u in mem ==> u in mem' && mem'[u] == mem[u]
    ensures Coalesced(mem', ring)
  {
    forall k | 0 <= k && k + 1 < |ring| ensures GapAt(mem', ring, k) { assert GapAt(mem, ring, k); }
  }

  /** Extending memory changes nothing that was there. */
  lemma ExtendFacts(mem: Mem, tag: map<nat, nat>, hp: nat, nu: nat, junk: Header)
    requires nu > 0 && (forall u :: u in mem ==> u < hp) && tag.Keys <= mem.Keys
    ensures var mem', tag' := Extended(mem, hp, nu, junk), AllTagged(tag, hp, nu);
            && mem'.Keys == mem.Keys + Units(hp, nu) && (forall u :: u in mem ==> mem'[u] == mem[u])
            && tag'.Keys == tag.Keys + Units(hp, nu) && (forall u :: u in tag ==> tag'[u] == tag[u])
  {
  }

  /** Every unit of a block in blocks keeps its contents and its block. */
  ghost predicate SameUnits(m: Mem, t: map<nat, nat>, m': Mem, t': map<nat, nat>, blocks: set<nat>) {
    forall u :: u in t && t[u] in blocks ==> u in m && u in m' && m'[u] == m[u] && u in t' && t'[u] == t[u]
  }

  lemma SameUnitsTwice(m0: Mem, t0: map<nat, nat>, m1: Mem, t1: map<nat, nat>, m2: Mem, t2: map<nat, nat>,
                       blocks: set<nat>)
    requires SameUnits(m0, t0, m1, t1, blocks) && SameUnits(m1, t1, m2, t2, blocks)
    ensures SameUnits(m0, t0, m2, t2, blocks)
  {
  }

  class Heap {

    const base: nat
    var mem: Mem
    var freep: nat
    /** The free blocks in address order. */
    ghost var ring: seq<nat>
    /** The size of each block handed out by malloc, by header. */
    ghost var used: map<nat, nat>
    /** The block each unit from sbrk belongs to. */
    ghost var tag: map<nat, nat>

    ghost predicate Valid()
      reads this
    {
      && base > 0 && mem.Keys == tag.Keys + {base} && base !in tag
      && if freep == 0 then ring == [] && used == map[] && tag == map[]
         else HeapOk(mem, base, ring, used, tag) && Coalesced(mem, ring) && freep in ring
    }

    ghost predicate Kept(m: Mem, t: map<nat, nat>, blocks: set<nat>)
      reads this
    {
      SameUnits(m, t, mem, tag, blocks)
    }

    /** What sbrk returned: nothing, or the start of memory above all there was. */
    ghost predicate Granted(at: nat)
      reads this
    {
      at == 0 || forall u :: u in mem ==> u < at
    }

    constructor (at: nat)
      requires at > 0
      ensures Valid() && freep == 0 && used == map[] && tag == map[] && base == at
    {
      base := at;
      mem := map[at := Header(0, 0)];
      freep := 0;
      ring := [];
      used := map[];
      tag := map[];
    }

    /** Finds the free block after which bp belongs; the search started at freep ends. */
    method FindSlot(bp: nat) returns (p: nat, ghost i: nat)
      requires Valid() && freep != 0 && bp in used
      ensures i < |ring| && 0 < p == ring[i] < bp && (i + 1 < |ring| ==> bp < ring[i + 1])
    {
      hide Covers; hide Inside; hide TagsOk; hide Coalesced;
      ghost var t := SlotExists(mem, base, ring, bp);
      p := freep;
      i :| 0 <= i < |ring| && ring[i] == p;
      while !(bp > p && bp < mem[p].ptr)
        invariant i < |ring| && ring[i] == p
        decreases Steps(ring, i, t)
      {
        assert LinkAt(mem, ring, i);
        assert Before(mem, ring[0], ring[i]) || i == 0;
        if p >= mem[p].ptr && (bp > p || bp < mem[p].ptr) { break; }
        p := mem[p].ptr;
        i := NextIndex(ring, i);
      }
      assert LinkAt(mem, ring, i);
    }

    /** free() of the block whose header is bp. */
    method Free(bp: nat)
      requires Valid() && bp in used
      modifies this
      ensures Valid() && freep != 0
      ensures used == old(used) - {bp} && tag.Keys == old(tag.Keys)
      ensures Kept(old(mem), old(tag), used.Keys) && HasRoom(mem, ring, old(used)[bp])
    {
      hide HeapOk; hide Coalesced; hide UpperHead; hide LowerHead; hide HasRoom;
      var p, i := FindSlot(bp);
      ghost var ring', tag' := FreeKeeps(mem, base, ring, used, tag, i, bp);
      mem := mem[bp := UpperHead(mem, p, bp)];
      mem := mem[p := LowerHead(mem, p, bp)];
      freep, ring, tag, used := p, ring', tag', used - {bp};
    }

    /** The memory sbrk returned becomes one allocated block. */
    method Sbrk(nu: nat, grant: nat)
      requires Valid() && freep != 0 && Granted(grant) && grant != 0 && nu > 0
      modifies this`mem, this`tag, this`used
      ensures Valid() && grant !in old(used) && used == old(used)[grant := nu]
      ensures tag.Keys == old(tag.Keys) + Units(grant, nu) && Kept(old(mem), old(tag), old(used.Keys))
    {
      hide HeapOk; hide Coalesced; hide Units; hide Extended; hide AllTagged;
      ExtendFacts(mem, tag, grant, nu, Header(0, 0));
      ExtendKeeps(mem, base, ring, used, tag, grant, nu, Header(0, 0));
      ExtendGaps(mem, ring, Extended(mem, grant, nu, Header(0, 0)));
      mem := Extended(mem, grant, nu, Header(0, 0));
      tag := AllTagged(tag, grant, nu);
      used := used[grant := nu];
    }

    /** morecore(): asks sbrk for at least nu units and frees them. */
    method Morecore(nu: nat, grant: nat) returns (p: nat)
      requires Valid() && freep != 0 && Granted(grant)
      modifies this
      ensures Valid() && p == (if grant == 0 then 0 else freep) && freep != 0
      ensures used == old(used) && Kept(old(mem), old(tag), used.Keys)
      ensures grant == 0 ==> mem == old(mem) && ring == old(ring) && tag == old(tag) && freep == old(freep)
      ensures grant != 0 ==> tag.Keys == old(tag.Keys) + Units(grant, CoreUnits(nu)) && HasRoom(mem, ring, nu)
    {
      hide HeapOk; hide Units; hide Coalesced;
      if grant == 0 {
        TaggedPresent();
        return 0;
      }
      Sbrk(CoreUnits(nu), grant);
      Free(grant);
      assert used == old(used);
      p := freep;
    }

    lemma TaggedPresent()
      requires Valid()
      ensures Kept(mem, tag, used.Keys)
    {
    }

    /** The block at index i is handed out whole, or its last n units are. */
    method Carve(prevp: nat, p: nat, n: nat, ghost i: nat) returns (r: nat)
      requires Valid() && freep != 0 && 0 < i < |ring| && p == ring[i] && prevp == ring[i - 1]
      requires p in mem && mem[p].size >= n > 0
      modifies this
      ensures Valid() && freep == prevp != 0 && r > 0 && r !in old(used) && used == old(used)[r := n]
      ensures tag.Keys == old(tag.Keys) && Kept(old(mem), old(tag), old(used.Keys))
    {
      if mem[p].size == n {
        r := HandOut(prevp, p, i);
      } else {
        r := CutOff(prevp, p, n, i);
      }
    }

    /** The whole block p is unlinked. */
    method HandOut(prevp: nat, p: nat, ghost i: nat) returns (r: nat)
      requires Valid() && freep != 0 && 0 < i < |ring| && p == ring[i] && prevp == ring[i - 1]
      requires p in mem && mem[p].size > 0
      modifies this
      ensures Valid() && freep == prevp != 0 && r > 0 && r !in old(used) && used == old(used)[r := old(mem)[p].size]
      ensures tag.Keys == old(tag.Keys) && Kept(old(mem), old(tag), old(used.Keys))
    {
      hide HeapOk; hide Coalesced; hide Dropped; hide SameUnits; hide SameTags; hide UnitsKept;
      TakeWhole(mem, base, ring, used, tag, i);
      ghost var n := mem[p].size;
      mem := mem[prevp := Header(mem[p].ptr, mem[prevp].size)];
      ring := Dropped(ring, i);
      r := p;
      CarvedKeeps(old(mem), mem, tag, tag, used);
      used := used[r := n];
      freep := prevp;
    }

    /** The last n units of block p become a block of their own. */
    method CutOff(prevp: nat, p: nat, n: nat, ghost i: nat) returns (r: nat)
      requires Valid() && freep != 0 && 0 < i < |ring| && p == ring[i] && prevp == ring[i - 1]
      requires p in mem && mem[p].size > n > 0
      modifies this
      ensures Valid() && freep == prevp != 0 && r > 0 && r !in old(used) && used == old(used)[r := n]
      ensures tag.Keys == old(tag.Keys) && Kept(old(mem), old(tag), old(used.Keys))
    {
      hide HeapOk; hide Coalesced; hide TailTagged; hide SameUnits; hide SameTags; hide UnitsKept;
      CutTail(mem, base, ring, used, tag, i, n);
      mem := mem[p := Header(mem[p].ptr, mem[p].size - n)];
      r := p + mem[p].size;
      mem := mem[r := Header(mem[r].ptr, n)];
      assert mem == Cut(old(mem), p, n);
      tag := TailTagged(tag, r, n);
      CarvedKeeps(old(mem), mem, old(tag), tag, used);
      used := used[r := n];
      freep := prevp;
    }

    /** A block of n units lies between index k and index f along the ring. */
    ghost predicate RoomAhead(n: nat, k: nat, f: nat)
      reads this
    {
      && k < |ring| && f < |ring|
      && exists b :: 0 <= b < |ring| && SizeAt(b) >= n && Steps(ring, k, b) <= Steps(ring, k, f)
    }

    ghost function SizeAt(b: nat): nat
      reads this
    {
      if b < |ring| && ring[b] in mem then mem[ring[b]].size else 0
    }

    lemma RoomIsAhead(n: nat, f: nat)
      requires f < |ring|
      ensures HasRoom(mem, ring, n) ==> RoomAhead(n, NextIndex(ring, f), f)
    {
      if HasRoom(mem, ring, n) {
        var h :| h in ring && h in mem && mem[h].size >= n;
        var b :| 0 <= b < |ring| && ring[b] == h;
        assert SizeAt(b) >= n;
      }
    }

    lemma RoomBeyond(n: nat, k: nat, f: nat)
      requires RoomAhead(n, k, f) && SizeAt(k) < n
      ensures k != f && RoomAhead(n, NextIndex(ring, k), f)
    {
    }

    /** The first malloc makes base a ring of one empty block. */
    method InitBase(ghost grant: nat)
      requires Valid() && Granted(grant)
      modifies this
      ensures Valid() && freep != 0 && used == old(used) && tag == old(tag)
      ensures Kept(old(mem), old(tag), used.Keys) && Granted(grant)
      ensures forall n :: n > 0 ==> (HasRoom(mem, ring, n) <==> HasRoom(old(mem), old(ring), n))
    {
      if freep == 0 {
        mem := mem[base := Header(base, 0)];
        freep := base;
        ring := [base];
      }
    }

    lemma FreepIndex() returns (i: nat)
      requires Valid() && freep != 0
      ensures i < |ring| && ring[i] == freep
    {
      i :| 0 <= i < |ring| && ring[i] == freep;
    }

    lemma RingFacts(i: nat)
      requires Valid() && freep != 0 && i < |ring|
      ensures ring[i] in mem && mem[ring[i]].ptr == ring[NextIndex(ring, i)] && (i == 0 ==> mem[ring[i]].size == 0)
    {
      assert LinkAt(mem, ring, i);
    }

    /** malloc(): the address after the header of a block of enough units, or 0. */
    method Malloc(nbytes: nat, grant: nat) returns (r: nat)
      requires Valid() && Granted(grant)
      modifies this
      ensures Valid()
      ensures r == 0 <==> grant == 0 && !HasRoom(old(mem), old(ring), BlockUnits(nbytes))
      ensures r == 0 ==> used == old(used)
      ensures r != 0 ==> r - 1 !in old(used) && used == old(used)[r - 1 := BlockUnits(nbytes)]
      ensures r != 0 ==> Fits(r, nbytes)
      ensures tag.Keys == old(tag.Keys) +
                (if r == 0 || HasRoom(old(mem), old(ring), BlockUnits(nbytes)) then {}
                    else Units(grant, CoreUnits(BlockUnits(nbytes))))
      ensures Kept(old(mem), old(tag), old(used.Keys))
    {
      hide Valid; hide Granted; hide HasRoom; hide Units; hide RoomAhead; hide SameUnits; hide Fits;
      var n := (nbytes + UNIT - 1) / UNIT + 1;
      InitBase(grant);
      var prevp := freep;
      ghost var i: nat := FreepIndex();
      ghost var f: nat, asked := i, false;
      RingFacts(i);
      RoomIsAhead(n, f);
      var p := mem[prevp].ptr;
      while true
        invariant Valid() && freep != 0 && used == old(used) && Kept(old(mem), old(tag), used.Keys)
        invariant i < |ring| && f < |ring| && ring[i] == prevp && ring[f] == freep && p == ring[NextIndex(ring, i)]
        invariant HasRoom(mem, ring, n) ==> RoomAhead(n, NextIndex(ring, i), f)
        invariant if asked then grant != 0 && HasRoom(mem, ring, n) && !HasRoom(old(mem), old(ring), n)
                  else Granted(grant) && (HasRoom(mem, ring, n) <==> HasRoom(old(mem), old(ring), n))
        invariant tag.Keys == old(tag.Keys) + (if asked then Units(grant, CoreUnits(n)) else {})
        decreases !asked, Steps(ring, NextIndex(ring, i), f)
      {
        ghost var k := NextIndex(ring, i);
        RingFacts(k);
        ghost var mem1, tag1 := mem, tag;
        if mem[p].size >= n {
          NoRoomLess(n, k);
          r := Carve(prevp, p, n, k);
          SameUnitsTwice(old(mem), old(tag), mem1, tag1, mem, tag, old(used).Keys);
          r := r + 1;
          BlockFits(r, nbytes);
          return;
        }
        if HasRoom(mem, ring, n) { RoomBeyond(n, k, f); }
        i := k;
        if p == freep {
          OneIndex(k, f);
          assert !asked;
          p := Morecore(n, grant);
          SameUnitsTwice(old(mem), old(tag), mem1, tag1, mem, tag, used.Keys);
          if p == 0 { return 0; }
          asked := true;
          i := FreepIndex();
          f := i;
          RoomIsAhead(n, f);
          RingFacts(i);
        }
        prevp := p;
        p := mem[p].ptr;
      }
    }

    /** The nbytes from unit r on lie in the block before which r is, its header holds its size,
        and no smaller block would do. */
    ghost predicate Fits(r: nat, nbytes: nat)
      reads this
    {
      && r > 0 && r - 1 in used && r - 1 in mem && mem[r - 1].size == used[r - 1]
      && (used[r - 1] - 2) * UNIT < nbytes <= (used[r - 1] - 1) * UNIT
      && forall u :: r <= u < r - 1 + used[r - 1] ==> u in mem && u in tag && tag[u] == r - 1
    }

    lemma BlockFits(r: nat, nbytes: nat)
      requires Valid() && freep != 0 && r > 0 && r - 1 in used && used[r - 1] == BlockUnits(nbytes)
      ensures Fits(r, nbytes)
    {
    }

    lemma OneIndex(k: nat, f: nat)
      requires Valid() && freep != 0 && k < |ring| && f < |ring| && ring[k] == ring[f]
      ensures k == f
    {
    }

    lemma NoRoomLess(n: nat, k: nat)
      requires k < |ring| && ring[k] in mem && mem[ring[k]].size >= n
      ensures HasRoom(mem, ring, n)
    {
    }
  }
}
