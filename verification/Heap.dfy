/** The allocator of user/umalloc.c (section 8.7 of Kernighan and Ritchie, 2nd
    edition): a circular free list in address order, coalescing on free.

    Addresses count header-sized units.  `base` is the static header, which
    lies below everything sbrk returns. */
module HeapModel {

  datatype Header = Header(ptr: nat, size: nat)

  type Mem = map<nat, Header>

  // ---- the free ring ----------------------------------------------------------

  function Next(ring: seq<nat>, i: nat): nat
    requires i < |ring|
  {
    if i + 1 < |ring| then ring[i + 1] else ring[0]
  }

  predicate GapAt(mem: Mem, ring: seq<nat>, i: nat)
    requires i + 1 < |ring| && ring[i] in mem
  {
    ring[i] + mem[ring[i]].size < ring[i + 1]
  }

  ghost predicate LinkAt(mem: Mem, ring: seq<nat>, i: nat)
    requires i < |ring| && ring[i] in mem
  {
    mem[ring[i]].ptr == Next(ring, i)
  }

  ghost predicate Before(mem: Mem, a: nat, b: nat) {
    a in mem && a + mem[a].size <= b && a < b
  }

  /** The ring in address order from base, with one wrap; blocks do not overlap. */
  ghost predicate RingOk(mem: Mem, base: nat, ring: seq<nat>) {
    && |ring| > 0 && ring[0] == base
    && (forall i :: 0 <= i < |ring| ==> ring[i] in mem)
    && mem[base].size == 0 && (forall i :: 0 < i < |ring| ==> mem[ring[i]].size > 0)
    && (forall i, j :: 0 <= i < j < |ring| ==> Before(mem, ring[i], ring[j]))
    && (forall i :: 0 <= i < |ring| ==> LinkAt(mem, ring, i))
  }

  /** Only the junctions lo..hi may join adjacent blocks. */
  ghost predicate GapsOutside(mem: Mem, ring: seq<nat>, lo: nat, hi: nat) {
    && (forall k :: 0 <= k < |ring| ==> ring[k] in mem)
    && (forall k :: 0 <= k && k + 1 < |ring| && !(lo <= k < hi) ==> GapAt(mem, ring, k))
  }

  /** No two free blocks are adjacent. */
  ghost predicate Coalesced(mem: Mem, ring: seq<nat>) {
    GapsOutside(mem, ring, 0, 0)
  }

  // ---- every unit belongs to one block ------------------------------------------

  /** The free blocks, without the base header. */
  ghost function FreeBlocks(base: nat, ring: seq<nat>): set<nat> {
    set h | h in ring && h != base
  }

  /** Block h is not empty and every unit of it is tagged with h. */
  ghost predicate Covers(mem: Mem, tag: map<nat, nat>, h: nat) {
    h in mem && mem[h].size > 0 && forall u :: h <= u < h + mem[h].size ==> u in tag && tag[u] == h
  }

  /** The header that u is tagged with is that of a block containing u. */
  ghost predicate Inside(mem: Mem, blocks: set<nat>, tag: map<nat, nat>, u: nat)
    requires u in tag
  {
    tag[u] in blocks && tag[u] in mem && tag[u] <= u < tag[u] + mem[tag[u]].size
  }

  /** tag maps each unit obtained from sbrk to the header of its block. */
  ghost predicate TagsOk(mem: Mem, base: nat, blocks: set<nat>, tag: map<nat, nat>) {
    && (forall u :: u in tag ==> u > base && u in mem && Inside(mem, blocks, tag, u))
    && (forall h :: h in blocks ==> h > base && Covers(mem, tag, h))
  }

  /** Allocated blocks have the recorded size and are not in the ring. */
  ghost predicate UsedOk(mem: Mem, base: nat, ring: seq<nat>, used: map<nat, nat>) {
    forall h :: h in used ==> h in mem && h !in ring && h > base && mem[h].size == used[h] > 0
  }

  /** The free blocks in the ring and the allocated blocks in used together
      account for every unit, each unit in exactly one block. */
  ghost predicate HeapOk(mem: Mem, base: nat, ring: seq<nat>, used: map<nat, nat>, tag: map<nat, nat>) {
    && RingOk(mem, base, ring) && UsedOk(mem, base, ring, used)
    && TagsOk(mem, base, FreeBlocks(base, ring) + used.Keys, tag)
  }

  // ---- inserting a freed block ----------------------------------------------------

  function Inserted(ring: seq<nat>, i: nat, bp: nat): seq<nat>
    requires i < |ring|
  {
    ring[..i + 1] + [bp] + ring[i + 1..]
  }

  /** p->ptr = bp; bp->ptr = old p->ptr */
  function LinkedIn(mem: Mem, p: nat, bp: nat): Mem
    requires p in mem && bp in mem
  {
    mem[bp := Header(mem[p].ptr, mem[bp].size)][p := Header(bp, mem[p].size)]
  }

  /** A block in use lies wholly between its free neighbours. */
  lemma BeforeAndAfter(mem: Mem, base: nat, ring: seq<nat>, used: map<nat, nat>, tag: map<nat, nat>, i: nat, bp: nat)
    requires HeapOk(mem, base, ring, used, tag) && bp in used && i < |ring|
    requires ring[i] < bp && (i + 1 < |ring| ==> bp < ring[i + 1])
    ensures Between(mem, ring, i, bp)
  {
    hide LinkAt;
    var blocks := FreeBlocks(base, ring) + used.Keys;
    assert bp in blocks && Covers(mem, tag, bp);
    assert bp in tag && tag[bp] == bp;
    forall k | 0 <= k <= i ensures Before(mem, ring[k], bp) {
      assert k < i ==> Before(mem, ring[k], ring[i]);
      assert k > 0 ==> Before(mem, ring[0], ring[k]) && ring[k] in blocks && Covers(mem, tag, ring[k]);
    }
    forall k | i < k < |ring| ensures Before(mem, bp, ring[k]) {
      assert Before(mem, ring[0], ring[k]) && ring[k] in blocks && Covers(mem, tag, ring[k]);
      assert i + 1 < k ==> Before(mem, ring[i + 1], ring[k]);
      assert ring[k] in tag && tag[ring[k]] == ring[k];
    }
  }

  ghost predicate Between(mem: Mem, ring: seq<nat>, i: nat, bp: nat) {
    && bp in mem && (forall k :: 0 <= k < |ring| ==> ring[k] in mem)
    && (forall k :: 0 <= k <= i && k < |ring| ==> Before(mem, ring[k], bp))
    && (forall k :: i < k < |ring| ==> Before(mem, bp, ring[k]))
  }

  lemma InsertedMembers(ring: seq<nat>, i: nat, bp: nat)
    requires i < |ring|
    ensures forall h :: h in Inserted(ring, i, bp) <==> h in ring || h == bp
  {
  }

  lemma InsertLink(mem: Mem, base: nat, ring: seq<nat>, i: nat, bp: nat, k: nat)
    requires RingOk(mem, base, ring) && i < |ring| && Between(mem, ring, i, bp) && k < |ring| + 1
    ensures var mem', ring' := LinkedIn(mem, ring[i], bp), Inserted(ring, i, bp);
            ring'[k] in mem' && LinkAt(mem', ring', k)
  {
    var mem', ring' := LinkedIn(mem, ring[i], bp), Inserted(ring, i, bp);
    assert ring'[k] == if k <= i then ring[k] else if k == i + 1 then bp else ring[k - 1];
    assert LinkAt(mem, ring, if k <= i then k else if k == i + 1 then i else k - 1);
    assert k < i ==> Before(mem, ring[k], ring[i]);
    assert i + 1 < k ==> Before(mem, ring[i], ring[k - 1]);
    assert k + 1 < |ring'| ==> ring'[k + 1] == if k < i then ring[k + 1] else if k == i then bp else ring[k];
  }

  lemma InsertRing(mem: Mem, base: nat, ring: seq<nat>, i: nat, bp: nat)
    requires RingOk(mem, base, ring) && i < |ring| && Between(mem, ring, i, bp) && mem[bp].size > 0
    ensures RingOk(LinkedIn(mem, ring[i], bp), base, Inserted(ring, i, bp))
  {
    hide LinkAt; hide Before;
    var mem', ring' := LinkedIn(mem, ring[i], bp), Inserted(ring, i, bp);
    InsertOrder(mem, mem', ring, i, bp);
    forall k | 0 <= k < |ring'| ensures LinkAt(mem', ring', k) { InsertLink(mem, base, ring, i, bp, k); }
    assert forall k :: 0 <= k < |ring'| ==> ring'[k] == if k <= i then ring[k] else if k == i + 1 then bp
        else ring[k - 1];
  }

  lemma InsertOrder(mem: Mem, mem': Mem, ring: seq<nat>, i: nat, bp: nat)
    requires i < |ring| && Between(mem, ring, i, bp) && mem'.Keys == mem.Keys && forall h :: h in mem ==>
               mem'[h].size == mem[h].size
    requires forall j, k :: 0 <= j < k < |ring| ==> Before(mem, ring[j], ring[k])
    ensures var ring' := Inserted(ring, i, bp); forall j, k :: 0 <= j < k < |ring'| ==> Before(mem', ring'[j], ring'[k])
  {
  }

  /** Tags only see sizes and which blocks there are. */
  lemma TagsFrame(mem: Mem, mem': Mem, base: nat, blocks: set<nat>, tag: map<nat, nat>)
    requires TagsOk(mem, base, blocks, tag) && mem'.Keys == mem.Keys && forall h :: h in blocks && h in mem ==>
               mem'[h].size == mem[h].size
    ensures TagsOk(mem', base, blocks, tag)
  {
  }

  lemma InsertKeeps(mem: Mem, base: nat, ring: seq<nat>, used: map<nat, nat>, tag: map<nat, nat>, i: nat, bp: nat)
    requires HeapOk(mem, base, ring, used, tag) && bp in used && i < |ring|
    requires ring[i] < bp && (i + 1 < |ring| ==> bp < ring[i + 1])
    ensures HeapOk(LinkedIn(mem, ring[i], bp), base, Inserted(ring, i, bp), used - {bp}, tag)
    ensures Between(mem, ring, i, bp)
  {
    hide LinkAt; hide Covers; hide Inside;
    var mem', ring', used' := LinkedIn(mem, ring[i], bp), Inserted(ring, i, bp), used - {bp};
    BeforeAndAfter(mem, base, ring, used, tag, i, bp);
    InsertRing(mem, base, ring, i, bp);
    InsertedMembers(ring, i, bp);
    hide RingOk; hide Inserted;
    assert FreeBlocks(base, ring') + used'.Keys == FreeBlocks(base, ring) + used.Keys;
    TagsFrame(mem, mem', base, FreeBlocks(base, ring) + used.Keys, tag);
  }

  // ---- merging two adjacent free blocks ------------------------------------------------

  function Dropped(ring: seq<nat>, j: nat): seq<nat>
    requires j < |ring|
  {
    ring[..j] + ring[j + 1..]
  }

  /** p->size += q->size; p->ptr = q->ptr */
  function MergedInto(mem: Mem, p: nat, q: nat): Mem
    requires p in mem && q in mem
  {
    mem[p := Header(mem[q].ptr, mem[p].size + mem[q].size)]
  }

  /** The units of block q now belong to block p. */
  ghost function Retagged(tag: map<nat, nat>, q: nat, p: nat): map<nat, nat> {
    map u | u in tag :: if tag[u] == q then p else tag[u]
  }

  lemma MergeRing(mem: Mem, base: nat, ring: seq<nat>, j: nat)
    requires RingOk(mem, base, ring) && 0 < j && j + 1 < |ring| && !GapAt(mem, ring, j)
    ensures RingOk(MergedInto(mem, ring[j], ring[j + 1]), base, Dropped(ring, j + 1))
  {
    var p, q := ring[j], ring[j + 1];
    var mem', ring' := MergedInto(mem, p, q), Dropped(ring, j + 1);
    forall k | 0 <= k < |ring'| ensures ring'[k] == if k <= j then ring[k] else ring[k + 1] { }
    assert p + mem[p].size == q;
    forall k | 0 <= k < |ring'| ensures LinkAt(mem', ring', k) {
      assert LinkAt(mem, ring, j + 1);
      assert k < j ==> LinkAt(mem, ring, k);
      assert k > j ==> LinkAt(mem, ring, k + 1);
    }
    hide LinkAt;
    MergeOrder(mem, base, ring, j);
  }

  lemma MergeOrder(mem: Mem, base: nat, ring: seq<nat>, j: nat)
    requires RingOk(mem, base, ring) && 0 < j && j + 1 < |ring| && !GapAt(mem, ring, j)
    ensures var ring', mem' := Dropped(ring, j + 1), MergedInto(mem, ring[j], ring[j + 1]);
            forall i, k :: 0 <= i < k < |ring'| ==> Before(mem', ring'[i], ring'[k])
  {
  }

  lemma DroppedMembers(mem: Mem, base: nat, ring: seq<nat>, j: nat)
    requires RingOk(mem, base, ring) && j < |ring|
    ensures forall h :: h in Dropped(ring, j) <==> h in ring && h != ring[j]
  {
  }

  lemma MergeCovers(mem: Mem, tag: map<nat, nat>, p: nat, q: nat, h: nat)
    requires Covers(mem, tag, p) && Covers(mem, tag, q) && Covers(mem, tag, h) && p + mem[p].size == q && h != q
    ensures Covers(MergedInto(mem, p, q), Retagged(tag, q, p), h)
  {
  }

  lemma MergeTags(mem: Mem, base: nat, blocks: set<nat>, tag: map<nat, nat>, p: nat, q: nat)
    requires TagsOk(mem, base, blocks, tag) && p in blocks && q in blocks && p in mem && q in mem
    requires p + mem[p].size == q && mem[p].size > 0
    ensures TagsOk(MergedInto(mem, p, q), base, blocks - {q}, Retagged(tag, q, p))
  {
    hide Covers;
    var mem', tag' := MergedInto(mem, p, q), Retagged(tag, q, p);
    forall h | h in blocks - {q} ensures Covers(mem', tag', h) { MergeCovers(mem, tag, p, q, h); }
    forall u | u in tag' ensures Inside(mem', blocks - {q}, tag', u) { assert Inside(mem, blocks, tag, u); }
  }

  lemma MergeKeeps(mem: Mem, base: nat, ring: seq<nat>, used: map<nat, nat>, tag: map<nat, nat>, j: nat)
    requires HeapOk(mem, base, ring, used, tag) && 0 < j && j + 1 < |ring| && !GapAt(mem, ring, j)
    ensures HeapOk(MergedInto(mem, ring[j], ring[j + 1]), base, Dropped(ring, j + 1), used, Retagged(tag,
              ring[j + 1], ring[j]))
  {
    hide LinkAt; hide Covers; hide Inside;
    var p, q, ring' := ring[j], ring[j + 1], Dropped(ring, j + 1);
    assert Before(mem, ring[0], p) && Before(mem, ring[0], q) && Before(mem, p, q);
    MergeRing(mem, base, ring, j);
    DroppedMembers(mem, base, ring, j + 1);
    hide Dropped; hide RingOk;
    MergeTags(mem, base, FreeBlocks(base, ring) + used.Keys, tag, p, q);
    assert FreeBlocks(base, ring') + used.Keys == FreeBlocks(base, ring) + used.Keys - {q};
  }

  // ---- taking blocks from the ring ----------------------------------------------------

  /** prevp->ptr = p->ptr */
  function Unlinked(mem: Mem, prev: nat, p: nat): Mem
    requires prev in mem && p in mem
  {
    mem[prev := Header(mem[p].ptr, mem[prev].size)]
  }

  lemma TakeRing(mem: Mem, base: nat, ring: seq<nat>, i: nat)
    requires RingOk(mem, base, ring) && 0 < i < |ring|
    ensures RingOk(Unlinked(mem, ring[i - 1], ring[i]), base, Dropped(ring, i))
  {
    var mem', ring' := Unlinked(mem, ring[i - 1], ring[i]), Dropped(ring, i);
    forall k | 0 <= k < |ring'| ensures ring'[k] == if k < i then ring[k] else ring[k + 1] { }
    forall k | 0 <= k < |ring'| ensures LinkAt(mem', ring', k) {
      assert LinkAt(mem, ring, i);
      assert k < i - 1 ==> LinkAt(mem, ring, k);
      assert k >= i ==> LinkAt(mem, ring, k + 1);
    }
    forall j, k | 0 <= j < k < |ring'| ensures Before(mem', ring'[j], ring'[k]) {
      assert Before(mem, ring[if j < i then j else j + 1], ring[if k < i then k else k + 1]);
    }
  }

  lemma TakeKeeps(mem: Mem, base: nat, ring: seq<nat>, used: map<nat, nat>, tag: map<nat, nat>, i: nat)
    requires HeapOk(mem, base, ring, used, tag) && 0 < i < |ring|
    ensures HeapOk(Unlinked(mem, ring[i - 1], ring[i]), base, Dropped(ring, i), used[ring[i] := mem[ring[i]].size], tag)
    ensures ring[i] !in used
  {
    hide LinkAt; hide Covers; hide Inside;
    var p, mem', ring' := ring[i], Unlinked(mem, ring[i - 1], ring[i]), Dropped(ring, i);
    var used' := used[p := mem[p].size];
    TakeRing(mem, base, ring, i);
    DroppedMembers(mem, base, ring, i);
    assert Before(mem, ring[0], p) && p in ring && p !in used;
    TagsFrame(mem, mem', base, FreeBlocks(base, ring) + used.Keys, tag);
    hide Dropped; hide RingOk;
    assert FreeBlocks(base, ring') + used'.Keys == FreeBlocks(base, ring) + used.Keys;
  }

  /** p->size -= n; the header of the tail gets size n */
  function Cut(mem: Mem, p: nat, n: nat): Mem
    requires p in mem && 0 < n < mem[p].size && p + mem[p].size - n in mem
  {
    var q := p + mem[p].size - n;
    mem[p := Header(mem[p].ptr, mem[p].size - n)][q := Header(mem[q].ptr, n)]
  }

  ghost function TailTagged(tag: map<nat, nat>, q: nat, n: nat): map<nat, nat> {
    map u | u in tag :: if q <= u < q + n then q else tag[u]
  }

  lemma CutRing(mem: Mem, base: nat, ring: seq<nat>, i: nat, n: nat)
    requires RingOk(mem, base, ring) && 0 < i < |ring| && 0 < n < mem[ring[i]].size
               && ring[i] + mem[ring[i]].size - n in mem
    ensures RingOk(Cut(mem, ring[i], n), base, ring)
    ensures forall k :: 0 <= k < |ring| ==> ring[i] + mem[ring[i]].size - n != ring[k]
  {
    var q, mem' := ring[i] + mem[ring[i]].size - n, Cut(mem, ring[i], n);
    forall k | 0 <= k < |ring| ensures q != ring[k] {
      if k < i { assert Before(mem, ring[k], ring[i]); }
      if k > i { assert Before(mem, ring[i], ring[k]); }
    }
    forall k | 0 <= k < |ring| ensures LinkAt(mem', ring, k) { assert LinkAt(mem, ring, k); }
    forall j, k | 0 <= j < k < |ring| ensures Before(mem', ring[j], ring[k]) { assert Before(mem, ring[j], ring[k]); }
  }

  lemma CutCovers(mem: Mem, tag: map<nat, nat>, p: nat, n: nat, h: nat)
    requires Covers(mem, tag, p) && 0 < n < mem[p].size && p + mem[p].size - n in mem
    requires h == p + mem[p].size - n || (tag[p + mem[p].size - n] != h && Covers(mem, tag, h)) || h == p
    ensures Covers(Cut(mem, p, n), TailTagged(tag, p + mem[p].size - n, n), h)
  {
  }

  lemma CutInside(mem: Mem, blocks: set<nat>, tag: map<nat, nat>, p: nat, n: nat, u: nat)
    requires Covers(mem, tag, p) && 0 < n < mem[p].size && p + mem[p].size - n in mem && p in blocks
    requires u in tag && Inside(mem, blocks, tag, u) && p + mem[p].size - n !in blocks
    ensures Inside(Cut(mem, p, n), blocks + {p + mem[p].size - n}, TailTagged(tag, p + mem[p].size - n, n), u)
  {
  }

  lemma CutTags(mem: Mem, base: nat, blocks: set<nat>, tag: map<nat, nat>, p: nat, n: nat)
    requires TagsOk(mem, base, blocks, tag) && p in blocks && p in mem && 0 < n < mem[p].size
    ensures var q := p + mem[p].size - n;
            q in mem && q !in blocks && TagsOk(Cut(mem, p, n), base, blocks + {q}, TailTagged(tag, q, n))
  {
    hide Inside;
    var q := p + mem[p].size - n;
    assert Covers(mem, tag, p) && q in tag && tag[q] == p;
    assert q !in blocks by { assert q in blocks ==> Covers(mem, tag, q); }
    hide Covers;
    var mem', tag' := Cut(mem, p, n), TailTagged(tag, q, n);
    forall h | h in blocks + {q} ensures Covers(mem', tag', h) { CutCovers(mem, tag, p, n, h); }
    forall u | u in tag' ensures Inside(mem', blocks + {q}, tag', u) { CutInside(mem, blocks, tag, p, n, u); }
  }

  lemma CutKeeps(mem: Mem, base: nat, ring: seq<nat>, used: map<nat, nat>, tag: map<nat, nat>, i: nat, n: nat)
    requires HeapOk(mem, base, ring, used, tag) && 0 < i < |ring| && 0 < n < mem[ring[i]].size
    ensures var q := ring[i] + mem[ring[i]].size - n;
            q in mem && q !in used && HeapOk(Cut(mem, ring[i], n), base, ring, used[q := n], TailTagged(tag, q, n))
  {
    hide LinkAt; hide Covers; hide Inside;
    var p, q, blocks := ring[i], ring[i] + mem[ring[i]].size - n, FreeBlocks(base, ring) + used.Keys;
    assert Before(mem, ring[0], p) && p in ring && p in blocks;
    CutTags(mem, base, blocks, tag, p, n);
    CutRing(mem, base, ring, i, n);
    assert q !in used && q !in ring && p !in used;
    hide RingOk;
    assert FreeBlocks(base, ring) + used[q := n].Keys == blocks + {q};
  }

  // ---- new memory from sbrk ---------------------------------------------------------------

  /** The units of a fresh region, the first holding a header of the whole. */
  function Extended(mem: Mem, hp: nat, nu: nat, junk: Header): Mem {
    map u | u in mem.Keys + Units(hp, nu) :: if u == hp
        && nu > 0 then Header(junk.ptr, nu) else if u in mem then mem[u] else junk
  }

  function Units(lo: nat, n: nat): (r: set<nat>)
    ensures forall u :: u in r <==> lo <= u < lo + n
  {
    if n == 0 then {} else Units(lo, n - 1) + {lo + n - 1}
  }

  ghost function AllTagged(tag: map<nat, nat>, hp: nat, nu: nat): map<nat, nat> {
    map u | u in tag.Keys + Units(hp, nu) :: if hp <= u < hp + nu then hp else if u in tag then tag[u] else 0
  }

  lemma ExtendRing(mem: Mem, mem': Mem, base: nat, ring: seq<nat>)
    requires RingOk(mem, base, ring) && forall u :: u in mem ==> u in mem' && mem'[u] == mem[u]
    ensures RingOk(mem', base, ring)
  {
    forall k | 0 <= k < |ring| ensures LinkAt(mem', ring, k) { assert LinkAt(mem, ring, k); }
    forall j, k | 0 <= j < k < |ring| ensures Before(mem', ring[j], ring[k]) { assert Before(mem, ring[j], ring[k]); }
  }

  lemma ExtendCovers(mem: Mem, tag: map<nat, nat>, hp: nat, nu: nat, junk: Header, h: nat)
    requires nu > 0 && (forall u :: u in mem ==> u < hp) && (h == hp || Covers(mem, tag, h)) && tag.Keys <= mem.Keys
    ensures Covers(Extended(mem, hp, nu, junk), AllTagged(tag, hp, nu), h)
  {
  }

  lemma ExtendTags(mem: Mem, base: nat, blocks: set<nat>, tag: map<nat, nat>, hp: nat, nu: nat, junk: Header)
    requires TagsOk(mem, base, blocks, tag) && nu > 0 && hp > base && forall u :: u in mem ==> u < hp
    ensures TagsOk(Extended(mem, hp, nu, junk), base, blocks + {hp}, AllTagged(tag, hp, nu))
  {
    hide Units; hide Covers;
    var mem', tag' := Extended(mem, hp, nu, junk), AllTagged(tag, hp, nu);
    assert tag.Keys <= mem.Keys;
    forall h | h in blocks + {hp} ensures Covers(mem', tag', h) { ExtendCovers(mem, tag, hp, nu, junk, h); }
    forall u | u in tag' ensures Inside(mem', blocks + {hp}, tag', u) {
      if u in tag { assert Inside(mem, blocks, tag, u); }
    }
  }

  lemma ExtendKeeps(mem: Mem, base: nat, ring: seq<nat>, used: map<nat, nat>, tag: map<nat, nat>, hp: nat, nu: nat,
                    junk: Header)
    requires HeapOk(mem, base, ring, used, tag) && nu > 0 && hp > base && forall u :: u in mem ==> u < hp
    ensures HeapOk(Extended(mem, hp, nu, junk), base, ring, used[hp := nu], AllTagged(tag, hp, nu)) && hp !in used
  {
    hide LinkAt; hide Covers; hide Inside; hide Units; hide Before;
    assert hp !in ring && hp !in used;
    var mem' := Extended(mem, hp, nu, junk);
    ExtendRing(mem, mem', base, ring);
    ExtendTags(mem, base, FreeBlocks(base, ring) + used.Keys, tag, hp, nu, junk);
    hide RingOk;
    assert FreeBlocks(base, ring) + used[hp := nu].Keys == FreeBlocks(base, ring) + used.Keys + {hp};
  }

  // ---- coalescing -------------------------------------------------------------------

  lemma InsertGaps(mem: Mem, base: nat, ring: seq<nat>, i: nat, bp: nat)
    requires RingOk(mem, base, ring) && i < |ring| && Between(mem, ring, i, bp) && Coalesced(mem, ring)
    ensures GapsOutside(LinkedIn(mem, ring[i], bp), Inserted(ring, i, bp), i, i + 2)
  {
    hide LinkAt;
    var mem', ring' := LinkedIn(mem, ring[i], bp), Inserted(ring, i, bp);
    forall k | 0 <= k && k + 1 < |ring'| && !(i <= k < i + 2) ensures GapAt(mem', ring', k) {
      assert GapAt(mem, ring, if k < i then k else k - 1);
    }
  }

  lemma MergeGaps(mem: Mem, base: nat, ring: seq<nat>, lo: nat, j: nat)
    requires RingOk(mem, base, ring) && 0 < j && j + 1 < |ring| && !GapAt(mem, ring, j)
    requires lo <= j && GapsOutside(mem, ring, lo, j + 1)
    ensures GapsOutside(MergedInto(mem, ring[j], ring[j + 1]), Dropped(ring, j + 1), lo, j)
  {
    hide LinkAt;
    var mem', ring' := MergedInto(mem, ring[j], ring[j + 1]), Dropped(ring, j + 1);
    forall k | 0 <= k && k + 1 < |ring'| && !(lo <= k < j) ensures GapAt(mem', ring', k) {
      assert Before(mem, ring[j], ring[j + 1]);
      assert GapAt(mem, ring, if k < j then k else k + 1);
    }
  }

  lemma TakeGaps(mem: Mem, base: nat, ring: seq<nat>, i: nat)
    requires RingOk(mem, base, ring) && 0 < i < |ring| && Coalesced(mem, ring)
    ensures Coalesced(Unlinked(mem, ring[i - 1], ring[i]), Dropped(ring, i))
  {
    hide LinkAt;
    var mem', ring' := Unlinked(mem, ring[i - 1], ring[i]), Dropped(ring, i);
    forall k | 0 <= k && k + 1 < |ring'| ensures GapAt(mem', ring', k) {
      assert GapAt(mem, ring, if k < i then k else k + 1);
      assert i + 1 < |ring| ==> Before(mem, ring[i], ring[i + 1]);
    }
  }

  lemma CutGaps(mem: Mem, base: nat, ring: seq<nat>, i: nat, n: nat)
    requires RingOk(mem, base, ring) && 0 < i < |ring| && 0 < n < mem[ring[i]].size
               && ring[i] + mem[ring[i]].size - n in mem
    requires Coalesced(mem, ring)
    ensures Coalesced(Cut(mem, ring[i], n), ring)
  {
    CutRing(mem, base, ring, i, n);
    var mem' := Cut(mem, ring[i], n);
    forall k | 0 <= k && k + 1 < |ring| ensures GapAt(mem', ring, k) {
      assert GapAt(mem, ring, k) && (k != i ==> ring[k] != ring[i]) by {
        assert k < i ==> Before(mem, ring[k], ring[i]);
        assert i < k ==> Before(mem, ring[i], ring[k]);
      }
    }
  }
}
