/** The buffer cache of kernel/bio.c: a doubly linked ring in least-recently
    released order, reference counts, and one buffer per block.  The cache
    refines a plain map from blocks to contents.

    Each method below is one critical section under bcache.lock, or one action
    of the process holding the buffer's sleep-lock; what holds after every
    sequence of calls holds for every interleaving of processes.  Who holds
    which reference is ghost state: a process may only give up its own. */
module BufferCache {
  import opened Blocks

  const NBUF := 30
  const HEAD := 30                  // bcache.head, kept after the buffers

  datatype Key = Key(dev: uint, blockno: uint)

  datatype Buf = Buf(key: Key, valid: bool, refcnt: nat, locked: bool, prev: nat, next: nat, data: Block)

  // ---- the ring ---------------------------------------------------------------

  /** The nodes met going once around from the head. */
  function Ring(order: seq<nat>): seq<nat> {
    [HEAD] + order + [HEAD]
  }

  ghost predicate Distinct(order: seq<nat>) {
    && (forall i :: 0 <= i < |order| ==> order[i] < NBUF)
    && forall i, j :: 0 <= i < j < |order| ==> order[i] != order[j]
  }

  /** The prev/next links form one ring through the head in this order. */
  ghost predicate Linked(buf: seq<Buf>, order: seq<nat>) {
    && |buf| == NBUF + 1 && Distinct(order)
    && forall i :: 0 <= i <= |order| ==> LinkAt(buf, Ring(order), i)
  }

  ghost predicate LinkAt(buf: seq<Buf>, ring: seq<nat>, i: nat)
    requires i + 1 < |ring| && ring[i] < |buf| && ring[i + 1] < |buf|
  {
    buf[ring[i]].next == ring[i + 1] && buf[ring[i + 1]].prev == ring[i]
  }

  /** b->next->prev = b->prev; b->prev->next = b->next */
  function Unlinked(buf: seq<Buf>, b: nat): seq<Buf>
    requires b < |buf| && buf[b].next < |buf| && buf[b].prev < |buf|
  {
    var n, p := buf[b].next, buf[b].prev;
    var buf1 := buf[n := buf[n].(prev := p)];
    buf1[p := buf1[p].(next := n)]
  }

  /** b->next = head.next; b->prev = &head; head.next->prev = b; head.next = b */
  function PushedFront(buf: seq<Buf>, b: nat): seq<Buf>
    requires b < |buf| == NBUF + 1 && buf[HEAD].next < |buf|
  {
    var first := buf[HEAD].next;
    var buf1 := buf[b := buf[b].(next := first, prev := HEAD)];
    var buf2 := buf1[first := buf1[first].(prev := b)];
    buf2[HEAD := buf2[HEAD].(next := b)]
  }

  function Without(order: seq<nat>, p: nat): seq<nat>
    requires p < |order|
  {
    order[..p] + order[p + 1..]
  }

  ghost predicate OnlyLinksDiffer(buf: seq<Buf>, buf': seq<Buf>) {
    |buf'| == |buf| && forall c :: 0 <= c < |buf| ==> buf'[c] == buf[c].(prev := buf'[c].prev, next := buf'[c].next)
  }

  lemma UnlinkKeepsRing(buf: seq<Buf>, order: seq<nat>, p: nat)
    requires Linked(buf, order) && p < |order|
    ensures buf[order[p]].next <= HEAD && buf[order[p]].prev <= HEAD
    ensures Linked(Unlinked(buf, order[p]), Without(order, p)) && OnlyLinksDiffer(buf, Unlinked(buf, order[p]))
  {
    var ring, b := Ring(order), order[p];
    assert ring[p + 1] == b;
    assert LinkAt(buf, ring, p) && LinkAt(buf, ring, p + 1);
    var order', buf' := Without(order, p), Unlinked(buf, b);
    var ring' := Ring(order');
    forall i | 0 <= i <= |order'| ensures LinkAt(buf', ring', i) {
      assert ring'[i] == if i <= p then ring[i] else ring[i + 1];
      assert ring'[i + 1] == if i < p then ring[i + 1] else ring[i + 2];
      assert LinkAt(buf, ring, i) && LinkAt(buf, ring, i + 1);
    }
  }

  lemma PushFrontKeepsRing(buf: seq<Buf>, order: seq<nat>, b: nat)
    requires Linked(buf, order) && b < NBUF && b !in order
    ensures buf[HEAD].next <= HEAD && Linked(PushedFront(buf, b), [b] + order)
              && OnlyLinksDiffer(buf, PushedFront(buf, b))
  {
    var ring, order' := Ring(order), [b] + order;
    assert LinkAt(buf, ring, 0);
    var buf', ring' := PushedFront(buf, b), Ring(order');
    forall i | 0 <= i <= |order'| ensures LinkAt(buf', ring', i) {
      assert i > 0 ==> ring'[i] == if i == 1 then b else ring[i - 1];
      assert i > 0 ==> ring'[i + 1] == ring[i];
      assert i > 1 ==> LinkAt(buf, ring, i - 1);
    }
  }

  /** Every buffer is in the ring; those released later come first. */
  ghost predicate ByRelease(order: seq<nat>, stamp: seq<nat>, now: nat) {
    && Distinct(order) && (forall b :: 0 <= b < NBUF ==> b in order)
    && |stamp| == NBUF && (forall b :: 0 <= b < NBUF ==> stamp[b] < now)
    && forall i, j :: 0 <= i < j < |order| ==> stamp[order[i]] > stamp[order[j]]
  }

  /** Where the buffer at place i goes when the one at place p moves to the front. */
  function Place(p: nat, i: nat): nat { if i < p then i + 1 else if i == p then 0 else i }

  lemma Moved(order: seq<nat>, p: nat, i: nat)
    requires p < |order| && i < |order|
    ensures var order' := [order[p]] + Without(order, p);
            |order'| == |order| && Place(p, i) < |order'| && order'[Place(p, i)] == order[i]
  {
  }

  lemma StillThere(order: seq<nat>, p: nat, c: nat)
    requires p < |order| && c in order
    ensures c in [order[p]] + Without(order, p)
  {
    var i :| 0 <= i < |order| && order[i] == c;
    Moved(order, p, i);
  }

  lemma StillSorted(order: seq<nat>, stamp: seq<nat>, now: nat, p: nat, i: nat, j: nat)
    requires ByRelease(order, stamp, now) && p < |order| && i < j < |order|
    ensures var order', stamp' := [order[p]] + Without(order, p), stamp[order[p] := now];
            order'[i] != order'[j] && order'[j] < NBUF && order'[i] < NBUF && stamp'[order'[i]] > stamp'[order'[j]]
  {
    Moved(order, p, if j <= p then j - 1 else j);
    if i > 0 { Moved(order, p, if i <= p then i - 1 else i); }
  }

  lemma ReleaseKeepsOrder(order: seq<nat>, stamp: seq<nat>, now: nat, p: nat)
    requires ByRelease(order, stamp, now) && p < |order|
    ensures order[p] !in Without(order, p)
    ensures ByRelease([order[p]] + Without(order, p), stamp[order[p] := now], now + 1)
  {
    var order', stamp' := [order[p]] + Without(order, p), stamp[order[p] := now];
    Moved(order, p, p);
    forall c: nat | c < NBUF ensures c in order' { StillThere(order, p, c); }
    hide Without;
    forall i, j | 0 <= i < j < |order'|
      ensures order'[i] != order'[j] && order'[j] < NBUF && order'[i] < NBUF && stamp'[order'[i]] > stamp'[order'[j]]
    {
      StillSorted(order, stamp, now, p, i, j);
    }
    forall j | 0 <= j < |Without(order, p)| ensures Without(order, p)[j] != order[p] {
      assert order'[j + 1] == Without(order, p)[j];
    }
  }

  // ---- contents -----------------------------------------------------------------

  /** A block of a real device is in at most one buffer. */
  ghost predicate Unique(buf: seq<Buf>) {
    && |buf| == NBUF + 1
    && forall b, c :: 0 <= b < NBUF && 0 <= c < NBUF && buf[b].key == buf[c].key && buf[b].key.dev != 0 ==> b == c
  }

  ghost predicate CachedDirty(buf: seq<Buf>, dirty: set<nat>, k: Key)
    requires |buf| == NBUF + 1
  {
    exists b: nat :: b in dirty && b < NBUF && buf[b].key == k
  }

  /** Cached contents are current; a block whose disk contents are stale is in a
      dirty buffer, and dirty buffers are referenced. */
  ghost predicate Current(buf: seq<Buf>, disk: map<Key, Block>, logical: map<Key, Block>, dirty: set<nat>) {
    && |buf| == NBUF + 1 && disk.Keys == logical.Keys
    && (forall b :: 0 <= b < NBUF && buf[b].valid ==> buf[b].key in logical && buf[b].data == logical[buf[b].key])
    && (forall b :: 0 <= b < NBUF && buf[b].key.dev != 0 ==> buf[b].key in logical)
    && (forall b :: b in dirty ==> b < NBUF && buf[b].refcnt > 0 && buf[b].valid && buf[b].key.dev != 0)
    && (forall b :: 0 <= b < NBUF && buf[b].locked ==> buf[b].refcnt > 0)
    && (forall k :: k in logical && disk[k] != logical[k] ==> CachedDirty(buf, dirty, k))
  }

  /** Every reference is a process's or a pin; only a process with a reference holds the
      sleep-lock; a dirty buffer is locked or pinned. */
  ghost predicate Accounted(buf: seq<Buf>, refs: seq<multiset<nat>>, pins: seq<nat>, locker: seq<nat>,
                            dirty: set<nat>)
  {
    && |buf| == NBUF + 1 && |refs| == |pins| == |locker| == NBUF
    && (forall b :: 0 <= b < NBUF ==> buf[b].refcnt == |refs[b]| + pins[b])
    && (forall b :: 0 <= b < NBUF && buf[b].locked ==> locker[b] in refs[b])
    && (forall b :: 0 <= b < NBUF && b in dirty ==> buf[b].locked || pins[b] > 0)
  }

  /** A reference given up is not the last one of a buffer in use. */
  lemma InUseIsReferenced(buf: seq<Buf>, refs: seq<multiset<nat>>, pins: seq<nat>, locker: seq<nat>, dirty: set<nat>,
                          b: nat)
    requires Accounted(buf, refs, pins, locker, dirty) && b < NBUF && buf[b].refcnt == 0
    ensures !buf[b].locked && b !in dirty
  {
  }

  /** Links, locks and reference counts do not matter, as long as buffers in use stay referenced. */
  lemma SameContents(buf: seq<Buf>, buf': seq<Buf>, disk: map<Key, Block>, logical: map<Key, Block>, dirty: set<nat>)
    requires Unique(buf) && Current(buf, disk, logical, dirty) && |buf'| == |buf|
    requires forall b :: 0 <= b < NBUF ==>
               buf'[b].key == buf[b].key && buf'[b].valid == buf[b].valid
               && buf'[b].data == buf[b].data
    requires forall b :: 0 <= b < NBUF && buf'[b].refcnt == 0 ==>
               (buf[b].refcnt == 0 && buf'[b].locked == buf[b].locked) || (b !in dirty && !buf'[b].locked)
    ensures Unique(buf') && Current(buf', disk, logical, dirty)
  {
  }

  /** An unreferenced buffer can be given to a block that is in no buffer. */
  lemma RecycleKeeps(buf: seq<Buf>, b: nat, key: Key, disk: map<Key, Block>, logical: map<Key, Block>, dirty: set<nat>)
    requires Unique(buf) && Current(buf, disk, logical, dirty) && b < NBUF && buf[b].refcnt == 0
    requires key in logical && forall c :: 0 <= c < NBUF ==> buf[c].key != key
    ensures var buf' := buf[b := buf[b].(key := key, valid := false, refcnt := 1)];
            Unique(buf') && Current(buf', disk, logical, dirty)
  {
  }

  /** A locked buffer that is not valid is filled from disk: the disk is current. */
  lemma FillKeeps(buf: seq<Buf>, b: nat, disk: map<Key, Block>, logical: map<Key, Block>, dirty: set<nat>)
    requires Unique(buf) && Current(buf, disk, logical, dirty) && b < NBUF && !buf[b].valid && buf[b].key.dev != 0
    ensures buf[b].key in disk && disk[buf[b].key] == logical[buf[b].key]
    ensures var buf' := buf[b := buf[b].(data := disk[buf[b].key], valid := true)];
            Unique(buf') && Current(buf', disk, logical, dirty)
  {
  }

  lemma ValidIsCurrent(buf: seq<Buf>, b: nat, disk: map<Key, Block>, logical: map<Key, Block>, dirty: set<nat>)
    requires Current(buf, disk, logical, dirty) && b < NBUF && buf[b].valid
    ensures buf[b].key in logical && buf[b].key in disk && buf[b].data == logical[buf[b].key]
  {
  }

  lemma LockedIsReferenced(buf: seq<Buf>, b: nat, disk: map<Key, Block>, logical: map<Key, Block>, dirty: set<nat>)
    requires Current(buf, disk, logical, dirty) && b < NBUF && buf[b].locked
    ensures buf[b].refcnt > 0
  {
  }

  lemma SameKeys(buf: seq<Buf>, disk: map<Key, Block>, logical: map<Key, Block>, dirty: set<nat>)
    requires Current(buf, disk, logical, dirty)
    ensures disk.Keys == logical.Keys
  {
  }

  lemma ModifyKeeps(buf: seq<Buf>, b: nat, x: Block, disk: map<Key, Block>, logical: map<Key, Block>, dirty: set<nat>)
    requires Unique(buf) && Current(buf, disk, logical, dirty) && b < NBUF
    requires buf[b].valid && buf[b].refcnt > 0 && buf[b].key.dev != 0
    ensures var buf' := buf[b := buf[b].(data := x)];
            Unique(buf') && Current(buf', disk, logical[buf[b].key := x], dirty + {b})
  {
  }

  lemma WriteKeeps(buf: seq<Buf>, b: nat, disk: map<Key, Block>, logical: map<Key, Block>, dirty: set<nat>)
    requires Unique(buf) && Current(buf, disk, logical, dirty) && b < NBUF && buf[b].valid
    ensures buf[b].key in disk && Current(buf, disk[buf[b].key := buf[b].data], logical, dirty - {b})
  {
  }

  class Bcache {
    var buf: seq<Buf>
    var disk: map<Key, Block>
    ghost var order: seq<nat>       // buffers from most to least recently released
    ghost var stamp: seq<nat>       // when each buffer was last fully released
    ghost var now: nat
    ghost var logical: map<Key, Block>
    ghost var dirty: set<nat>       // buffers changed since they were last read or written
    ghost var refs: seq<multiset<nat>>   // the processes holding a reference to each buffer
    ghost var pins: seq<nat>             // references held by the log
    ghost var locker: seq<nat>           // who holds the sleep-lock, if anybody

    /** One ring holding every buffer exactly once, ordered by last full release. */
    ghost predicate RingInv()
      reads this
    {
      |buf| == NBUF + 1 && Linked(buf, order) && ByRelease(order, stamp, now)
    }

    ghost predicate Valid()
      reads this
    {
      && RingInv() && Unique(buf) && Current(buf, disk, logical, dirty)
      && Accounted(buf, refs, pins, locker, dirty)
    }

    /** binit: the last buffer pushed is at the front; no buffer holds a block. */
    constructor (image: map<Key, Block>)
      ensures Valid() && disk == logical == image && dirty == {}
      ensures forall b :: 0 <= b < NBUF ==> buf[b].refcnt == 0 && !buf[b].valid
    {
      hide Linked;
      disk, logical, dirty := image, image, {};
      refs, pins, locker := seq(NBUF, i => multiset{}), seq(NBUF, i => 0), seq(NBUF, i => 0);
      var bufs, ord := Binit();
      buf, order := bufs, ord;
      stamp, now := seq(NBUF, i => i), NBUF;
    }

    static method Binit() returns (bufs: seq<Buf>, ghost ord: seq<nat>)
      ensures Linked(bufs, ord) && |ord| == NBUF && |bufs| == NBUF + 1
      ensures (forall i :: 0 <= i < NBUF ==> ord[i] == NBUF - 1 - i) && (forall b :: 0 <= b < NBUF ==> b in ord)
      ensures forall b :: 0 <= b < NBUF ==>
                bufs[b].key == Key(0, 0) && !bufs[b].valid && !bufs[b].locked
                && bufs[b].refcnt == 0
    {
      hide Linked; hide ZeroBlock;
      var none := Buf(Key(0, 0), false, 0, false, HEAD, HEAD, ZeroBlock());
      bufs := seq(NBUF + 1, i => none);
      ord := [];
      EmptyRing(bufs);
      var b := 0;
      while b < NBUF
        invariant b <= NBUF && |bufs| == NBUF + 1 && |ord| == b && Linked(bufs, ord)
        invariant forall i :: 0 <= i < b ==> ord[i] == b - 1 - i
        invariant forall i :: 0 <= i < NBUF ==> bufs[i] == none.(prev := bufs[i].prev, next := bufs[i].next)
      {
        hide PushedFront;
        PushFrontKeepsRing(bufs, ord, b);
        bufs := PushedFront(bufs, b);
        ord := [b] + ord;
        b := b + 1;
      }
      forall c | 0 <= c < NBUF ensures c in ord { assert ord[NBUF - 1 - c] == c; }
    }

    static lemma EmptyRing(bufs: seq<Buf>)
      requires |bufs| == NBUF + 1 && bufs[HEAD].next == bufs[HEAD].prev == HEAD
      ensures Linked(bufs, [])
    {
    }

    // ---- bget -------------------------------------------------------------------

    /** The first loop of bget. */
    method FindCached(key: Key) returns (b: nat)
      requires RingInv()
      ensures b <= HEAD && (b < HEAD ==> buf[b].key == key)
      ensures b == HEAD ==> forall c :: 0 <= c < NBUF ==> buf[c].key != key
    {
      ghost var i := 0;
      assert LinkAt(buf, Ring(order), 0);
      b := buf[HEAD].next;
      while b != HEAD
        invariant 0 <= i <= |order| && b == Ring(order)[i + 1]
        invariant forall j :: 0 <= j < i ==> buf[order[j]].key != key
        decreases |order| - i
      {
        if buf[b].key == key {
          return;
        }
        assert LinkAt(buf, Ring(order), i + 1);
        b := buf[b].next;
        i := i + 1;
      }
      forall c | 0 <= c < NBUF ensures buf[c].key != key {
        assert c in order;
        var j :| 0 <= j < |order| && order[j] == c;
      }
    }

    /** The second loop of bget: from the back, the first unused buffer. */
    method FindVictim() returns (b: nat)
      requires RingInv()
      ensures b <= HEAD && (b < HEAD ==> buf[b].refcnt == 0)
      ensures b < HEAD ==> forall c :: 0 <= c < NBUF && buf[c].refcnt == 0 ==> stamp[b] <= stamp[c]
      ensures b == HEAD <==> forall c :: 0 <= c < NBUF ==> buf[c].refcnt > 0
    {
      ghost var i := |order|;
      assert LinkAt(buf, Ring(order), i);
      b := buf[HEAD].prev;
      while b != HEAD
        invariant 0 <= i <= |order| && b == Ring(order)[i]
        invariant forall j :: i <= j < |order| ==> buf[order[j]].refcnt > 0
        decreases i
      {
        if buf[b].refcnt == 0 {
          forall c | 0 <= c < NBUF && buf[c].refcnt == 0 ensures stamp[b] <= stamp[c] {
            assert c in order;
            var j :| 0 <= j < |order| && order[j] == c;
          }
          return;
        }
        assert LinkAt(buf, Ring(order), i - 1);
        b := buf[b].prev;
        i := i - 1;
      }
      forall c | 0 <= c < NBUF ensures buf[c].refcnt > 0 {
        assert c in order;
        var j :| 0 <= j < |order| && order[j] == c;
      }
    }

    /** bget, up to the sleep-lock: the buffer of this block, with one more
        reference.  None is the panic "bget: no buffers". */
    method Bget(ghost p: nat, dev: uint, blockno: uint) returns (b: nat)
      requires Valid() && dev != 0 && Key(dev, blockno) in disk
      modifies this`buf, this`refs
      ensures Valid() && b <= HEAD
      ensures refs == if b < HEAD then old(refs)[b := old(refs)[b] + multiset{p}] else old(refs)
      ensures b < HEAD ==> buf[b].key == Key(dev, blockno) && buf[b].refcnt == old(buf)[b].refcnt + 1
      ensures b < HEAD && old(buf)[b].key == Key(dev, blockno) ==>
                buf == old(buf)[b := old(buf)[b].(refcnt := old(buf)[b].refcnt + 1)]
      ensures b < HEAD && old(buf)[b].key != Key(dev, blockno) ==>
                && buf == old(buf)[b := old(buf)[b].(key := Key(dev, blockno), valid := false, refcnt := 1)]
                && old(buf)[b].refcnt == 0
                && (forall c :: 0 <= c < NBUF ==> old(buf)[c].key != Key(dev, blockno))
                && (forall c :: 0 <= c < NBUF && old(buf)[c].refcnt == 0 ==> stamp[b] <= stamp[c])
      ensures b == HEAD <==> forall c :: 0 <= c < NBUF ==>
                old(buf)[c].refcnt > 0
                && old(buf)[c].key != Key(dev, blockno)
      ensures b == HEAD ==> buf == old(buf)
    {
      hide Linked; hide Unique; hide Current; hide Accounted;
      var key := Key(dev, blockno);
      SameKeys(buf, disk, logical, dirty);
      b := FindCached(key);
      if b != HEAD {
        var buf' := buf[b := buf[b].(refcnt := buf[b].refcnt + 1)];
        SameLinks(buf, buf', order);
        SameContents(buf, buf', disk, logical, dirty);
        OneMoreRef(buf, buf', b, p);
        buf, refs := buf', refs[b := refs[b] + multiset{p}];
        return;
      }
      b := FindVictim();
      if b != HEAD {
        RecycleKeeps(buf, b, key, disk, logical, dirty);
        var buf' := buf[b := buf[b].(key := key, valid := false, refcnt := 1)];
        SameLinks(buf, buf', order);
        OneMoreRef(buf, buf', b, p);
        buf, refs := buf', refs[b := refs[b] + multiset{p}];
      }
    }

    lemma OneMoreRef(buf0: seq<Buf>, buf1: seq<Buf>, b: nat, p: nat)
      requires Accounted(buf0, refs, pins, locker, dirty) && b < NBUF
      requires |buf1| == |buf0| && buf1 == buf0[b := buf1[b]]
      requires buf1[b].refcnt == buf0[b].refcnt + 1 && buf1[b].locked == buf0[b].locked
      ensures |refs| == NBUF && Accounted(buf1, refs[b := refs[b] + multiset{p}], pins, locker, dirty)
    {
    }

    static lemma SameLinks(bufs: seq<Buf>, bufs': seq<Buf>, order: seq<nat>)
      requires Linked(bufs, order) && |bufs'| == |bufs|
      requires forall b :: 0 <= b < |bufs| ==> bufs'[b].next == bufs[b].next && bufs'[b].prev == bufs[b].prev
      ensures Linked(bufs', order)
    {
      forall i | 0 <= i <= |order| ensures LinkAt(bufs', Ring(order), i) {
        assert LinkAt(bufs, Ring(order), i);
      }
    }

    /** p holds a reference to buffer b. */
    ghost predicate Refers(p: nat, b: nat)
      reads this
    {
      b < |refs| && p in refs[b]
    }

    /** p holds the sleep-lock of buffer b. */
    ghost predicate Locks(p: nat, b: nat)
      reads this
    {
      b < NBUF && b < |buf| && b < |locker| && buf[b].locked && locker[b] == p
    }

    /** acquiresleep succeeded for a process holding a reference. */
    method Lock(ghost p: nat, b: nat)
      requires Valid() && b < NBUF && Refers(p, b) && !buf[b].locked
      modifies this`buf, this`locker
      ensures Valid() && buf == old(buf)[b := old(buf)[b].(locked := true)] && locker == old(locker)[b := p]
    {
      hide Linked; hide Unique; hide Current;
      var buf' := buf[b := buf[b].(locked := true)];
      SameLinks(buf, buf', order);
      SameContents(buf, buf', disk, logical, dirty);
      buf, locker := buf', locker[b := p];
    }

    /** The rest of bread: the buffer holds the current contents of its block. */
    method Fill(ghost p: nat, b: nat) returns (data: Block)
      requires Valid() && Locks(p, b) && buf[b].key.dev != 0
      modifies this`buf
      ensures Valid() && buf[b].valid && data == buf[b].data == logical[buf[b].key]
      ensures buf == old(buf)[b := old(buf)[b].(valid := true, data := data)]
    {
      hide Linked; hide Unique; hide Current;
      if !buf[b].valid {
        FillKeeps(buf, b, disk, logical, dirty);
        var buf' := buf[b := buf[b].(data := disk[buf[b].key], valid := true)];
        SameLinks(buf, buf', order);
        buf := buf';
      }
      data := buf[b].data;
      ValidIsCurrent(buf, b, disk, logical, dirty);
    }

    /** The holder changes the data: this is now what the block logically contains. */
    method Modify(ghost p: nat, b: nat, x: Block)
      requires Valid() && Locks(p, b) && buf[b].valid && buf[b].key.dev != 0
      modifies this`buf, this`logical, this`dirty
      ensures Valid() && buf == old(buf)[b := old(buf)[b].(data := x)]
      ensures logical == old(logical)[buf[b].key := x] && dirty == old(dirty) + {b}
    {
      hide Linked; hide Unique; hide Current;
      LockedIsReferenced(buf, b, disk, logical, dirty);
      var buf' := buf[b := buf[b].(data := x)];
      SameLinks(buf, buf', order);
      ModifyKeeps(buf, b, x, disk, logical, dirty);
      logical := logical[buf[b].key := x];
      dirty := dirty + {b};
      buf := buf';
    }

    /** bwrite: afterwards the disk has the current contents of this block. */
    method Bwrite(ghost p: nat, b: nat)
      requires Valid() && Locks(p, b) && buf[b].valid && buf[b].key.dev != 0
      modifies this`disk, this`dirty
      ensures Valid() && disk == old(disk)[buf[b].key := buf[b].data] && dirty == old(dirty) - {b}
      ensures disk[buf[b].key] == logical[buf[b].key]
    {
      hide Linked; hide Unique; hide Current;
      WriteKeeps(buf, b, disk, logical, dirty);
      ValidIsCurrent(buf, b, disk, logical, dirty);
      disk := disk[buf[b].key := buf[b].data];
      dirty := dirty - {b};
    }

    /** log_write pins the buffer, so that it stays cached until the commit. */
    method Bpin(ghost p: nat, b: nat)
      requires Valid() && b < NBUF && Refers(p, b)
      modifies this`buf, this`pins
      ensures Valid() && buf == old(buf)[b := old(buf)[b].(refcnt := old(buf)[b].refcnt + 1)]
      ensures pins == old(pins)[b := old(pins)[b] + 1]
    {
      hide Linked; hide Unique; hide Current;
      var buf' := buf[b := buf[b].(refcnt := buf[b].refcnt + 1)];
      SameLinks(buf, buf', order);
      SameContents(buf, buf', disk, logical, dirty);
      buf, pins := buf', pins[b := pins[b] + 1];
    }

    /** A pin is given up; whoever removes the last one has written the buffer, or holds it. */
    method Bunpin(b: nat)
      requires Valid() && b < NBUF && pins[b] > 0 && (pins[b] == 1 && b in dirty ==> buf[b].locked)
      modifies this`buf, this`pins
      ensures Valid() && buf == old(buf)[b := old(buf)[b].(refcnt := old(buf)[b].refcnt - 1)]
      ensures pins == old(pins)[b := old(pins)[b] - 1]
    {
      hide Linked; hide Unique; hide Current;
      var buf' := buf[b := buf[b].(refcnt := buf[b].refcnt - 1)];
      SameLinks(buf, buf', order);
      pins := pins[b := pins[b] - 1];
      if buf'[b].refcnt == 0 { InUseIsReferenced(buf', refs, pins, locker, dirty, b); }
      SameContents(buf, buf', disk, logical, dirty);
      buf := buf';
    }

    /** releasesleep in brelse: a client that changed the buffer has written it or pinned it.
        From here on another process may lock the buffer, before p gives up its reference. */
    method Unlock(ghost p: nat, b: nat)
      requires Valid() && Locks(p, b) && (b in dirty ==> pins[b] > 0)
      modifies this`buf
      ensures Valid() && buf == old(buf)[b := old(buf)[b].(locked := false)]
    {
      hide Linked; hide Unique; hide Current;
      LockedIsReferenced(buf, b, disk, logical, dirty);
      var buf' := buf[b := buf[b].(locked := false)];
      SameLinks(buf, buf', order);
      SameContents(buf, buf', disk, logical, dirty);
      buf := buf';
    }

    /** The critical section of brelse, whoever holds the lock by now: p's reference goes.
        With the last one the buffer, which nobody locks and which is clean, moves to the
        front of the ring. */
    method Release(ghost p: nat, b: nat)
      requires Valid() && b < NBUF && Refers(p, b) && !Locks(p, b)
      modifies this`buf, this`order, this`stamp, this`now, this`refs
      ensures Valid() && refs == old(refs)[b := old(refs)[b] - multiset{p}]
      ensures buf[b].refcnt == old(buf)[b].refcnt - 1 && (buf[b].refcnt == 0 ==> !buf[b].locked && b !in dirty)
      ensures forall c :: 0 <= c < NBUF && c != b ==> buf[c] == old(buf)[c].(prev := buf[c].prev, next := buf[c].next)
      ensures buf[b] == old(buf)[b].(prev := buf[b].prev, next := buf[b].next, refcnt := buf[b].refcnt)
      ensures buf[b].refcnt > 0 ==> order == old(order) && stamp == old(stamp)
      ensures buf[b].refcnt == 0 ==> order != [] && order[0] == b && stamp == old(stamp)[b := old(now)]
    {
      hide Linked; hide Unique; hide Current; hide Accounted;
      OneLessRef(p, b);
      var buf' := buf[b := buf[b].(refcnt := buf[b].refcnt - 1)];
      SameLinks(buf, buf', order);
      refs := refs[b := refs[b] - multiset{p}];
      if buf'[b].refcnt == 0 { InUseIsReferenced(buf', refs, pins, locker, dirty, b); }
      SameContents(buf, buf', disk, logical, dirty);
      buf := buf';
      if buf[b].refcnt == 0 {
        ToFront(b);
        SameContents(buf', buf, disk, logical, dirty);
        SameAccount(buf', buf);
      }
    }

    lemma OneLessRef(p: nat, b: nat)
      requires Accounted(buf, refs, pins, locker, dirty) && b < NBUF && Refers(p, b) && !Locks(p, b)
      ensures buf[b].refcnt > 0
      ensures Accounted(buf[b := buf[b].(refcnt := buf[b].refcnt - 1)], refs[b := refs[b] - multiset{p}], pins, locker,
                        dirty)
    {
    }

    lemma SameAccount(buf0: seq<Buf>, buf1: seq<Buf>)
      requires Accounted(buf0, refs, pins, locker, dirty) && OnlyLinksDiffer(buf0, buf1)
      ensures Accounted(buf1, refs, pins, locker, dirty)
    {
    }

    /** The six link updates of brelse. */
    method ToFront(b: nat)
      requires RingInv() && b < NBUF
      modifies this`buf, this`order, this`stamp, this`now
      ensures RingInv() && order != [] && order[0] == b && stamp == old(stamp)[b := old(now)]
      ensures OnlyLinksDiffer(old(buf), buf)
    {
      assert b in order by { InRing(b); }
      ghost var p :| 0 <= p < |order| && order[p] == b;
      hide Linked; hide ByRelease; hide Unlinked; hide PushedFront;
      UnlinkKeepsRing(buf, order, p);
      ReleaseKeepsOrder(order, stamp, now, p);
      ghost var rest := Without(order, p);
      buf := Unlinked(buf, b);
      PushFrontKeepsRing(buf, rest, b);
      buf := PushedFront(buf, b);
      order := [b] + rest;
      stamp := stamp[b := now];
      now := now + 1;
    }

    lemma InRing(b: nat)
      requires ByRelease(order, stamp, now) && b < NBUF
      ensures b in order && |stamp| == NBUF
    {
    }
  }
}
