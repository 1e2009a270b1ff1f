/** The request queue of the virtio disk driver, kernel/virtio_disk.c: descriptors,
    the available and used rings, and the device at the other end (sections 2.6 and 5.2
    of the OASIS virtio specification, version 1.1). */
module VirtioModel {

  import opened Blocks

  const NUM := 8
  const NEXT := 1
  const WRITE := 2
  /** Ring counters are 16 bits wide. */
  const WRAP := 0x1_0000

  /** What a descriptor's address points at. */
  datatype Addr = Nowhere | OpOf(i: int) | DataOf(b: nat) | StatusOf(i: int)
  datatype Desc = Desc(addr: Addr, len: nat, flags: nat, next: int)
  datatype Op = Op(write: bool, sector: nat)
  /** b is -1 when the slot records no buffer. */
  datatype Info = Info(b: int, status: nat)

  datatype Phase = Queued | Working | Done | Seen
  /** A live request: its buffer, the rest of its chain, and how far it has come. */
  datatype Req = Req(b: nat, mid: int, tail: int, write: bool, sector: nat, phase: Phase)

  predicate Slot(i: int) { 0 <= i < NUM }

  // ---- descriptors ----------------------------------------------------------------------

  /** The descriptors of a live chain are marked with its head, free ones with -1. */
  ghost predicate OwnedAt(free: seq<bool>, owner: seq<int>, live: map<int, Req>, i: int)
    requires |free| == NUM && |owner| == NUM && Slot(i)
  {
    && (free[i] <==> owner[i] == -1)
    && (owner[i] != -1 ==> owner[i] in live && (i == owner[i] || i == live[owner[i]].mid || i == live[owner[i]].tail))
  }

  ghost predicate ChainAt(owner: seq<int>, live: map<int, Req>, h: int)
    requires |owner| == NUM && h in live
  {
    var r := live[h];
    && Slot(h) && Slot(r.mid) && Slot(r.tail) && h != r.mid && h != r.tail && r.mid != r.tail
    && owner[h] == h && owner[r.mid] == h && owner[r.tail] == h
  }

  /** The NUM descriptors are the free ones and the chains of the live requests. */
  ghost predicate Partition(free: seq<bool>, owner: seq<int>, live: map<int, Req>) {
    && |free| == NUM && |owner| == NUM
    && (forall i :: Slot(i) ==> OwnedAt(free, owner, live, i))
    && (forall h :: h in live ==> ChainAt(owner, live, h))
  }

  /** A flag, 1 or 2, of a descriptor. */
  predicate Has(d: Desc, flag: nat)
    requires flag > 0
  {
    d.flags / flag % 2 == 1
  }

  /** What virtio_disk_rw writes for request r with head h. */
  ghost predicate Formatted(desc: seq<Desc>, ops: seq<Op>, info: seq<Info>, h: int, r: Req)
    requires |desc| == NUM && |ops| == NUM && |info| == NUM
  {
    Slot(h) && Slot(r.mid) && Slot(r.tail)
    && desc[h] == Desc(OpOf(h), 16, NEXT, r.mid)
    && desc[r.mid] == Desc(DataOf(r.b), BSIZE, if r.write then NEXT else WRITE + NEXT, r.tail)
    && desc[r.tail] == Desc(StatusOf(h), 1, WRITE, 0)
    && ops[h] == Op(r.write, r.sector) && info[h].b == r.b
  }

  /** Request r with head h as driver and device see it. */
  ghost predicate ReqOk(desc: seq<Desc>, ops: seq<Op>, info: seq<Info>, busy: set<nat>, h: int, r: Req) {
    && |desc| == NUM && |ops| == NUM && |info| == NUM && Formatted(desc, ops, info, h, r)
    && (r.b in busy <==> r.phase != Seen)
  }

  /** All live requests are, and no two use one buffer. */
  ghost predicate ReqsOk(desc: seq<Desc>, ops: seq<Op>, info: seq<Info>, busy: set<nat>, live: map<int, Req>) {
    && |desc| == NUM && |ops| == NUM && |info| == NUM
    && (forall h :: h in live ==> ReqOk(desc, ops, info, busy, h, live[h]))
    && (forall g, h :: g in live && h in live && g != h ==> live[g].b != live[h].b)
  }

  // ---- rings ------------------------------------------------------------------------------

  /** ring holds the entries of q at the counter values from n on. */
  ghost predicate OnRing(ring: seq<int>, n: nat, q: seq<int>) {
    |ring| == NUM && |q| <= NUM && forall k :: 0 <= k < |q| ==> ring[(n + k) % NUM] == q[k]
  }

  /** q holds exactly the heads in the given phase, each once. */
  ghost predicate Lists(q: seq<int>, live: map<int, Req>, phase: Phase) {
    && (forall h :: h in q <==> h in live && live[h].phase == phase)
    && (forall i, j :: 0 <= i < j < |q| ==> q[i] != q[j])
  }

  /** The device holds exactly the requests it is working on. */
  ghost predicate Holding(working: set<int>, live: map<int, Req>) {
    forall h :: h in working <==> h in live && live[h].phase == Working
  }

  /** Every live request names a buffer and a sector that exist. */
  ghost predicate Storable(live: map<int, Req>, data: map<nat, Block>, platter: map<nat, Block>) {
    forall h :: h in live ==> live[h].b in data && live[h].sector in platter
  }

  lemma StorablePut(live: map<int, Req>, data: map<nat, Block>, platter: map<nat, Block>, h: int, r: Req)
    requires Storable(live, data, platter)
    ensures h in live ==> live[h].b in data && live[h].sector in platter && Storable(live - {h}, data, platter)
    ensures r.b in data && r.sector in platter ==> Storable(live[h := r], data, platter)
  {
  }

  lemma HoldingTake(working: set<int>, live: map<int, Req>, h: int, r: Req)
    requires Holding(working, live) && r.phase == Working
    ensures Holding(working + {h}, live[h := r])
  {
  }

  lemma HoldingDrop(working: set<int>, live: map<int, Req>, h: int, r: Req)
    requires Holding(working, live) && r.phase != Working
    ensures Holding(working - {h}, live[h := r])
    ensures (h in live ==> live[h].phase != Working) ==> Holding(working, live[h := r])
  {
  }

  lemma HoldingGone(working: set<int>, live: map<int, Req>, h: int)
    requires Holding(working, live) && h in live && live[h].phase != Working
    ensures Holding(working, live - {h})
  {
  }

  ghost function Slots(n: nat): (r: set<int>)
    ensures |r| == n && forall i :: i in r <==> 0 <= i < n
  {
    if n == 0 then {} else Slots(n - 1) + {n - 1}
  }

  ghost function Chain(live: map<int, Req>, h: int): set<int>
    requires h in live
  {
    {h, live[h].mid, live[h].tail}
  }

  lemma ChainsDisjoint(owner: seq<int>, live: map<int, Req>, a: int, b: int)
    requires |owner| == NUM && a in live && b in live && ChainAt(owner, live, a) && ChainAt(owner, live, b)
    ensures |Chain(live, a)| == 3 && Chain(live, a) <= Slots(NUM)
    ensures a != b ==> Chain(live, a) !! Chain(live, b)
  {
    hide Slots;
  }

  /** Chains of three in a table of eight: no three requests are live. */
  lemma NoThreeLive(free: seq<bool>, owner: seq<int>, live: map<int, Req>, a: int, b: int, c: int)
    requires Partition(free, owner, live) && a in live && b in live && c in live
    ensures a == b || a == c || b == c
  {
    hide Chain; hide ChainAt; hide OwnedAt; hide Slots;
    ChainsDisjoint(owner, live, a, b);
    ChainsDisjoint(owner, live, b, c);
    ChainsDisjoint(owner, live, c, a);
    var all := Chain(live, a) + Chain(live, b) + Chain(live, c);
    assert Slots(NUM) == all + (Slots(NUM) - all);
    assert |Slots(NUM)| == |all| + |Slots(NUM) - all|;
    assert a != b && a != c && b != c ==> |all| == 9;
  }

  /** So neither ring ever holds more than two entries. */
  lemma AtMostTwo(free: seq<bool>, owner: seq<int>, live: map<int, Req>, q: seq<int>, phase: Phase)
    requires Partition(free, owner, live) && Lists(q, live, phase)
    ensures |q| <= 2
  {
    hide Partition;
    if |q| > 2 { NoThreeLive(free, owner, live, q[0], q[1], q[2]); }
  }

  lemma CounterSlot(n: nat)
    ensures n % WRAP % NUM == n % NUM
  {
  }

  /** The 16-bit counters differ exactly when entries are waiting. */
  lemma CountersDiffer(n: nat, k: nat)
    requires k < WRAP
    ensures n % WRAP == (n + k) % WRAP <==> k == 0
  {
  }

  lemma CounterNext(n: nat)
    ensures (n % WRAP + 1) % WRAP == (n + 1) % WRAP
  {
  }

  lemma RingPush(ring: seq<int>, n: nat, q: seq<int>, h: int)
    requires OnRing(ring, n, q) && |q| <= 2
    ensures OnRing(ring[(n + |q|) % NUM := h], n, q + [h])
  {
  }

  // ---- what each step does to the partition and the lists ---------------------------------

  lemma SubmitPartition(free: seq<bool>, owner: seq<int>, live: map<int, Req>, h: int, r: Req)
    requires Partition(free, owner, live) && Slot(h) && Slot(r.mid) && Slot(r.tail)
    requires h != r.mid && h != r.tail && r.mid != r.tail && free[h] && free[r.mid] && free[r.tail]
    ensures h !in live
    ensures Partition(free[h := false][r.mid := false][r.tail := false], owner[h := h][r.mid := h][r.tail := h],
              live[h := r])
  {
  }

  lemma FreePartition(free: seq<bool>, owner: seq<int>, live: map<int, Req>, h: int)
    requires Partition(free, owner, live) && h in live
    ensures ChainAt(owner, live, h) && !free[h] && !free[live[h].mid] && !free[live[h].tail]
    ensures var r := live[h];
            Partition(free[h := true][r.mid := true][r.tail := true], owner[h := -1][r.mid := -1][r.tail := -1],
                live - {h})
  {
  }

  lemma PhasePartition(free: seq<bool>, owner: seq<int>, live: map<int, Req>, h: int, phase: Phase)
    requires Partition(free, owner, live) && h in live
    ensures Partition(free, owner, live[h := live[h].(phase := phase)])
  {
  }

  /** A head that enters a phase joins its list at the end. */
  lemma ListPush(q: seq<int>, live: map<int, Req>, h: int, r: Req)
    requires Lists(q, live, r.phase) && (h in live ==> live[h].phase != r.phase)
    ensures Lists(q + [h], live[h := r], r.phase)
  {
  }

  /** The first head of a list leaves its phase. */
  lemma ListPop(q: seq<int>, live: map<int, Req>, phase: Phase, r: Req)
    requires Lists(q, live, phase) && q != [] && r.phase != phase
    ensures q[0] in live && Lists(q[1..], live[q[0] := r], phase)
  {
    assert q[0] in q;
    var live' := live[q[0] := r];
    forall g ensures g in q[1..] <==>
        g in live'
        && live'[g].phase == phase { assert g in q <==> g == q[0] || g in q[1..]; }
  }

  /** A head outside a phase changes to another outside it. */
  lemma ListSame(q: seq<int>, live: map<int, Req>, phase: Phase, h: int, r: Req)
    requires Lists(q, live, phase) && (h in live ==> live[h].phase != phase) && r.phase != phase
    ensures Lists(q, live[h := r], phase)
  {
  }

  /** Two requests fill the table: with at most one live, three descriptors are free. */
  lemma RoomForAnother(free: seq<bool>, owner: seq<int>, live: map<int, Req>)
    requires Partition(free, owner, live) && forall g, h :: g in live && h in live ==> g == h
    ensures exists i, j, k :: Slot(i) && Slot(j) && Slot(k) && i < j < k && free[i] && free[j] && free[k]
  {
    assert forall i :: Slot(i) ==> OwnedAt(free, owner, live, i);
    if h :| h in live {
      var r := live[h];
      assert forall i :: Slot(i) && i != h && i != r.mid && i != r.tail ==> free[i];
      ThreeOthers(h, r.mid, r.tail);
    } else {
      assert Slot(0) && Slot(1) && Slot(2);
    }
  }

  /** Requests whose descriptors were not written are as they were. */
  lemma ReqsFrame(desc: seq<Desc>, ops: seq<Op>, info: seq<Info>, busy: set<nat>, free: seq<bool>, owner: seq<int>,
                  live: map<int, Req>, desc': seq<Desc>, ops': seq<Op>, info': seq<Info>, busy': set<nat>,
                  live': map<int, Req>, h: int)
    requires Partition(free, owner, live) && ReqsOk(desc, ops, info, busy, live)
    requires |desc'| == NUM && |ops'| == NUM && |info'| == NUM
    requires forall g :: g != h ==> (g in live' <==> g in live) && (g in live ==> live'[g] == live[g])
    requires forall i :: Slot(i) && owner[i] != -1 && owner[i] != h ==>
               desc'[i] == desc[i] && ops'[i] == ops[i]
               && info'[i] == info[i]
    requires forall g :: g in live && g != h ==> (live[g].b in busy' <==> live[g].b in busy)
    requires h in live' ==> ReqOk(desc', ops', info', busy', h, live'[h]) && forall g :: g in live && g != h ==>
               live[g].b != live'[h].b
    ensures ReqsOk(desc', ops', info', busy', live')
  {
  }

  function Skip(x: int, a: int, b: int, c: int): int {
    if x != a && x != b && x != c then x
    else if x + 1 != a && x + 1 != b && x + 1 != c then x + 1
    else if x + 2 != a && x + 2 != b && x + 2 != c then x + 2
    else x + 3
  }

  lemma ThreeOthers(a: int, b: int, c: int)
    ensures exists i, j, k :: Slot(i) && Slot(j) && Slot(k) && i < j < k
              && i !in {a, b, c} && j !in {a, b, c} && k !in {a, b, c}
  {
    var i := Skip(0, a, b, c);
    var j := Skip(i + 1, a, b, c);
    var k := Skip(j + 1, a, b, c);
    assert Slot(i) && Slot(j) && Slot(k);
  }

  // ---- both rings ------------------------------------------------------------------------

  /** The two rings with their 16-bit counters: idx is where the producer writes next,
      at where the consumer reads next. */
  datatype Ring = Ring(slots: seq<int>, idx: nat, at: nat)

  /** The ring holds q, after n entries that have been consumed. */
  ghost predicate Carries(ring: Ring, n: nat, q: seq<int>) {
    OnRing(ring.slots, n, q) && ring.idx == (n + |q|) % WRAP && ring.at == n % WRAP
  }

  function Pushed(ring: Ring, h: int): Ring
    requires |ring.slots| == NUM
  {
    Ring(ring.slots[ring.idx % NUM := h], (ring.idx + 1) % WRAP, ring.at)
  }

  function Popped(ring: Ring): Ring {
    ring.(at := (ring.at + 1) % WRAP)
  }

  lemma PushCarries(ring: Ring, n: nat, q: seq<int>, h: int)
    requires Carries(ring, n, q) && |q| <= 2
    ensures |ring.slots| == NUM && Carries(Pushed(ring, h), n, q + [h])
  {
    CounterSlot(n + |q|);
    CounterNext(n + |q|);
    RingPush(ring.slots, n, q, h);
    hide OnRing;
  }

  /** The consumer sees an entry exactly when there is one, and it is the oldest. */
  lemma PopCarries(ring: Ring, n: nat, q: seq<int>)
    requires Carries(ring, n, q) && |q| <= 2
    ensures |ring.slots| == NUM && (ring.at != ring.idx <==> q != [])
    ensures q != [] ==> ring.slots[ring.at % NUM] == q[0] && Carries(Popped(ring), n + 1, q[1..])
  {
    CountersDiffer(n, |q|);
    CounterSlot(n);
    CounterNext(n);
  }
}

module VirtioCode {

  import opened Blocks
  import opened VirtioModel

  /** free0 after the descriptors in idx have been taken. */
  function Taken(free0: seq<bool>, idx: seq<int>): seq<bool> {
    seq(|free0|, i requires 0 <= i < |free0| => free0[i] && i !in idx)
  }

  /** What the device does next, if it can. */
  datatype DeviceAct = Reads | Completes(h: int, status: nat, torn: Block)

  ghost predicate ThreeFree(free: seq<bool>)
    requires |free| == NUM
  {
    exists i, j, k :: Slot(i) && Slot(j) && Slot(k) && i < j < k && free[i] && free[j] && free[k]
  }

  class Disk {

    var free: seq<bool>
    var desc: seq<Desc>
    var ops: seq<Op>
    var info: seq<Info>
    /** disk.avail, with how far the device has read it. */
    var avail: Ring
    /** disk.used, with disk.used_idx. */
    var used: Ring
    /** Heads the device has read and not yet completed. */
    var working: set<int>
    /** Buffers with b->disk set. */
    var busy: set<nat>
    var data: map<nat, Block>
    var platter: map<nat, Block>

    ghost var owner: seq<int>
    ghost var live: map<int, Req>
    /** Heads in the available ring that the device has not read. */
    ghost var queued: seq<int>
    /** Heads in the used ring that the driver has not read. */
    ghost var done: seq<int>
    /** Entries ever read by the device, and by the driver. */
    ghost var taken: nat
    ghost var seen: nat

    ghost predicate RingsOk()
      reads this
    {
      && Carries(avail, taken, queued) && Lists(queued, live, Queued)
      && Carries(used, seen, done) && Lists(done, live, Done)
      && Holding(working, live)
    }

    ghost predicate Valid()
      reads this
    {
      && Partition(free, owner, live) && ReqsOk(desc, ops, info, busy, live) && RingsOk()
      && Storable(live, data, platter)
    }

    /** virtio_disk_init(): every descriptor is free. */
    constructor (bufs: map<nat, Block>, disk: map<nat, Block>)
      ensures Valid() && live == map[] && data == bufs && platter == disk && busy == {}
    {
      free := seq(NUM, _ => true);
      desc := seq(NUM, _ => Desc(Nowhere, 0, 0, 0));
      ops := seq(NUM, _ => Op(false, 0));
      info := seq(NUM, _ => Info(-1, 0));
      avail, used := Ring(seq(NUM, _ => 0), 0, 0), Ring(seq(NUM, _ => 0), 0, 0);
      working, busy, data, platter := {}, {}, bufs, disk;
      owner := seq(NUM, _ => -1);
      live, queued, done, taken, seen := map[], [], [], 0, 0;
    }

    /** alloc_desc(): the first free descriptor, now taken, or -1. */
    method AllocDesc() returns (r: int)
      requires |free| == NUM
      modifies this`free
      ensures r == -1 ==> free == old(free) && forall i :: Slot(i) ==> !free[i]
      ensures r != -1 ==> Slot(r) && old(free)[r] && free == old(free)[r := false]
    {
      var i := 0;
      while i < NUM
        invariant 0 <= i <= NUM && free == old(free) && forall k :: 0 <= k < i ==> !free[k]
      {
        if free[i] {
          free := free[i := false];
          return i;
        }
        i := i + 1;
      }
      return -1;
    }

    /** free_desc(): the two panics are the precondition. */
    method FreeDesc(i: int)
      requires |free| == NUM && |desc| == NUM && Slot(i) && !free[i]
      modifies this`free, this`desc
      ensures free == old(free)[i := true] && desc == old(desc)[i := Desc(Nowhere, 0, 0, 0)]
    {
      desc := desc[i := Desc(Nowhere, 0, 0, 0)];
      free := free[i := true];
    }

    /** alloc3_desc(): three free descriptors, or nothing changes but the contents of
        free descriptors. */
    method Alloc3Desc() returns (ok: bool, idx: seq<int>)
      requires |free| == NUM && |desc| == NUM
      modifies this`free, this`desc
      ensures ok <==> ThreeFree(old(free))
      ensures |free| == NUM && |desc| == NUM
      ensures ok ==> |idx| == 3 && idx[0] != idx[1] && idx[0] != idx[2] && idx[1] != idx[2]
                     && (forall k :: 0 <= k < 3 ==> Slot(idx[k]) && old(free)[idx[k]])
                     && free == old(free)[idx[0] := false][idx[1] := false][idx[2] := false] && desc == old(desc)
      ensures !ok ==> free == old(free) && forall i :: Slot(i) && !free[i] ==> desc[i] == old(desc)[i]
    {
      var i := 0;
      idx := [];
      ghost var free0 := free;
      while i < 3
        invariant 0 <= i <= 3 && |idx| == i && |free| == NUM && |desc| == NUM && desc == old(desc)
        invariant free == Taken(free0, idx)
        invariant forall k :: 0 <= k < i ==> Slot(idx[k]) && free0[idx[k]]
        invariant forall j, k :: 0 <= j < k < i ==> idx[j] != idx[k]
      {
        var d := AllocDesc();
        if d < 0 {
          GiveBack(free0, idx);
          NoneLeft(free0, idx);
          return false, idx;
        }
        assert d !in idx;
        idx := idx + [d];
        i := i + 1;
      }
      ok := true;
      assert free == free0[idx[0] := false][idx[1] := false][idx[2] := false];
      ThreeSorted(free0, idx[0], idx[1], idx[2]);
    }

    /** The inner loop of alloc3_desc. */
    method GiveBack(ghost free0: seq<bool>, idx: seq<int>)
      requires |free| == NUM == |free0| && |desc| == NUM && free == Taken(free0, idx)
      requires forall k :: 0 <= k < |idx| ==> Slot(idx[k]) && free0[idx[k]]
      requires forall j, k :: 0 <= j < k < |idx| ==> idx[j] != idx[k]
      modifies this`free, this`desc
      ensures free == free0 && |desc| == NUM && forall i :: Slot(i) && !free0[i] ==> desc[i] == old(desc)[i]
    {
      var j := 0;
      while j < |idx|
        invariant 0 <= j <= |idx| && free == Taken(free0, idx[j..]) && |desc| == NUM
        invariant forall i :: Slot(i) && !free0[i] ==> desc[i] == old(desc)[i]
      {
        assert idx[j] in idx[j..];
        FreeDesc(idx[j]);
        assert forall i :: i in idx[j..] <==> i == idx[j] || i in idx[j + 1..];
        assert idx[j] !in idx[j + 1..];
        j := j + 1;
      }
    }

    /** Writes the three descriptors of a request and its bookkeeping. */
    method Format(b: nat, sector: nat, write: bool, h: int, mid: int, tail: int)
      requires |desc| == NUM && |ops| == NUM && |info| == NUM && Slot(h) && Slot(mid) && Slot(tail)
      requires h != mid && h != tail && mid != tail
      modifies this`desc, this`ops, this`info, this`busy
      ensures |desc| == NUM && |ops| == NUM && |info| == NUM && busy == old(busy) + {b}
      ensures ReqOk(desc, ops, info, busy, h, Req(b, mid, tail, write, sector, Queued))
      ensures forall i :: Slot(i) && i != h && i != mid && i != tail ==>
                desc[i] == old(desc)[i] && ops[i] == old(ops)[i] && info[i] == old(info)[i]
    {
      ops := ops[h := Op(write, sector)];
      desc := desc[h := Desc(OpOf(h), 16, NEXT, mid)];
      desc := desc[mid := Desc(DataOf(b), BSIZE, if write then NEXT else WRITE + NEXT, tail)];
      info := info[h := Info(b, 0xff)];
      desc := desc[tail := Desc(StatusOf(h), 1, WRITE, 0)];
      busy := busy + {b};
    }

    /** Puts h in the available ring; the ring is never full. */
    method Publish(h: int, ghost r: Req, ghost free0: seq<bool>)
      requires Partition(free0, owner, live) && RingsOk() && h !in live && r.phase == Queued
      modifies this`avail, this`live, this`queued
      ensures live == old(live)[h := r] && queued == old(queued) + [h] && RingsOk()
    {
      hide Partition; hide Carries; hide Lists; hide Pushed; hide Holding;
      AtMostTwo(free0, owner, live, queued, Queued);
      HoldingDrop(working, live, h, r);
      PushCarries(avail, taken, queued, h);
      ListPush(queued, live, h, r);
      ListSame(done, live, Done, h, r);
      avail := Pushed(avail, h);
      live, queued := live[h := r], queued + [h];
    }

    lemma Full()
      requires Partition(free, owner, live) && !ThreeFree(free)
      ensures exists g, g' :: g in live && g' in live && g != g'
    {
      if forall g, h :: g in live && h in live ==> g == h { RoomForAnother(free, owner, live); }
    }

    /** From three descriptors taken off free0 to a published request. */
    method Enqueue(b: nat, sector: nat, write: bool, h: int, mid: int, tail: int, ghost free0: seq<bool>)
      requires Partition(free0, owner, live) && ReqsOk(desc, ops, info, busy, live) && RingsOk()
      requires Storable(live, data, platter)
      requires Slot(h) && Slot(mid) && Slot(tail) && h != mid && h != tail && mid != tail && |free0| == NUM == |owner|
      requires free0[h] && free0[mid] && free0[tail] && free == free0[h := false][mid := false][tail := false]
      requires b in data && sector in platter && b !in busy && forall g :: g in live ==> live[g].b != b
      modifies this
      ensures Valid() && data == old(data) && platter == old(platter) && busy == old(busy) + {b}
      ensures h !in old(live) && live == old(live)[h := Req(b, mid, tail, write, sector, Queued)]
    {
      hide Partition; hide ReqsOk; hide Carries; hide Lists; hide ReqOk; hide Holding;
      ghost var desc0, ops0, info0, busy0 := desc, ops, info, busy;
      ghost var r := Req(b, mid, tail, write, sector, Queued);
      SubmitPartition(free0, owner, live, h, r);
      ReqLengths(desc, ops, info, busy, live);
      Format(b, sector, write, h, mid, tail);
      SubmitReqs(desc0, ops0, info0, busy0, free0, owner, live, desc, ops, info, h, r);
      Publish(h, r, free0);
      owner := owner[h := h][mid := h][tail := h];
    }

    /** The first part of virtio_disk_rw: -1 means that the caller must sleep. */
    method Submit(b: nat, blockno: nat, write: bool) returns (h: int)
      requires Valid() && b in data && blockno * 2 in platter && b !in busy && forall g :: g in live ==> live[g].b != b
      modifies this
      ensures Valid() && data == old(data) && platter == old(platter)
      ensures h == -1 ==> live == old(live) && busy == old(busy) && exists g, g' :: g in live && g' in live && g != g'
      ensures h != -1 ==> h !in old(live) && h in live && live == old(live)[h := live[h]] && busy == old(busy) + {b}
                          && live[h].b == b && live[h].write == write && live[h].sector == blockno * 2
                              && live[h].phase == Queued
    {
      hide Partition; hide ReqsOk; hide Carries; hide Lists; hide Holding; hide Storable;
      Shapes();
      ghost var desc0, free0 := desc, free;
      var ok, idx := Alloc3Desc();
      if ok {
        h := idx[0];
        Enqueue(b, blockno * 2, write, h, idx[1], idx[2], free0);
      } else {
        Full();
        OwnedNotFree(free, owner, live);
        ReqsFrame(desc0, ops, info, busy, free, owner, live, desc, ops, info, busy, live, -1);
        h := -1;
      }
    }

    // ---- the device --------------------------------------------------------------------

    /** The device reads the next entry of the available ring. */
    method Take() returns (h: int)
      requires Valid() && avail.at != avail.idx
      modifies this`avail, this`working, this`live, this`queued, this`taken
      ensures Valid() && old(queued) != [] && h == old(queued)[0] && queued == old(queued)[1..]
      ensures h in old(live) && old(live)[h].phase == Queued && live == old(live)[h := old(live)[h].(phase := Working)]
    {
      hide Partition; hide ReqsOk; hide Carries; hide Lists; hide Popped; hide Holding; hide Storable;
      AtMostTwo(free, owner, live, queued, Queued);
      PopCarries(avail, taken, queued);
      h := avail.slots[avail.at % NUM];
      ListHead(queued, live, Queued);
      ghost var r := live[h].(phase := Working);
      HoldingTake(working, live, h, r);
      StorablePut(live, data, platter, h, r);
      ListPop(queued, live, Queued, r);
      ListSame(done, live, Done, h, r);
      PhasePartition(free, owner, live, h, Working);
      WorkingReqs(desc, ops, info, busy, free, owner, live, h);
      avail, working := Popped(avail), working + {h};
      live, queued, taken := live[h := r], queued[1..], taken + 1;
    }

    /** The used ring entry for a request the device has carried out. */
    method PutUsed(h: int)
      requires Partition(free, owner, live) && RingsOk() && h in live && live[h].phase == Working
      modifies this`used, this`working, this`live, this`done
      ensures live == old(live)[h := old(live)[h].(phase := Done)] && done == old(done) + [h] && RingsOk()
      ensures Partition(free, owner, live)
    {
      hide Partition; hide Carries; hide Lists; hide Pushed; hide Holding;
      AtMostTwo(free, owner, live, done, Done);
      ghost var r := live[h].(phase := Done);
      HoldingDrop(working, live, h, r);
      PushCarries(used, seen, done, h);
      ListPush(done, live, h, r);
      ListSame(queued, live, Queued, h, r);
      PhasePartition(free, owner, live, h, Done);
      used, working := Pushed(used, h), working - {h};
      live, done := live[h := r], done + [h];
    }

    /** The device carries out the request at h by following its descriptors, writes the
        status byte and puts h in the used ring, which is never full.  It goes on to the next
        descriptor only if NEXT is set, stores only where WRITE is set and reads only where it
        is not.  If it reports a failure it may have stored anything where the request pointed. */
    method Complete(h: int, status: nat, torn: Block)
      requires Valid() && h in live && live[h].phase == Working
      modifies this`platter, this`data, this`info, this`used, this`working, this`live, this`done
      ensures Valid() && live == old(live)[h := old(live)[h].(phase := Done)] && done == old(done) + [h]
      ensures Slot(h) && |info| == NUM && info == old(info)[h := old(info)[h].(status := status)]
      ensures var r := old(live)[h];
              if r.write
              then data == old(data)
                   && platter == old(platter)[r.sector := if status == 0 then old(data)[r.b] else torn]
              else platter == old(platter)
                   && data == old(data)[r.b := if status == 0 then old(platter)[r.sector] else torn]
    {
      hide Partition; hide ReqsOk; hide Carries; hide Lists; hide ReqOk; hide Holding;
      OneReq(desc, ops, info, busy, live, h);
      CompleteReqs(desc, ops, info, busy, free, owner, live, h, status);
      var first := desc[h];
      var op := ops[first.addr.i];
      var second := desc[first.next];
      var third := desc[second.next];
      var chained := first.len == 16 && Has(first, NEXT) && second.len == BSIZE && Has(second, NEXT);
      if chained && op.write && !Has(second, WRITE) {
        platter := platter[op.sector := if status == 0 then data[second.addr.b] else torn];
      } else if chained && !op.write && Has(second, WRITE) {
        data := data[second.addr.b := if status == 0 then platter[op.sector] else torn];
      }
      if third.len == 1 && Has(third, WRITE) && !Has(third, NEXT) {
        info := info[third.addr.i := info[third.addr.i].(status := status)];
      }
      PutUsed(h);
    }

    // ---- completion ----------------------------------------------------------------------

    /** The driver moves past the oldest entry of the used ring. */
    method PopUsed() returns (h: int)
      requires Partition(free, owner, live) && RingsOk() && used.at != used.idx
      modifies this`used, this`live, this`done, this`seen
      ensures old(done) != [] && h == old(done)[0] && h in old(live) && old(live)[h].phase == Done
      ensures live == old(live)[h := old(live)[h].(phase := Seen)] && done == old(done)[1..] && RingsOk()
      ensures Partition(free, owner, live)
    {
      hide Partition; hide Carries; hide Lists; hide Popped; hide Holding;
      AtMostTwo(free, owner, live, done, Done);
      PopCarries(used, seen, done);
      h := used.slots[used.at % NUM];
      ListHead(done, live, Done);
      ghost var r := live[h].(phase := Seen);
      HoldingDrop(working, live, h, r);
      ListPop(done, live, Done, r);
      ListSame(queued, live, Queued, h, r);
      PhasePartition(free, owner, live, h, Seen);
      used := Popped(used);
      live, done, seen := live[h := r], done[1..], seen + 1;
    }

    /** The entry that the driver reads next. */
    method NextUsed() returns (h: int)
      requires Valid() && used.at != used.idx
      ensures done != [] && h == done[0] && h in live && live[h].phase == Done
      ensures |info| == NUM && Slot(h) && info[h].b == live[h].b
    {
      hide Partition; hide ReqsOk; hide Carries; hide Lists; hide Holding; hide Storable;
      AtMostTwo(free, owner, live, done, Done);
      PopCarries(used, seen, done);
      h := used.slots[used.at % NUM];
      ListHead(done, live, Done);
      DoneInfo(desc, ops, info, busy, live, h);
    }

    /** One iteration of virtio_disk_intr: the oldest completion clears its own buffer,
        unless its status is a failure, where the driver panics. */
    method SeeOne() returns (ok: bool)
      requires Valid() && used.at != used.idx
      modifies this`used, this`busy, this`live, this`done, this`seen
      ensures Valid() && |info| == NUM && old(done) != [] && Slot(old(done)[0]) && old(done)[0] in old(live)
      ensures old(live)[old(done)[0]].phase == Done && (ok <==> info[old(done)[0]].status == 0)
      ensures ok ==> done == old(done)[1..]
      ensures ok ==> var h := old(done)[0];
                     live == old(live)[h := old(live)[h].(phase := Seen)] && busy == old(busy) - {old(live)[h].b}
      ensures !ok ==> live == old(live) && busy == old(busy) && done == old(done)
    {
      hide Partition; hide ReqsOk; hide Carries; hide Lists; hide Holding; hide Storable;
      var id := NextUsed();
      if info[id].status != 0 {
        return false;
      }
      var b: nat := info[id].b;
      SeenReqs(desc, ops, info, busy, free, owner, live, id);
      StorablePut(live, data, platter, id, live[id].(phase := Seen));
      var id1 := PopUsed();
      busy := busy - {b};
      return true;
    }

    /** Some steps of the device. */
    method DeviceActs(acts: seq<DeviceAct>)
      requires Valid()
      modifies this`avail, this`used, this`platter, this`data, this`info, this`working, this`live, this`queued
      modifies this`done, this`taken
      ensures Valid() && old(done) <= done
      ensures DeviceMoved(old(live), old(info), old(data), live, info, data)
    {
      hide Partition; hide ReqsOk; hide Carries; hide Lists; hide Holding; hide Storable; hide DeviceMoved; hide Valid;
      DeviceStill(live, info, data);
      for i := 0 to |acts|
        invariant Valid() && old(done) <= done
        invariant DeviceMoved(old(live), old(info), old(data), live, info, data)
      {
        ghost var live1, info1, data1 := live, info, data;
        DeviceStep(acts[i]);
        DeviceMovedTwice(old(live), old(info), old(data), live1, info1, data1, live, info, data);
      }
    }

    /** The device reads a request, or completes one of those it has read. */
    method DeviceStep(act: DeviceAct)
      requires Valid()
      modifies this`avail, this`used, this`platter, this`data, this`info, this`working, this`live, this`queued
      modifies this`done, this`taken
      ensures Valid() && old(done) <= done
      ensures DeviceMoved(old(live), old(info), old(data), live, info, data)
    {
      hide Partition; hide ReqsOk; hide Carries; hide Lists;
      DeviceStill(live, info, data);
      if act.Reads? {
        if avail.at != avail.idx {
          var h := Take();
        }
      } else if act.h in working {
        BuffersApart(desc, ops, info, busy, live);
        Complete(act.h, act.status, act.torn);
      }
    }

    /** No request that completed since live0 has failed. */
    ghost predicate AllSucceeded(live0: map<int, Req>)
      reads this
    {
      |info| == NUM && forall h :: h in live && h in live0 && Completed(live0[h].phase, live[h].phase) ==>
                                     Slot(h) && info[h].status == 0
    }

    /** virtio_disk_intr(), with the device going on meanwhile: the loop ends, whatever the
        device does.  It panics exactly when a request that completed, before or during the
        call, has failed.  Otherwise at the end every completion has been seen, exactly the
        buffers of the requests seen have been cleared, and what was read for a request
        already completed at the start is still in its buffer. */
    method Intr(device: nat -> seq<DeviceAct>) returns (ok: bool)
      requires Valid()
      modifies this`avail, this`used, this`platter, this`data, this`info, this`working, this`live, this`queued
      modifies this`done, this`taken, this`busy, this`seen
      ensures Valid() && live.Keys == old(live).Keys && (ok <==> AllSucceeded(old(live)))
      ensures forall h :: h in live ==> Later(old(live)[h], live[h])
      ensures ok ==> done == [] && forall h :: h in live && old(live)[h].phase == Done ==> live[h].phase == Seen
      ensures forall b :: b in busy <==>
                b in old(busy) && !exists h :: h in live && live[h].phase == Seen && live[h].b == b
      ensures forall h :: h in live && old(live)[h].phase == Done ==>
                var b := live[h].b; b in data && b in old(data) && data[b] == old(data)[b]
    {
      hide Partition; hide ReqsOk; hide Carries; hide Lists; hide Holding; hide Storable; hide DeviceMoved;
      hide Watched;
      ghost var live0, busy0, data0 := live, busy, data;
      WatchStart(desc, ops, info, busy, live, data, platter);
      var k := 0;
      ghost var info1, live1, data1 := info, live, data;
      DeviceActs(device(0));
      WatchDevice(live0, busy0, data0, live1, info1, busy, data1, live, info, data);
      UsedIffDone();
      while used.at != used.idx
        invariant Valid() && Watched(live0, busy0, data0, live, info, busy, data)
        invariant used.at != used.idx <==> done != []
        decreases Unseen(live)
      {
        info1, live1, data1 := info, live, data;
        DeviceActs(device(2 * k + 1));
        WatchDevice(live0, busy0, data0, live1, info1, busy, data1, live, info, data);
        UsedIffDone();
        ghost var live2, busy2, h := live, busy, done[0];
        ok := SeeOne();
        if !ok {
          WatchPanic(live0, busy0, data0, live, info, busy, data, h);
          WatchEnd(desc, ops, live0, busy0, data0, live, info, busy, data);
          return false;
        }
        WatchSeen(live0, busy0, data0, live2, info, busy2, data, h);
        k := k + 1;
        info1, live1, data1 := info, live, data;
        DeviceActs(device(2 * k));
        WatchDevice(live0, busy0, data0, live1, info1, busy, data1, live, info, data);
        UsedIffDone();
      }
      WatchEnd(desc, ops, live0, busy0, data0, live, info, busy, data);
      WatchDone(live0, busy0, data0, live, info, busy, data, done);
      return true;
    }

    lemma UsedIffDone()
      requires Valid()
      ensures used.at != used.idx <==> done != []
    {
      hide Partition; hide Carries; hide Lists; hide ReqsOk;
      AtMostTwo(free, owner, live, done, Done);
      PopCarries(used, seen, done);
    }

    /** free_chain() on the chain of request r with head h. */
    method FreeChain(h: int, ghost r: Req)
      requires |free| == NUM && |desc| == NUM
      requires Slot(h) && Slot(r.mid) && Slot(r.tail) && h != r.mid && h != r.tail && r.mid != r.tail
      requires desc[h].flags % 2 == 1 && desc[h].next == r.mid && desc[r.mid].flags % 2 == 1
                 && desc[r.mid].next == r.tail
      requires desc[r.tail].flags % 2 == 0
      requires !free[h] && !free[r.mid] && !free[r.tail]
      modifies this`free, this`desc
      ensures |desc| == NUM && free == old(free)[h := true][r.mid := true][r.tail := true]
      ensures forall i :: Slot(i) && i != h && i != r.mid && i != r.tail ==> desc[i] == old(desc)[i]
    {
      var i := h;
      ghost var n, chain := 0, [h, r.mid, r.tail];
      while true
        invariant 0 <= n < 3 && i == chain[n] && |free| == NUM && |desc| == NUM
        invariant forall k :: Slot(k) ==> free[k] == (old(free)[k] || k in chain[..n])
        invariant forall k :: Slot(k) && k !in chain[..n] ==> desc[k] == old(desc)[k]
        decreases 3 - n
      {
        var flag, nxt := desc[i].flags, desc[i].next;
        FreeDesc(i);
        assert chain[..n + 1] == chain[..n] + [i];
        assert forall k :: Slot(k) ==> free[k] == (old(free)[k] || k in chain[..n + 1]);
        if flag % 2 == 1 {
          i := nxt;
          n := n + 1;
        } else {
          break;
        }
      }
      assert n == 2 && chain[..3] == chain;
      ghost var freed := old(free)[h := true][r.mid := true][r.tail := true];
      forall k | 0 <= k < NUM ensures free[k] == freed[k] { assert Slot(k); }
    }

    /** The last part of virtio_disk_rw, once the buffer has been cleared. */
    method Finish(b: nat, h: int)
      requires Valid() && h in live && live[h].b == b && b !in busy
      modifies this
      ensures Valid() && live == old(live) - {h} && busy == old(busy) && data == old(data) && platter == old(platter)
      ensures 0 <= h < |info| && info[h].b == -1
    {
      hide Partition; hide ReqsOk; hide Carries; hide Lists; hide Holding; hide Storable;
      OneReq(desc, ops, info, busy, live, h);
      HoldingGone(working, live, h);
      StorablePut(live, data, platter, h, live[h]);
      OwnerLength(free, owner, live, h);
      FreePartition(free, owner, live, h);
      ghost var r, desc0, info0 := live[h], desc, info;
      ListsWithout(queued, done, live, h);
      info := info[h := info[h].(b := -1)];
      FreeChain(h, r);
      FinishReqs(desc0, ops, info0, busy, owner, live, desc, info, h);
      owner := owner[h := -1][r.mid := -1][r.tail := -1];
      live := live - {h};
    }

    lemma Shapes()
      requires Valid()
      ensures |free| == NUM && |owner| == NUM && |desc| == NUM && |ops| == NUM && |info| == NUM && -1 !in live
    {
    }
  }

  lemma SubmitReqs(desc: seq<Desc>, ops: seq<Op>, info: seq<Info>, busy: set<nat>, free: seq<bool>,
                   owner: seq<int>, live: map<int, Req>, desc': seq<Desc>, ops': seq<Op>, info': seq<Info>, h: int,
                   r: Req)
    requires Partition(free, owner, live) && ReqsOk(desc, ops, info, busy, live) && h !in live
    requires |desc'| == NUM && |ops'| == NUM && |info'| == NUM && ReqOk(desc', ops', info', busy + {r.b}, h, r)
    requires free[h] && free[r.mid] && free[r.tail] && forall g :: g in live ==> live[g].b != r.b
    requires forall i :: Slot(i) && i != h && i != r.mid && i != r.tail ==>
               desc'[i] == desc[i] && ops'[i] == ops[i]
               && info'[i] == info[i]
    ensures ReqsOk(desc', ops', info', busy + {r.b}, live[h := r])
  {
  }

  lemma ListHead(q: seq<int>, live: map<int, Req>, phase: Phase)
    requires Lists(q, live, phase) && q != []
    ensures q[0] in live && live[q[0]].phase == phase
  {
  }

  lemma OneReq(desc: seq<Desc>, ops: seq<Op>, info: seq<Info>, busy: set<nat>, live: map<int, Req>, h: int)
    requires ReqsOk(desc, ops, info, busy, live) && h in live
    ensures |desc| == NUM && |ops| == NUM && |info| == NUM && Formatted(desc, ops, info, h, live[h])
    ensures live[h].b in busy <==> live[h].phase != Seen
  {
  }

  lemma DoneInfo(desc: seq<Desc>, ops: seq<Op>, info: seq<Info>, busy: set<nat>, live: map<int, Req>, h: int)
    requires ReqsOk(desc, ops, info, busy, live) && h in live && live[h].phase == Done
    ensures |info| == NUM && Slot(h) && info[h].b == live[h].b
  {
  }

  lemma SeenReqs(desc: seq<Desc>, ops: seq<Op>, info: seq<Info>, busy: set<nat>, free: seq<bool>, owner: seq<int>,
                 live: map<int, Req>, h: int)
    requires Partition(free, owner, live) && ReqsOk(desc, ops, info, busy, live) && h in live && live[h].phase == Done
    ensures ReqsOk(desc, ops, info, busy - {live[h].b}, live[h := live[h].(phase := Seen)])
  {
  }

  lemma FinishReqs(desc: seq<Desc>, ops: seq<Op>, info: seq<Info>, busy: set<nat>, owner: seq<int>, live: map<int,
                   Req>, desc': seq<Desc>, info': seq<Info>, h: int)
    requires |owner| == NUM && h in live && (forall g :: g in live ==> ChainAt(owner, live, g))
               && ReqsOk(desc, ops, info, busy, live)
    requires |desc'| == NUM && |info'| == NUM
    requires forall i :: Slot(i) && i != h && i != live[h].mid && i != live[h].tail ==>
               desc'[i] == desc[i]
               && info'[i] == info[i]
    ensures ReqsOk(desc', ops, info', busy, live - {h})
  {
  }

  lemma ListsWithout(queued: seq<int>, done: seq<int>, live: map<int, Req>, h: int)
    requires Lists(queued, live, Queued) && Lists(done, live, Done) && h in live && live[h].phase == Seen
    ensures Lists(queued, live - {h}, Queued) && Lists(done, live - {h}, Done)
  {
  }

  lemma OwnerLength(free: seq<bool>, owner: seq<int>, live: map<int, Req>, h: int)
    requires Partition(free, owner, live) && h in live
    ensures |free| == NUM && |owner| == NUM && ChainAt(owner, live, h) && forall g :: g in live ==>
              ChainAt(owner, live, g)
  {
  }

  // ---- an interrupt, step by step ---------------------------------------------------------

  function Rank(phase: Phase): nat {
    match phase
    case Queued => 0
    case Working => 1
    case Done => 2
    case Seen => 3
  }

  /** The same request, at least as far. */
  predicate Later(r0: Req, r: Req) { r == r0.(phase := r.phase) && Rank(r0.phase) <= Rank(r.phase) }

  /** It was not yet seen at first and is completed now. */
  predicate Completed(phase0: Phase, phase: Phase) { phase0 != Seen && Rank(phase) >= 2 }

  /** What the device may do: requests go on, up to Done; those that are there already, their
      status and their data stay. */
  ghost predicate DeviceMoved(live0: map<int, Req>, info0: seq<Info>, data0: map<nat, Block>, live: map<int, Req>,
                              info: seq<Info>, data: map<nat, Block>)
  {
    && live.Keys == live0.Keys && |info| == |info0| && data.Keys == data0.Keys
    && (forall h :: h in live ==> Later(live0[h], live[h]) && (live[h].phase == Seen ==> live0[h].phase == Seen))
    && (forall h :: h in live && Rank(live0[h].phase) >= 2 && 0 <= h < |info| ==> info[h] == info0[h])
    && (forall h :: h in live && Rank(live0[h].phase) >= 2 && live[h].b in data ==> data[live[h].b] == data0[live[h].b])
  }

  lemma DeviceStill(live: map<int, Req>, info: seq<Info>, data: map<nat, Block>)
    ensures DeviceMoved(live, info, data, live, info, data)
  {
  }

  lemma DeviceMovedTwice(live0: map<int, Req>, info0: seq<Info>, data0: map<nat, Block>, live1: map<int, Req>,
                         info1: seq<Info>, data1: map<nat, Block>, live2: map<int, Req>, info2: seq<Info>,
                         data2: map<nat, Block>)
    requires DeviceMoved(live0, info0, data0, live1, info1, data1)
    requires DeviceMoved(live1, info1, data1, live2, info2, data2)
    ensures DeviceMoved(live0, info0, data0, live2, info2, data2)
  {
  }

  lemma BuffersApart(desc: seq<Desc>, ops: seq<Op>, info: seq<Info>, busy: set<nat>, live: map<int, Req>)
    requires ReqsOk(desc, ops, info, busy, live)
    ensures |info| == NUM && forall g, h :: g in live && h in live && g != h ==> live[g].b != live[h].b
  {
  }

  /** Between the start of an interrupt and now: requests went on, those seen had succeeded,
      and other buffers are as they were. */
  ghost predicate Watched(live0: map<int, Req>, busy0: set<nat>, data0: map<nat, Block>, live: map<int, Req>,
                          info: seq<Info>, busy: set<nat>, data: map<nat, Block>)
  {
    && live.Keys == live0.Keys && |info| == NUM && data.Keys == data0.Keys
    && (forall h :: h in live ==>
          Slot(h) && Later(live0[h], live[h]) && (live0[h].b in busy0 <==> live0[h].phase != Seen))
    && (forall h :: h in live && live[h].phase == Seen && live0[h].phase != Seen ==> info[h].status == 0)
    && (forall b :: (forall h :: h in live ==> live[h].b != b) ==> (b in busy <==> b in busy0))
    && (forall h :: h in live && Rank(live0[h].phase) >= 2 ==>
          live[h].b in data && data[live[h].b] == data0[live[h].b])
  }

  lemma WatchStart(desc: seq<Desc>, ops: seq<Op>, info: seq<Info>, busy: set<nat>, live: map<int, Req>,
                   data: map<nat, Block>, platter: map<nat, Block>)
    requires ReqsOk(desc, ops, info, busy, live) && Storable(live, data, platter)
    ensures Watched(live, busy, data, live, info, busy, data)
  {
  }

  lemma WatchDevice(live0: map<int, Req>, busy0: set<nat>, data0: map<nat, Block>, live1: map<int, Req>,
                    info1: seq<Info>, busy: set<nat>, data1: map<nat, Block>, live: map<int, Req>, info: seq<Info>,
                    data: map<nat, Block>)
    requires Watched(live0, busy0, data0, live1, info1, busy, data1)
    requires DeviceMoved(live1, info1, data1, live, info, data)
    ensures Watched(live0, busy0, data0, live, info, busy, data) && Unseen(live) == Unseen(live1)
  {
    forall h | h in live ensures h in live1 && (live[h].phase == Seen <==> live1[h].phase == Seen) {
      assert h in live.Keys && Rank(live1[h].phase) <= Rank(live[h].phase);
    }
    forall h | h in live1 ensures h in live { assert h in live1.Keys; }
    assert (set h | h in live && live[h].phase != Seen) == (set h | h in live1 && live1[h].phase != Seen);
  }

  lemma WatchSeen(live0: map<int, Req>, busy0: set<nat>, data0: map<nat, Block>, live: map<int, Req>,
                  info: seq<Info>, busy: set<nat>, data: map<nat, Block>, h: int)
    requires Watched(live0, busy0, data0, live, info, busy, data) && h in live && live[h].phase == Done
    requires Slot(h) && |info| == NUM && info[h].status == 0
    ensures var live' := live[h := live[h].(phase := Seen)];
            Watched(live0, busy0, data0, live', info, busy - {live[h].b}, data) && Unseen(live') < Unseen(live)
  {
    var live' := live[h := live[h].(phase := Seen)];
    var unseen := set g | g in live && live[g].phase != Seen;
    assert (set g | g in live' && live'[g].phase != Seen) == unseen - {h} && h in unseen;
  }

  lemma WatchPanic(live0: map<int, Req>, busy0: set<nat>, data0: map<nat, Block>, live: map<int, Req>,
                   info: seq<Info>, busy: set<nat>, data: map<nat, Block>, h: int)
    requires Watched(live0, busy0, data0, live, info, busy, data) && h in live && live[h].phase == Done
    ensures h in live0 && Completed(live0[h].phase, live[h].phase)
  {
  }

  lemma WatchEnd(desc: seq<Desc>, ops: seq<Op>, live0: map<int, Req>, busy0: set<nat>, data0: map<nat, Block>,
                 live: map<int, Req>, info: seq<Info>, busy: set<nat>, data: map<nat, Block>)
    requires Watched(live0, busy0, data0, live, info, busy, data) && ReqsOk(desc, ops, info, busy, live)
    ensures live.Keys == live0.Keys && forall h :: h in live ==> Later(live0[h], live[h])
    ensures forall b :: b in busy <==> b in busy0 && !exists h :: h in live && live[h].phase == Seen && live[h].b == b
    ensures forall h :: h in live && live0[h].phase == Done ==>
              var b := live[h].b; b in data && b in data0 && data[b] == data0[b]
  {
  }

  lemma WatchDone(live0: map<int, Req>, busy0: set<nat>, data0: map<nat, Block>, live: map<int, Req>,
                  info: seq<Info>, busy: set<nat>, data: map<nat, Block>, done: seq<int>)
    requires Watched(live0, busy0, data0, live, info, busy, data) && Lists(done, live, Done) && done == []
    ensures |info| == NUM
    ensures forall h :: h in live && h in live0 && Completed(live0[h].phase, live[h].phase) ==>
              Slot(h) && info[h].status == 0
    ensures forall h :: h in live && h in live0 && live0[h].phase == Done ==> live[h].phase == Seen
  {
    forall h | h in live ensures live[h].phase != Done { assert h !in done; }
  }

  /** How many requests the driver has not seen completed. */
  ghost function Unseen(live: map<int, Req>): nat {
    |set h | h in live && live[h].phase != Seen|
  }

  lemma WorkingReqs(desc: seq<Desc>, ops: seq<Op>, info: seq<Info>, busy: set<nat>, free: seq<bool>,
                    owner: seq<int>, live: map<int, Req>, h: int)
    requires Partition(free, owner, live) && ReqsOk(desc, ops, info, busy, live) && h in live && live[h].phase == Queued
    ensures ReqsOk(desc, ops, info, busy, live[h := live[h].(phase := Working)])
  {
  }

  lemma CompleteReqs(desc: seq<Desc>, ops: seq<Op>, info: seq<Info>, busy: set<nat>, free: seq<bool>,
                     owner: seq<int>, live: map<int, Req>, h: int, status: nat)
    requires Partition(free, owner, live) && ReqsOk(desc, ops, info, busy, live) && h in live
               && live[h].phase == Working && Slot(h)
    ensures ReqsOk(desc, ops, info[h := info[h].(status := status)], busy, live[h := live[h].(phase := Done)])
  {
  }

  lemma ReqLengths(desc: seq<Desc>, ops: seq<Op>, info: seq<Info>, busy: set<nat>, live: map<int, Req>)
    requires ReqsOk(desc, ops, info, busy, live)
    ensures |desc| == NUM && |ops| == NUM && |info| == NUM
  {
  }

  lemma OwnedNotFree(free: seq<bool>, owner: seq<int>, live: map<int, Req>)
    requires Partition(free, owner, live)
    ensures |free| == NUM && |owner| == NUM && forall i :: Slot(i) && free[i] ==> owner[i] == -1
  {
  }

  lemma NoneLeft(free0: seq<bool>, idx: seq<int>)
    requires |free0| == NUM && |idx| < 3 && forall i :: Slot(i) ==> !Taken(free0, idx)[i]
    ensures !ThreeFree(free0)
  {
  }

  lemma ThreeSorted(free: seq<bool>, a: int, b: int, c: int)
    requires |free| == NUM && Slot(a) && Slot(b) && Slot(c) && a != b && a != c && b != c && free[a] && free[b]
               && free[c]
    ensures ThreeFree(free)
  {
  }
}
