/** The Sv39 page tables of kernel/vm.c (section 4.4 of the RISC-V privileged
    architecture manual): three levels of 512-entry pages, seen as a finite map
    from virtual page numbers to page table entries.

    Physical memory is a sequence of pages of 512 64-bit words; a physical
    address is 4096 times a page number plus an offset. */
module PageTable {
  import opened Blocks

  const PGSIZE := 4096
  const MAXVA := 0x40_0000_0000           // 1 << 38
  const MAXVPN := MAXVA / PGSIZE
  const USERTOP := 0x3FF_FFFE             // TRAPFRAME / PGSIZE

  type word = x: int | 0 <= x < 0x1_0000_0000_0000_0000
  type Page = p: seq<word> | |p| == 512 witness seq(512, i => 0)
  type Memory = seq<Page>

  function Filled(w: word): Page {
    seq(512, i => w)
  }

  // ---- page table entries -------------------------------------------------------

  predicate IsValid(pte: nat) {
    pte % 2 == 1
  }

  /** PTE2PA(pte) / PGSIZE */
  function Ppn(pte: nat): nat {
    pte / 1024
  }

  /** PTE_FLAGS(pte) */
  function Flags(pte: nat): nat {
    pte % 1024
  }

  /** (pte & (PTE_R|PTE_W|PTE_X)) == 0 */
  predicate IsPointer(pte: nat) {
    pte / 2 % 8 == 0
  }

  /** PA2PTE(ppn * PGSIZE) | perm | PTE_V, for a permission below 2^10 */
  function MakePte(ppn: nat, perm: nat): nat {
    ppn * 1024 + (if perm % 2 == 1 then perm else perm + 1)
  }

  /** PX(level, va) for va in page vpn */
  function Px(level: nat, vpn: nat): nat
    requires level <= 2
  {
    if level == 0 then vpn % 512 else if level == 1 then vpn / 512 % 512 else vpn / 512 / 512 % 512
  }

  // ---- the shape of a tree ----------------------------------------------------------

  /** A page-table page is named by its level and the page numbers it covers:
      those whose quotient by 512^(level+1) is prefix. */
  datatype Node = Node(level: nat, prefix: nat)

  function NodeOf(level: nat, vpn: nat): Node
    requires level <= 2
  {
    Node(level, if level == 0 then vpn / 512 else if level == 1 then vpn / 512 / 512 else vpn / 512 / 512 / 512)
  }

  function Child(n: Node, i: nat): Node
    requires n.level > 0
  {
    Node(n.level - 1, n.prefix * 512 + i)
  }

  function Parent(n: Node): Node {
    Node(n.level + 1, n.prefix / 512)
  }

  const Root := Node(2, 0)

  /** The node covers page numbers below MAXVPN. */
  predicate Bounded(n: Node) {
    n.prefix < if n.level == 0 then 131072 else if n.level == 1 then 256 else 1
  }

  /** Which physical page holds each page-table page. */
  type Shape = map<Node, nat>

  /** Entry i of interior node n points to its child, or is not valid. */
  ghost predicate EntryOk(mem: Memory, pt: Shape, n: Node, i: nat)
    requires n in pt && pt[n] < |mem| && n.level > 0 && i < 512
  {
    if Child(n, i) in pt then mem[pt[n]][i] == pt[Child(n, i)] * 1024 + 1 else !IsValid(mem[pt[n]][i])
  }

  /** pt describes the tree that starts at page root, and no page is used twice. */
  ghost predicate Tree(mem: Memory, pt: Shape, root: nat) {
    && |mem| < 0x1000_0000_0000
    && Root in pt && pt[Root] == root
    && (forall n :: n in pt ==> 0 <= n.level <= 2 && 0 < pt[n] < |mem| && Bounded(n))
    && (forall n {:trigger Parent(n)} :: n in pt && n.level < 2 ==> Parent(n) in pt)
    && (forall n, m :: n in pt && m in pt && pt[n] == pt[m] ==> n == m)
    && (forall n, i {:trigger EntryOk(mem, pt, n, i)} :: n in pt && n.level > 0 && 0 <= i < 512 ==>
        EntryOk(mem, pt, n, i))
  }

  /** The map the tree denotes: the leaf entry for a page number, 0 if there is no leaf table. */
  ghost function Leaf(mem: Memory, pt: Shape, vpn: nat): word {
    var n := NodeOf(0, vpn);
    if n in pt && pt[n] < |mem| then mem[pt[n]][vpn % 512] else 0
  }

  ghost predicate SameLeaves(mem: Memory, pt: Shape, mem': Memory, pt': Shape) {
    forall v: nat {:trigger Leaf(mem', pt', v)} :: v < MAXVPN ==> Leaf(mem', pt', v) == Leaf(mem, pt, v)
  }

  // ---- what the hardware does ---------------------------------------------------------

  datatype Option<+T> = None | Some(value: T)

  /** The address of a page table entry. */
  datatype Slot = Slot(page: nat, index: nat)

  /** Follow the entries in memory, without any knowledge of the shape. */
  function HardwareWalk(mem: Memory, root: nat, vpn: nat): Option<Slot> {
    if root >= |mem| then None else
    var e2 := mem[root][Px(2, vpn)];
    if !IsValid(e2) || Ppn(e2) >= |mem| then None else
    var e1 := mem[Ppn(e2)][Px(1, vpn)];
    if !IsValid(e1) then None else Some(Slot(Ppn(e1), Px(0, vpn)))
  }

  /** The nodes on the way down to a page number. */
  lemma Path(vpn: nat)
    requires vpn < MAXVPN
    ensures Px(2, vpn) < 512 && Px(1, vpn) < 512 && Px(0, vpn) == vpn % 512
    ensures NodeOf(2, vpn) == Root && NodeOf(1, vpn).level == 1 && NodeOf(0, vpn).level == 0
    ensures Bounded(NodeOf(1, vpn)) && Bounded(NodeOf(0, vpn))
    ensures Child(Root, Px(2, vpn)) == NodeOf(1, vpn) && Parent(NodeOf(1, vpn)) == Root
    ensures Child(NodeOf(1, vpn), Px(1, vpn)) == NodeOf(0, vpn) && Parent(NodeOf(0, vpn)) == NodeOf(1, vpn)
  {
  }

  lemma PpnOfPointer(p: nat)
    ensures Ppn(p * 1024 + 1) == p && IsValid(p * 1024 + 1) && IsPointer(p * 1024 + 1)
  {
    assert (p * 1024 + 1) / 2 == 512 * p;
  }

  /** The tree denotes what the hardware computes. */
  lemma HardwareAgrees(mem: Memory, pt: Shape, root: nat, vpn: nat)
    requires Tree(mem, pt, root) && vpn < MAXVPN
    ensures HardwareWalk(mem, root, vpn) ==
            if NodeOf(0, vpn) in pt then Some(Slot(pt[NodeOf(0, vpn)], vpn % 512)) else None
  {
    hide Px; hide NodeOf; hide Child; hide Parent; hide Ppn; hide IsValid; hide EntryOk;
    Path(vpn);
    var n1, n0 := NodeOf(1, vpn), NodeOf(0, vpn);
    StepDown(mem, pt, root, Root, Px(2, vpn));
    if n1 in pt {
      StepDown(mem, pt, root, n1, Px(1, vpn));
    }
  }

  /** One level of a walk. */
  lemma StepDown(mem: Memory, pt: Shape, root: nat, n: Node, i: nat)
    requires Tree(mem, pt, root) && n in pt && n.level > 0 && i < 512
    ensures IsValid(mem[pt[n]][i]) <==> Child(n, i) in pt
    ensures Child(n, i) in pt ==> Ppn(mem[pt[n]][i]) == pt[Child(n, i)] && Ppn(mem[pt[n]][i]) < |mem|
  {
    hide Child; hide Parent; hide Ppn; hide IsValid;
    assert EntryOk(mem, pt, n, i);
    if Child(n, i) in pt {
      PpnOfPointer(pt[Child(n, i)]);
    }
  }

  /** Distinct page numbers have distinct leaf entries. */
  lemma DistinctEntries(mem: Memory, pt: Shape, root: nat, v: nat, w: nat)
    requires Tree(mem, pt, root) && v < MAXVPN && w < MAXVPN && v != w
    requires HardwareWalk(mem, root, v).Some? && HardwareWalk(mem, root, w).Some?
    ensures HardwareWalk(mem, root, v) != HardwareWalk(mem, root, w)
  {
    HardwareAgrees(mem, pt, root, v);
    HardwareAgrees(mem, pt, root, w);
  }

  // ---- changing the tree ------------------------------------------------------------

  lemma ParentOfChild(n: Node, i: nat)
    requires n.level > 0 && i < 512
    ensures Parent(Child(n, i)) == n
  {
  }

  lemma ChildInjective(n: Node, i: nat, m: Node, j: nat)
    requires n.level > 0 && m.level > 0 && i < 512 && j < 512 && Child(n, i) == Child(m, j)
    ensures n == m && i == j
  {
  }

  /** walk installs a zeroed page as a table below node n: the map does not change. */
  lemma AddTable(mem: Memory, pt: Shape, root: nat, n: Node, i: nat, page: nat)
    requires Tree(mem, pt, root) && n in pt && n.level > 0 && i < 512 && Child(n, i) !in pt && Bounded(Child(n, i))
    requires 0 < page < |mem| && page !in pt.Values && mem[page] == Filled(0)
    ensures var mem' := mem[pt[n] := mem[pt[n]][i := page * 1024 + 1]];
            var pt' := pt[Child(n, i) := page];
            Tree(mem', pt', root) && SameLeaves(mem, pt, mem', pt')
  {
    hide Px; hide Parent; hide Child;
    var mem', pt' := mem[pt[n] := mem[pt[n]][i := page * 1024 + 1]], pt[Child(n, i) := page];
    var c := Child(n, i);
    assert c.level == n.level - 1 by { ChildLevel(n, i); }
    ParentOfChild(n, i);
    assert pt[n] in pt.Values && page != pt[n];
    assert Injective(pt') by { forall m | m in pt ensures pt[m] != page { assert pt[m] in pt.Values; } }
    forall m, j | m in pt' && m.level > 0 && 0 <= j < 512 ensures EntryOk(mem', pt', m, j) {
      ChildLevel(m, j);
      ParentOfChild(m, j);
      if m == c {
        assert mem'[page][j] == 0;
        assert Child(m, j) !in pt';
      } else {
        assert EntryOk(mem, pt, m, j);
        if m == n && j == i {
        } else {
          if Child(m, j) == c { ChildInjective(m, j, n, i); }
          assert mem'[pt[m]][j] == mem[pt[m]][j] by { assert pt[m] in pt.Values; }
        }
      }
    }
    forall v: nat | v < MAXVPN ensures Leaf(mem', pt', v) == Leaf(mem, pt, v) {
      LeafNode(v);
      var l := NodeOf(0, v);
      if l in pt { assert pt[l] != pt[n]; }
    }
  }

  lemma LeafNode(v: nat)
    ensures NodeOf(0, v).level == 0
  {
  }

  lemma ChildLevel(n: Node, i: nat)
    requires n.level > 0
    ensures Child(n, i).level == n.level - 1
  {
  }

  ghost predicate Injective(pt: Shape) {
    forall n, m :: n in pt && m in pt && pt[n] == pt[m] ==> n == m
  }

  /** Writing a leaf entry changes the map at that page number only. */
  lemma SetLeaf(mem: Memory, pt: Shape, root: nat, v: nat, pte: word)
    requires Tree(mem, pt, root) && v < MAXVPN && NodeOf(0, v) in pt
    ensures var mem' := mem[pt[NodeOf(0, v)] := mem[pt[NodeOf(0, v)]][v % 512 := pte]];
            && Tree(mem', pt, root)
            && forall w: nat {:trigger Leaf(mem', pt, w)} :: w < MAXVPN ==>
                Leaf(mem', pt, w) == if w == v then pte else Leaf(mem, pt, w)
  {
    hide Px; hide Parent; hide Child;
    var l := NodeOf(0, v);
    var mem' := mem[pt[l] := mem[pt[l]][v % 512 := pte]];
    LeafNode(v);
    forall m, j | m in pt && m.level > 0 && 0 <= j < 512 ensures EntryOk(mem', pt, m, j) {
      assert EntryOk(mem, pt, m, j);
      assert pt[m] != pt[l];
    }
    forall w: nat | w < MAXVPN ensures Leaf(mem', pt, w) == if w == v then pte else Leaf(mem, pt, w) {
      var k := NodeOf(0, w);
      LeafNode(w);
      if k in pt && k != l { assert pt[k] != pt[l]; }
    }
  }

  /** Pages outside the tree can change freely. */
  lemma TreeFrame(mem: Memory, mem': Memory, pt: Shape, root: nat)
    requires Tree(mem, pt, root) && |mem'| == |mem| && forall n :: n in pt ==> mem'[pt[n]] == mem[pt[n]]
    ensures Tree(mem', pt, root) && SameLeaves(mem, pt, mem', pt)
  {
    hide Px; hide Parent; hide Child;
    forall m, j | m in pt && m.level > 0 && 0 <= j < 512 ensures EntryOk(mem', pt, m, j) {
      assert EntryOk(mem, pt, m, j);
    }
  }

  // ---- who owns which physical page ----------------------------------------------------

  /** User page v is mapped.  The two pages from USERTOP on, trampoline and
      trapframe, are mapped but belong to others. */
  ghost predicate Mapped(mem: Memory, pt: Shape, v: nat) {
    v < USERTOP && IsValid(Leaf(mem, pt, v))
  }

  ghost function UserPages(mem: Memory, pt: Shape): set<nat> {
    set v: nat {:trigger Leaf(mem, pt, v)} | v < USERTOP && IsValid(Leaf(mem, pt, v)) :: Ppn(Leaf(mem, pt, v))
  }

  /** Tables and mapped user pages are pages of the allocator, all different, none free. */
  ghost predicate Private(mem: Memory, pt: Shape, free: set<nat>, pool: set<nat>) {
    && free <= pool && pt.Values <= pool && pt.Values !! free
    && (forall v: nat {:trigger Leaf(mem, pt, v)} :: Mapped(mem, pt, v) ==>
          var p := Ppn(Leaf(mem, pt, v)); p in pool && p !in free && p !in pt.Values)
    && (forall v: nat, w: nat {:trigger Leaf(mem, pt, v), Leaf(mem, pt, w)} ::
          Mapped(mem, pt, v) && Mapped(mem, pt, w) && Ppn(Leaf(mem, pt, v)) == Ppn(Leaf(mem, pt, w)) ==> v == w)
  }

  /** The free pages and all pages of this address space. */
  ghost function Total(mem: Memory, pt: Shape, free: set<nat>): set<nat> {
    free + pt.Values + UserPages(mem, pt)
  }

  /** Some free pages became tables; nothing outside the tables changed. */
  ghost predicate TablesGrow(mem: Memory, pt: Shape, free: set<nat>, mem': Memory, pt': Shape, free': set<nat>) {
    && |mem'| == |mem| && pt.Keys <= pt'.Keys && (forall n :: n in pt ==> pt'[n] == pt[n])
    && free' <= free && pt'.Values == pt.Values + (free - free')
    && (forall p :: 0 <= p < |mem| && p !in pt'.Values ==> mem'[p] == mem[p])
  }

  /** The n numbers from v0 on. */
  ghost function Range(v0: nat, n: nat): (r: set<nat>)
    ensures |r| == n && forall v :: v in r <==> v0 <= v < v0 + n
  {
    BlockRange(v0, n)
  }

  // ---- how many pages a mapping takes ------------------------------------------------------

  /** The tables on the way to page number v. */
  ghost function PathOf(v: nat): set<Node> {
    {NodeOf(2, v), NodeOf(1, v), NodeOf(0, v)}
  }

  ghost function PathsOf(vs: set<nat>): set<Node> {
    set v, n | v in vs && n in PathOf(v) :: n
  }

  /** How many tables of the path are missing. */
  ghost function Missing(pt: Shape, path: set<Node>): nat { |path - pt.Keys| }

  /** None is. */
  ghost predicate Complete(pt: Shape, path: set<Node>) { path <= pt.Keys }

  /** Pages it takes to map fresh pages at vs: the pages, and the tables that are missing. */
  ghost function Needed(pt: Shape, vs: set<nat>): nat {
    |vs| + Missing(pt, PathsOf(vs))
  }

  /** From n0 free pages n are left; the others became tables on the given paths. */
  ghost predicate Spent(pt: Shape, n0: int, pt': Shape, n: int, path: set<Node>) {
    pt.Keys <= pt'.Keys <= pt.Keys + path && n + |pt'.Keys - pt.Keys| == n0
  }

  lemma SpentTwice(pt: Shape, n0: int, pt1: Shape, n1: int, pt2: Shape, n2: int, path1: set<Node>, path2: set<Node>)
    requires Spent(pt, n0, pt1, n1, path1) && Spent(pt1, n1, pt2, n2, path2)
    ensures Spent(pt, n0, pt2, n2, path1 + path2)
  {
    assert pt2.Keys - pt.Keys == (pt1.Keys - pt.Keys) + (pt2.Keys - pt1.Keys);
  }

  /** With every table of the path in place, exactly the missing ones were spent. */
  lemma SpentAll(pt: Shape, n0: int, pt': Shape, n: int, path: set<Node>)
    requires Spent(pt, n0, pt', n, path) && Complete(pt', path)
    ensures n == n0 - Missing(pt, path)
  {
    assert pt'.Keys - pt.Keys == path - pt.Keys;
  }

  /** With one still missing and no page left, there were too few. */
  lemma SpentOut(pt: Shape, n0: int, pt': Shape, path: set<Node>, m: Node)
    requires Spent(pt, n0, pt', 0, path) && m in path && m !in pt'
    ensures n0 < Missing(pt, path)
  {
    var rest := (path - pt.Keys) - (pt'.Keys - pt.Keys);
    assert path - pt.Keys == (pt'.Keys - pt.Keys) + rest && m in rest;
  }

  lemma SpentWithin(pt: Shape, n0: int, pt1: Shape, n1: int, pt2: Shape, n2: int, all: set<Node>, path: set<Node>)
    requires Spent(pt, n0, pt1, n1, all) && Spent(pt1, n1, pt2, n2, path) && path <= all
    ensures Spent(pt, n0, pt2, n2, all)
  {
    assert all + path == all;
    SpentTwice(pt, n0, pt1, n1, pt2, n2, all, path);
  }

  lemma PathsMore(vs: set<nat>, a: nat)
    ensures PathsOf(vs + {a}) == PathsOf(vs) + PathOf(a)
  {
    hide PathOf;
    forall n | n in PathOf(a) ensures n in PathsOf(vs + {a}) { assert a in vs + {a}; }
    forall n | n in PathsOf(vs) ensures n in PathsOf(vs + {a}) {
      var v :| v in vs && n in PathOf(v);
      assert v in vs + {a};
    }
  }

  /** From n0 free pages n are left after mapping fresh pages at vs. */
  ghost predicate Paid(pt: Shape, n0: int, pt': Shape, n: int, vs: set<nat>) {
    Spent(pt, n0 - |vs|, pt', n, PathsOf(vs)) && Complete(pt', PathsOf(vs))
  }

  lemma PaidNothing(pt: Shape, n: int, vs: set<nat>)
    requires vs == {}
    ensures Paid(pt, n, pt, n, vs)
  {
    NoPaths(vs);
    assert pt.Keys - pt.Keys == {};
  }

  /** One more page was mapped. */
  lemma PaidMore(pt: Shape, n0: int, pt1: Shape, n1: int, pt2: Shape, n2: int, vs: set<nat>, a: nat)
    requires Paid(pt, n0, pt1, n1, vs) && a !in vs && Spent(pt1, n1 - 1, pt2, n2, PathOf(a)) && Complete(pt2, PathOf(a))
    ensures Paid(pt, n0, pt2, n2, vs + {a})
  {
    hide PathOf; hide PathsOf;
    PathsMore(vs, a);
    SpentTwice(pt, n0 - |vs| - 1, pt1, n1 - 1, pt2, n2, PathsOf(vs), PathOf(a));
    assert |vs + {a}| == |vs| + 1;
  }

  /** One more page could not be mapped. */
  lemma PaidShort(pt: Shape, n0: int, pt1: Shape, n1: int, vs: set<nat>, a: nat, all: set<nat>)
    requires Paid(pt, n0, pt1, n1, vs) && a !in vs && n1 < 1 + Missing(pt1, PathOf(a)) && vs + {a} <= all
    ensures n0 < Needed(pt, all)
  {
    hide PathOf; hide PathsOf;
    assert pt.Keys <= pt1.Keys <= pt.Keys + PathsOf(vs);
    PathsMore(vs, a);
    SpentAll(pt, n0 - |vs|, pt1, n1, PathsOf(vs));
    hide Spent;
    StillMissing(pt.Keys, pt1.Keys, PathsOf(vs), PathOf(a));
    NeededGrows(pt, vs + {a}, all);
  }

  lemma PaidFor(pt: Shape, n0: int, pt': Shape, n: nat, vs: set<nat>)
    requires Paid(pt, n0, pt', n, vs)
    ensures n0 >= Needed(pt, vs)
  {
    SpentAll(pt, n0 - |vs|, pt', n, PathsOf(vs));
  }

  lemma StillMissing(keys: set<Node>, keys1: set<Node>, done: set<Node>, path: set<Node>)
    requires keys <= keys1 <= keys + done && done <= keys1
    ensures |(done + path) - keys| == |done - keys| + |path - keys1|
  {
    assert (done + path) - keys == (done - keys) + (path - keys1);
    assert (done - keys) !! (path - keys1);
  }

  lemma NeededGrows(pt: Shape, vs: set<nat>, all: set<nat>)
    requires vs <= all
    ensures Needed(pt, vs) <= Needed(pt, all)
  {
    hide PathOf;
    forall n | n in PathsOf(vs) ensures n in PathsOf(all) {
      var v :| v in vs && n in PathOf(v);
      assert v in all;
    }
    var a, b := PathsOf(vs) - pt.Keys, PathsOf(all) - pt.Keys;
    assert b == a + (b - a) && all == vs + (all - vs);
  }

  /** Each page takes at most itself and two tables. */
  lemma {:induction false} NeededAtMost(pt: Shape, vs: set<nat>)
    requires Root in pt && forall v :: v in vs ==> v < MAXVPN
    ensures Needed(pt, vs) <= 3 * |vs|
  {
    hide PathOf; hide PathsOf; hide NodeOf;
    if a :| a in vs {
      var rest := vs - {a};
      NeededAtMost(pt, rest);
      PathsMore(rest, a);
      assert vs == rest + {a};
      AtMostTwoMissing(pt, a);
      assert PathsOf(vs) - pt.Keys == (PathsOf(rest) - pt.Keys) + (PathOf(a) - pt.Keys);
      UnionAtMost(PathsOf(rest) - pt.Keys, PathOf(a) - pt.Keys);
    } else {
      assert PathsOf(vs) == {} by { NoPaths(vs); }
    }
  }

  lemma UnionAtMost(x: set<Node>, y: set<Node>)
    ensures |x + y| <= |x| + |y|
  {
    assert x + y == x + (y - x) && y == (y - x) + y * x;
  }

  lemma NoPaths(vs: set<nat>)
    requires forall v :: v !in vs
    ensures PathsOf(vs) == {}
  {
  }

  lemma AtMostTwoMissing(pt: Shape, a: nat)
    requires Root in pt && a < MAXVPN
    ensures Missing(pt, PathOf(a)) <= 2
  {
    assert NodeOf(2, a) == Root;
    var two := {NodeOf(1, a), NodeOf(0, a)};
    assert PathOf(a) - pt.Keys == two - pt.Keys;
    assert two == (two - pt.Keys) + (two * pt.Keys);
  }

  lemma UserPagesSame(mem: Memory, pt: Shape, mem': Memory, pt': Shape)
    requires SameLeaves(mem, pt, mem', pt')
    ensures UserPages(mem', pt') == UserPages(mem, pt)
  {
    hide Leaf; hide Ppn; hide IsValid;
    forall v: nat | v < USERTOP ensures Leaf(mem', pt', v) == Leaf(mem, pt, v) { }
  }

  /** Growing the tables keeps the space private and conserves pages. */
  lemma GrowKeepsPrivate(mem: Memory, pt: Shape, free: set<nat>, mem': Memory, pt': Shape, free': set<nat>,
                         pool: set<nat>)
    requires Private(mem, pt, free, pool) && TablesGrow(mem, pt, free, mem', pt', free')
               && SameLeaves(mem, pt, mem', pt')
    ensures Private(mem', pt', free', pool) && Total(mem', pt', free') == Total(mem, pt, free)
  {
    hide Leaf; hide Ppn; hide IsValid; hide UserPages;
    UserPagesSame(mem, pt, mem', pt');
    forall v: nat | v < USERTOP ensures Leaf(mem', pt', v) == Leaf(mem, pt, v) { }
  }

  /** Only the entry of v differs between the two maps. */
  ghost predicate LeafChanged(mem: Memory, pt: Shape, mem': Memory, pt': Shape, v: nat, pte: nat) {
    forall w: nat {:trigger Leaf(mem', pt', w)} :: w < MAXVPN ==>
        Leaf(mem', pt', w) == if w == v then pte else Leaf(mem, pt, w)
  }

  /** The page mapped at v is unmapped and belongs to nobody. */
  lemma UnmapKeepsPrivate(mem: Memory, pt: Shape, mem': Memory, free: set<nat>, pool: set<nat>, v: nat)
    requires Private(mem, pt, free, pool) && LeafChanged(mem, pt, mem', pt, v, 0) && Mapped(mem, pt, v)
    ensures Private(mem', pt, free, pool) && Ppn(Leaf(mem, pt, v)) in pool
    ensures Total(mem', pt, free) == Total(mem, pt, free) - {Ppn(Leaf(mem, pt, v))}
    ensures Ppn(Leaf(mem, pt, v)) in Total(mem, pt, free)
  {
    hide Leaf; hide Ppn;
    var p := Ppn(Leaf(mem, pt, v));
    forall w: nat | w < USERTOP && w != v ensures Leaf(mem', pt, w) == Leaf(mem, pt, w) { }
    assert Leaf(mem', pt, v) == 0 && !Mapped(mem', pt, v);
    assert UserPages(mem', pt) == UserPages(mem, pt) - {p};
  }

  /** A page that belongs to nobody is put on the free list. */
  lemma FreeKeepsPrivate(mem: Memory, pt: Shape, mem': Memory, free: set<nat>, pool: set<nat>, p: nat)
    requires Private(mem, pt, free, pool) && SameLeaves(mem, pt, mem', pt) && p in pool && p !in Total(mem, pt, free)
    ensures Private(mem', pt, free + {p}, pool) && Total(mem', pt, free + {p}) == Total(mem, pt, free) + {p}
  {
    hide Leaf; hide Ppn; hide IsValid;
    UserPagesSame(mem, pt, mem', pt);
    forall v: nat | v < USERTOP ensures Leaf(mem', pt, v) == Leaf(mem, pt, v) { }
    forall v: nat | Mapped(mem, pt, v) ensures Ppn(Leaf(mem, pt, v)) != p { assert Ppn(Leaf(mem, pt,
        v)) in UserPages(mem, pt); }
  }

  /** kalloc takes page p: it belongs to nobody for the moment. */
  lemma TakeKeepsPrivate(mem: Memory, pt: Shape, mem': Memory, free: set<nat>, pool: set<nat>, p: nat)
    requires Private(mem, pt, free, pool) && SameLeaves(mem, pt, mem', pt) && p in free
    ensures Private(mem', pt, free - {p}, pool) && p in pool && p !in Total(mem', pt, free - {p})
    ensures Total(mem', pt, free - {p}) + {p} == Total(mem, pt, free)
  {
    hide Leaf; hide Ppn; hide IsValid;
    UserPagesSame(mem, pt, mem', pt);
    forall v: nat | v < USERTOP ensures Leaf(mem', pt, v) == Leaf(mem, pt, v) { }
  }

  /** mappages of one page that belonged to nobody: tables may grow, page v is mapped. */
  lemma GrowAndMap(mem: Memory, pt: Shape, free: set<nat>, mem': Memory, pt': Shape, free': set<nat>,
                   pool: set<nat>, v: nat, pte: nat)
    requires Private(mem, pt, free, pool) && TablesGrow(mem, pt, free, mem', pt', free')
    requires LeafChanged(mem, pt, mem', pt', v, pte) && v < USERTOP && !IsValid(Leaf(mem, pt, v)) && IsValid(pte)
    requires Ppn(pte) in pool && Ppn(pte) !in Total(mem, pt, free)
    ensures Private(mem', pt', free', pool) && Total(mem', pt', free') == Total(mem, pt, free) + {Ppn(pte)}
  {
    hide Leaf; hide Ppn; hide IsValid;
    forall w: nat | w < USERTOP && w != v ensures Leaf(mem', pt', w) == Leaf(mem, pt, w) { }
    assert Leaf(mem', pt', v) == pte;
    assert UserPages(mem', pt') == UserPages(mem, pt) + {Ppn(pte)};
    forall w: nat | Mapped(mem, pt, w) ensures Ppn(Leaf(mem, pt, w)) != Ppn(pte) {
      assert Ppn(Leaf(mem, pt, w)) in UserPages(mem, pt);
    }
  }

  const PTE_V := 0
  const PTE_R := 1
  const PTE_W := 2
  const PTE_X := 3
  const PTE_U := 4

  /** Exactly these of the ten flag bits of the entry are set. */
  ghost predicate FlagsAre(pte: nat, bits: set<nat>) {
    forall j: nat :: j < 10 ==> (BitOf(Flags(pte), j) <==> j in bits)
  }

  ghost function Bits(x: nat): set<nat> {
    set j: nat | j < 10 && BitOf(x, j)
  }

  /** An entry has the bits of its permission, and is valid. */
  lemma MadeFlags(ppn: nat, perm: nat)
    requires perm < 1024
    ensures FlagsAre(MakePte(ppn, perm), Bits(perm) + {PTE_V})
  {
    hide BitOf;
    MakePteFields(ppn, perm);
    BitZero(perm);
    forall j: nat | j < 10 ensures BitOf(Flags(MakePte(ppn, perm)), j) <==> j in Bits(perm) + {PTE_V} {
      SetBitOfBits(perm, 0, j);
    }
  }

  /** An entry without permissions is a pointer to the next table. */
  lemma PointerBits(pte: nat)
    ensures IsPointer(pte) <==> !BitOf(pte, PTE_R) && !BitOf(pte, PTE_W) && !BitOf(pte, PTE_X)
  {
    hide BitOf; hide Pow2;
    var y := pte / 2;
    var z := y / 2;
    BitOfHalf(pte, 1);
    BitOfHalf(pte, 2);
    BitOfHalf(y, 1);
    BitOfHalf(pte, 3);
    BitOfHalf(y, 2);
    BitOfHalf(z, 1);
    BitZero(y);
    BitZero(z);
    BitZero(z / 2);
  }

  /** The three indices of walk are the digits of the page number, the root's first. */
  lemma PxDigits(vpn: nat)
    requires vpn < MAXVPN
    ensures vpn == Px(2, vpn) * 512 * 512 + Px(1, vpn) * 512 + Px(0, vpn)
    ensures Px(2, vpn) < 256 && Px(1, vpn) < 512 && Px(0, vpn) < 512
  {
  }

  lemma MakePteFields(ppn: nat, perm: nat)
    requires perm < 1024
    ensures Ppn(MakePte(ppn, perm)) == ppn && IsValid(MakePte(ppn, perm))
    ensures Flags(MakePte(ppn, perm)) == if perm % 2 == 1 then perm else perm + 1
  {
  }

  /** The same finite map: the same pages are valid, with the same entries. */
  ghost predicate SameMap(mem: Memory, pt: Shape, mem': Memory, pt': Shape) {
    forall v: nat {:trigger Leaf(mem', pt', v)} :: v < MAXVPN ==>
      (IsValid(Leaf(mem', pt', v)) <==> IsValid(Leaf(mem, pt, v)))
      && (IsValid(Leaf(mem, pt, v)) ==> Leaf(mem', pt', v) == Leaf(mem, pt, v))
  }

  // ---- the pages below a node ---------------------------------------------------------------

  ghost function SubPages(pt: Shape, n: Node): set<nat>
    requires n in pt
    decreases n.level, 513
  {
    {pt[n]} + if n.level == 0 then {} else KidsPages(pt, n, 512)
  }

  /** The pages below the first i entries of n. */
  ghost function KidsPages(pt: Shape, n: Node, i: nat): set<nat>
    requires n in pt && n.level > 0 && i <= 512
    decreases n.level, i
  {
    if i == 0 then {} else KidsPages(pt, n, i - 1) + if Child(n, i - 1) in pt then SubPages(pt, Child(n, i - 1)) else {}
  }

  /** No leaf entry below n is valid. */
  ghost predicate Clean(mem: Memory, pt: Shape, n: Node)
    requires n in pt && forall m :: m in pt ==> pt[m] < |mem|
    decreases n.level, 513
  {
    if n.level == 0 then forall i :: 0 <= i < 512 ==> !IsValid(mem[pt[n]][i]) else KidsClean(mem, pt, n, 512)
  }

  ghost predicate KidsClean(mem: Memory, pt: Shape, n: Node, i: nat)
    requires n in pt && n.level > 0 && i <= 512 && forall m :: m in pt ==> pt[m] < |mem|
    decreases n.level, i
  {
    i == 0 || (KidsClean(mem, pt, n, i - 1) && (Child(n, i - 1) in pt ==> Clean(mem, pt, Child(n, i - 1))))
  }

  /** The node above m at level l. */
  function Up(m: Node, l: nat): Node
    decreases l - m.level
  {
    if m.level >= l then m else Up(Parent(m), l)
  }

  lemma {:induction false} UpParent(m: Node, l: nat)
    requires m.level <= l
    ensures Up(m, l).level == l && Up(m, l + 1) == Parent(Up(m, l))
    decreases l - m.level
  {
    if m.level < l {
      UpParent(Parent(m), l);
    }
  }

  /** Whoever owns a page below n is itself below n. */
  lemma {:induction false} SubPagesOwner(pt: Shape, n: Node, p: nat) returns (m: Node)
    requires n in pt && p in SubPages(pt, n)
    ensures m in pt && pt[m] == p && m.level <= n.level && Up(m, n.level) == n
    decreases n.level, 513
  {
    if p == pt[n] {
      m := n;
    } else {
      m := KidsPagesOwner(pt, n, 512, p);
    }
  }

  lemma {:induction false} KidsPagesOwner(pt: Shape, n: Node, i: nat, p: nat) returns (m: Node)
    requires n in pt && n.level > 0 && i <= 512 && p in KidsPages(pt, n, i)
    ensures m in pt && pt[m] == p && m.level < n.level && Up(m, n.level) == n
    ensures exists j :: 0 <= j < i && Up(m, n.level - 1) == Child(n, j)
    decreases n.level, i
  {
    if p in KidsPages(pt, n, i - 1) {
      m := KidsPagesOwner(pt, n, i - 1, p);
    } else {
      m := SubPagesOwner(pt, Child(n, i - 1), p);
      UpParent(m, n.level - 1);
      ParentOfChild(n, i - 1);
    }
  }

  /** The pages below different entries are different, and none is the node's own page. */
  lemma KidsDisjoint(pt: Shape, n: Node, i: nat)
    requires Injective(pt) && n in pt && n.level > 0 && i < 512
    ensures pt[n] !in KidsPages(pt, n, 512) && pt[n] !in KidsPages(pt, n, i)
    ensures Child(n, i) in pt ==> SubPages(pt, Child(n, i)) !! KidsPages(pt, n, i)
  {
    hide SubPages; hide KidsPages; hide Up; hide Child;
    if pt[n] in KidsPages(pt, n, 512) {
      var m := KidsPagesOwner(pt, n, 512, pt[n]);
    }
    if pt[n] in KidsPages(pt, n, i) {
      var m := KidsPagesOwner(pt, n, i, pt[n]);
    }
    if Child(n, i) in pt {
      forall p | p in SubPages(pt, Child(n, i)) ensures p !in KidsPages(pt, n, i) {
        if p in KidsPages(pt, n, i) {
          var m := SubPagesOwner(pt, Child(n, i), p);
          var k := KidsPagesOwner(pt, n, i, p);
          ChildLevel(n, i);
          var j :| 0 <= j < i && Up(k, n.level - 1) == Child(n, j);
          ChildInjective(n, i, n, j);
        }
      }
    }
  }

  lemma {:induction false} KidInKids(pt: Shape, n: Node, i: nat, k: nat)
    requires n in pt && n.level > 0 && i < k <= 512 && Child(n, i) in pt
    ensures SubPages(pt, Child(n, i)) <= KidsPages(pt, n, k)
    decreases k
  {
    if i < k - 1 {
      KidInKids(pt, n, i, k - 1);
    }
  }

  /** All pages of a tree are below its root. */
  lemma RootOwnsAll(mem: Memory, pt: Shape, root: nat)
    requires Tree(mem, pt, root)
    ensures SubPages(pt, Root) == pt.Values
  {
    hide KidsPages; hide EntryOk; hide Up; hide Child; hide Parent; hide SubPages;
    forall p | p in SubPages(pt, Root) ensures p in pt.Values {
      var m := SubPagesOwner(pt, Root, p);
    }
    forall p | p in pt.Values ensures p in SubPages(pt, Root) {
      var m :| m in pt && pt[m] == p;
      Climb(mem, pt, root, m);
    }
  }

  lemma {:induction false} Climb(mem: Memory, pt: Shape, root: nat, m: Node)
    requires Tree(mem, pt, root) && m in pt
    ensures pt[m] in SubPages(pt, m) && SubPages(pt, m) <= SubPages(pt, Root)
    decreases 2 - m.level
  {
    hide EntryOk; hide Child; hide KidsPages;
    if m.level < 2 {
      Climb(mem, pt, root, Parent(m));
      ChildOfParent(m);
      KidInKids(pt, Parent(m), m.prefix % 512, 512);
    }
  }

  lemma ChildOfParent(m: Node)
    ensures Child(Parent(m), m.prefix % 512) == m && m.prefix % 512 < 512
  {
  }

  /** Nothing is mapped at page number v0 or above. */
  ghost predicate NoneFrom(mem: Memory, pt: Shape, v0: nat) {
    forall v: nat {:trigger Leaf(mem, pt, v)} :: v0 <= v < MAXVPN ==> !IsValid(Leaf(mem, pt, v))
  }

  /** The tree is clean exactly when the map it denotes is empty. */
  lemma CleanIffEmpty(mem: Memory, pt: Shape, root: nat)
    requires Tree(mem, pt, root)
    ensures Clean(mem, pt, Root) <==> NoneFrom(mem, pt, 0)
  {
    hide EntryOk; hide Clean; hide Leaf; hide IsValid;
    if Clean(mem, pt, Root) {
      forall v: nat | v < MAXVPN ensures !IsValid(Leaf(mem, pt, v)) { CleanLeaf(mem, pt, root, v); }
    }
    if NoneFrom(mem, pt, 0) {
      EmptyIsClean(mem, pt, root, Root);
    }
  }

  lemma CleanLeaf(mem: Memory, pt: Shape, root: nat, v: nat)
    requires Tree(mem, pt, root) && v < MAXVPN && Clean(mem, pt, Root)
    ensures !IsValid(Leaf(mem, pt, v))
  {
    hide EntryOk; hide Child; hide Parent; hide Px; hide KidsClean;
    Path(v);
    if NodeOf(0, v) in pt {
      KidClean(mem, pt, Root, Px(2, v), 512);
      KidClean(mem, pt, NodeOf(1, v), Px(1, v), 512);
    }
  }

  lemma {:induction false} KidClean(mem: Memory, pt: Shape, n: Node, i: nat, k: nat)
    requires n in pt && n.level > 0 && i < k <= 512 && Child(n, i) in pt && (forall m :: m in pt ==> pt[m] < |mem|)
    requires KidsClean(mem, pt, n, k)
    ensures Clean(mem, pt, Child(n, i))
    decreases k
  {
    hide Clean;
    if i < k - 1 {
      KidClean(mem, pt, n, i, k - 1);
    }
  }

  lemma {:induction false} EmptyIsClean(mem: Memory, pt: Shape, root: nat, n: Node)
    requires Tree(mem, pt, root) && n in pt && NoneFrom(mem, pt, 0)
    ensures Clean(mem, pt, n)
    decreases n.level, 513
  {
    hide EntryOk; hide IsValid; hide KidsClean;
    if n.level == 0 {
      forall i: nat | i < 512 ensures !IsValid(mem[pt[n]][i]) {
        var v := n.prefix * 512 + i;
        assert NodeOf(0, v) == n && v % 512 == i;
        assert !IsValid(Leaf(mem, pt, v));
      }
    } else {
      EmptyKids(mem, pt, root, n, 512);
    }
  }

  lemma {:induction false} EmptyKids(mem: Memory, pt: Shape, root: nat, n: Node, i: nat)
    requires Tree(mem, pt, root) && n in pt && n.level > 0 && i <= 512 && NoneFrom(mem, pt, 0)
    ensures KidsClean(mem, pt, n, i)
    decreases n.level, i
  {
    hide EntryOk; hide IsValid; hide Leaf; hide Clean;
    if i > 0 {
      EmptyKids(mem, pt, root, n, i - 1);
      ChildLevel(n, i - 1);
      if Child(n, i - 1) in pt {
        EmptyIsClean(mem, pt, root, Child(n, i - 1));
      }
    }
  }

  lemma {:induction false} DirtyKid(mem: Memory, pt: Shape, n: Node, i: nat, k: nat)
    requires n in pt && n.level > 0 && i < k <= 512 && (forall m :: m in pt ==> pt[m] < |mem|)
    requires Child(n, i) in pt && !Clean(mem, pt, Child(n, i))
    ensures !KidsClean(mem, pt, n, k)
    decreases k
  {
    hide Clean;
    if i < k - 1 {
      DirtyKid(mem, pt, n, i, k - 1);
    }
  }
}
