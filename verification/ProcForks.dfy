/** fork_count counts the children that have not begun to exit. */
module ProcForks {

  import opened ProcModel

  /** The process that counts p among its children, or -1. */
  function Counter(p: Proc): int { if Begun(p.pc) then -1 else p.parent }

  /** Children of i that have not begun to exit. */
  ghost function Kids(s: State, i: int): set<int>
    requires Shaped(s)
  {
    set c | 0 <= c < NPROC && Counter(s.procs[c]) == i
  }

  /** The child is in the table and the caller of fork has yet to count it. */
  function Uncounted(pc: Pc): int { if pc.ForkLinked? || pc.ForkCount? then 1 else 0 }

  function Tally(p: Proc): int { p.forks + Uncounted(p.pc) }

  /** pcs past the point where kexit gives the children away */
  predicate Leaving(pc: Pc) { pc.Reparent? || pc.ReparentWake? || pc.ExitWake? || pc.ExitZombie? }

  predicate Entitled(pc: Pc) { pc.ForkChecked? || pc.ForkCopy? }

  /** i never has more than FORK_LIMIT children by its count, and the count is right
      for every process but init. */
  ghost predicate CountOk(s: State, i: int)
    requires Shaped(s) && Index(i)
  {
    var p := s.procs[i];
    && (Alive(p.run) ==> Tally(p) <= FORK_LIMIT && (Entitled(p.pc) ==> p.forks < FORK_LIMIT))
    && (p.run == Used ==> p.forks == 0)
    && (Alive(p.run) && !Leaving(p.pc) && i != INIT ==> Tally(p) == |Kids(s, i)|)
  }

  ghost predicate ForksOk(s: State) {
    Shaped(s) && forall i :: Index(i) ==> CountOk(s, i)
  }

  /** A step that leaves the process's tally and family alone. */
  predicate SameTally(p: Proc, q: Proc) {
    && Counter(q) == Counter(p)
    && (Alive(q.run) ==> Alive(p.run) && Tally(q) == Tally(p) && (Entitled(q.pc) ==>
        Entitled(p.pc) || q.forks < FORK_LIMIT))
    && (q.run == Used ==> q.forks == 0 || (p.run == Used && q.forks == p.forks))
    && (Leaving(p.pc) ==> Leaving(q.pc) || !Alive(q.run))
  }

  lemma QuietTally(s: State, p: int, e: Event, i: int)
    requires TableOk(s) && Index(i) && Enabled(s, p, e) && !e.Does?
    ensures SameTally(s.procs[i], Apply(s, p, e).procs[i])
  {
  }

  lemma OwnTally(s: State, p: int, o: OwnAct, i: int)
    requires TableOk(s) && Index(p) && Index(i) && s.procs[p].run == Running && OwnEnabled(s.procs[p], p, s.lock, o)
    ensures SameTally(s.procs[i], OwnStep(s, p, o).procs[i])
  {
    hide TableOk; hide Tree; hide Filling;
    Facts(s, p);
    OwnTallyOf(s.procs[p], p, s.lock, o);
    hide OwnNext; hide OwnEnabled; hide Local; hide SameTally;
    if i != p { SameTallyRefl(s.procs[i]); }
  }

  lemma OwnTallyOf(me: Proc, p: int, lock: int, o: OwnAct)
    requires me.run == Running && OwnEnabled(me, p, lock, o)
    ensures SameTally(me, OwnNext(me, p, lock, o).0)
  {
  }

  lemma SameTallyRefl(p: Proc)
    ensures SameTally(p, p)
  {
  }

  lemma AllocTally(s: State, p: int, np: int, i: int)
    requires TableOk(s) && Index(p) && Index(i) && Index(np)
    requires s.procs[p].run == Running && s.procs[p].pc == ForkChecked && s.procs[np].run == Unused
    ensures SameTally(s.procs[i], AllocNext(s, p, np).procs[i])
  {
  }

  lemma FailTally(s: State, p: int, i: int)
    requires TableOk(s) && Index(p) && Index(i)
    requires s.procs[p].run == Running && s.procs[p].pc.ForkCopy? && Index(s.procs[p].pc.np)
    ensures SameTally(s.procs[i], FailNext(s, p, s.procs[p].pc.np).procs[i])
  {
  }

  lemma WakeTally(s: State, p: int, i: int)
    requires TableOk(s) && Index(p) && Index(i) && s.procs[p].run == Running && Waking(s.procs[p].pc)
    ensures SameTally(s.procs[i], WakeNext(s, p).procs[i])
  {
    hide TableOk; hide Tree; hide Filling;
    Facts(s, p);
  }

  lemma ZombieTally(s: State, p: int, i: int)
    requires TableOk(s) && Index(p) && Index(i) && s.procs[p].run == Running && s.procs[p].pc == ExitZombie
    ensures SameTally(s.procs[i], ZombieNext(s, p).procs[i])
  {
  }

  lemma ScanTally(s: State, p: int, copied: bool, i: int)
    requires TableOk(s) && Index(p) && Index(i) && s.procs[p].run == Running && s.procs[p].pc.WaitScan?
    ensures SameTally(s.procs[i], ScanNext(s, p, copied).procs[i])
  {
  }

  lemma SendTally(s: State, p: int, t: int, i: int)
    requires TableOk(s) && Index(p) && Index(i) && Index(t)
    requires s.procs[p].run == Running && s.procs[p].pc.SendPick? && s.procs[t].run != Unused
    ensures SameTally(s.procs[i], SendNext(s, p, t).procs[i])
  {
    hide TableOk; hide Tree; hide Filling;
    Facts(s, t);
  }

  /** Steps that change nobody's children and nobody's tally. */
  predicate Plain(e: Event) {
    e.Does? ==> !e.a.ForkLink? && !e.a.ForkRun? && !e.a.ExitBegin? && !e.a.ReparentStep?
  }

  lemma PlainTally(s: State, p: int, e: Event, i: int)
    requires TableOk(s) && Index(i) && Enabled(s, p, e) && Plain(e)
    ensures SameTally(s.procs[i], Apply(s, p, e).procs[i])
  {
    hide TableOk; hide OwnStep; hide AllocNext; hide FailNext; hide LinkNext; hide RunNext; hide ExitStart;
    hide ReparentNext; hide WakeNext; hide ZombieNext; hide ScanNext; hide SendNext; hide OwnEnabled; hide SameTally;
    if e.Does? {
      match e.a {
        case Own(o) => OwnTally(s, p, o, i);
        case ForkAlloc(np) => AllocTally(s, p, np, i);
        case ForkFail => FailTally(s, p, i);
        case WakeStep => WakeTally(s, p, i);
        case ExitDone => ZombieTally(s, p, i);
        case ScanStep(copied) => ScanTally(s, p, copied, i);
        case SendTo(t) => SendTally(s, p, t, i);
        case _ =>
      }
    } else {
      QuietTally(s, p, e, i);
    }
  }

  lemma KidsSame(s: State, s': State, i: int)
    requires Shaped(s) && Shaped(s')
    requires forall c :: Index(c) ==> (Counter(s'.procs[c]) == i <==> Counter(s.procs[c]) == i)
    ensures Kids(s', i) == Kids(s, i)
  {
  }

  /** A process that is not alive is nobody's parent. */
  lemma NoKids(s: State, i: int)
    requires TableOk(s) && Index(i) && !Alive(s.procs[i].run)
    ensures Kids(s, i) == {}
  {
    hide TableOk;
    Facts(s, i);
    forall c | 0 <= c < NPROC ensures c !in Kids(s, i) { Facts(s, c); }
  }

  lemma PlainForks(s: State, p: int, e: Event)
    requires TableOk(s) && ForksOk(s) && Enabled(s, p, e) && Plain(e)
    ensures ForksOk(Apply(s, p, e))
  {
    hide TableOk; hide Apply; hide Plain; hide Enabled;
    var s' := Apply(s, p, e);
    forall i | Index(i) ensures CountOk(s', i) {
      forall c | Index(c) ensures SameTally(s.procs[c], s'.procs[c]) { PlainTally(s, p, e, c); }
      KidsSame(s, s', i);
      assert CountOk(s, i) && SameTally(s.procs[i], s'.procs[i]);
    }
  }

  lemma LinkForks(s: State, p: int)
    requires TableOk(s) && ForksOk(s) && Index(p) && s.procs[p].run == Running && s.procs[p].pc.ForkCopy?
               && Index(s.procs[p].pc.np)
    ensures ForksOk(LinkNext(s, p, s.procs[p].pc.np))
  {
    hide TableOk;
    Facts(s, p);
    hide Tree;
    var np := s.procs[p].pc.np;
    var s' := LinkNext(s, p, np);
    Facts(s, np);
    LinkedKids(s, p, np);
    hide Kids;
    forall i | Index(i) ensures CountOk(s', i) {
      assert CountOk(s, i);
    }
  }

  /** The slot joins p's children and nobody else's. */
  lemma LinkedKids(s: State, p: int, np: int)
    requires Shaped(s) && Index(p) && Index(np) && p != np && s.procs[np].parent == -1 && !Begun(s.procs[np].pc)
    requires Begun(ForkLinked(np)) == Begun(s.procs[p].pc)
    ensures var s' := LinkNext(s, p, np);
            && Kids(s', p) == Kids(s, p) + {np} && np !in Kids(s, p)
            && forall i :: Index(i) && i != p ==> Kids(s', i) == Kids(s, i)
  {
    var s' := LinkNext(s, p, np);
    forall c | 0 <= c < NPROC ensures c in Kids(s', p) <==> c in Kids(s, p) || c == np { }
    forall i | Index(i) && i != p ensures Kids(s', i) == Kids(s, i) { KidsSame(s, s', i); }
  }

  lemma RunForks(s: State, p: int)
    requires TableOk(s) && ForksOk(s) && Index(p) && s.procs[p].run == Running && s.procs[p].pc.ForkLinked?
               && Index(s.procs[p].pc.np)
    ensures ForksOk(RunNext(s, p, s.procs[p].pc.np))
  {
    hide TableOk;
    Facts(s, p);
    hide Tree;
    var np := s.procs[p].pc.np;
    var s' := RunNext(s, p, np);
    NoKids(s, np);
    Facts(s, np);
    forall i | Index(i) ensures CountOk(s', i) {
      KidsSame(s, s', i);
      assert CountOk(s, i);
    }
  }

  lemma ExitForks(s: State, p: int)
    requires TableOk(s) && ForksOk(s) && Index(p) && s.procs[p].run == Running && s.procs[p].pc == User && p != INIT
    ensures ForksOk(ExitStart(s, p))
  {
    hide TableOk; hide Local;
    ParentFacts(s, p);
    var up := s.procs[p].parent;
    var s' := ExitStart(s, p);
    assert Kids(s', up) == Kids(s, up) - {p} && p in Kids(s, up) by {
      forall c | 0 <= c < NPROC ensures c in Kids(s', up) <==> c in Kids(s, up) && c != p { }
    }
    forall i | Index(i) ensures CountOk(s', i) {
      if i != up { KidsSame(s, s', i); }
      assert CountOk(s, i);
    }
  }

  lemma ReparentForks(s: State, p: int)
    requires TableOk(s) && ForksOk(s) && Index(p) && s.procs[p].run == Running && s.procs[p].pc.Reparent?
    ensures ForksOk(ReparentNext(s, p, s.procs[p].pc.k))
  {
    hide TableOk; hide Local;
    InitNotBegun(s, p);
    ParentFacts(s, p);
    var s' := ReparentNext(s, p, s.procs[p].pc.k);
    forall i | Index(i) ensures CountOk(s', i) {
      if i != p && i != INIT { KidsSame(s, s', i); }
      assert CountOk(s, i);
    }
  }

  /** Every step keeps the fork counts right. */
  lemma ForksKeep(s: State, p: int, e: Event)
    requires TableOk(s) && ForksOk(s) && Enabled(s, p, e)
    ensures ForksOk(Apply(s, p, e))
  {
    hide TableOk; hide ForksOk; hide LinkNext; hide RunNext; hide ExitStart; hide ReparentNext;
    hide OwnStep; hide AllocNext; hide FailNext; hide WakeNext; hide ZombieNext; hide ScanNext;
    hide SendNext; hide OwnEnabled;
    if Plain(e) {
      PlainForks(s, p, e);
    } else {
      match e.a {
        case ForkLink => LinkForks(s, p);
        case ForkRun => RunForks(s, p);
        case ExitBegin => ExitForks(s, p);
        case ReparentStep => ReparentForks(s, p);
        case _ =>
      }
    }
  }
}
