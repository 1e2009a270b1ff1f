/** What the calls do: who is reaped and by whom, when wait gives up, what a kill and a
    message change, and that nothing else does. */
module ProcCalls {

  import opened ProcModel
  import opened ProcKids
  import opened ProcProps

  // ---- what a step of p does to another process ----------------------------------------------

  /** One field changes, in one of these ways, or a slot is filled or emptied. */
  ghost predicate Changed(s: State, p: int, e: Event, i: int, q: Proc, q': Proc) {
    || q' == q
    || (e == Does(ExitBegin) && q' == q.(forks := q.forks - 1))
    || (e == Does(ReparentStep) && q.parent == p && q' == q.(parent := INIT))
    || (e == Does(WakeStep) && q.run == Sleeping && q' == q.(run := Runnable))
    || (e == Does(SendTo(i)) && q.run != Unused && q' == q.(ready := true))
    || (e == Does(ForkAlloc(i)) && q.run == Unused
        && q' == q.(run := Used, pid := s.nextpid, forks := 0, ready := false))
    || (e == Does(ForkLink) && q.run == Used && q.parent == -1 && q' == q.(parent := p))
    || (e == Does(ForkRun) && q.run == Used && q' == q.(run := Runnable))
    || (e == Does(ForkFail) && q.run == Used && q' == Emptied(q))
    || (e == Does(ScanStep(true)) && q.run == Zombie && q.parent == p && q' == Emptied(q))
  }

  /** A free slot: no pid, no parent, no kill and no message left over. */
  function Emptied(q: Proc): (r: Proc)
    ensures r.run == Unused && r.pid == 0 && r.parent == -1 && !r.killed && !r.ready && r.chan == NoChan && r.pc == User
  {
    Proc(Unused, NoChan, 0, -1, q.forks, false, false, User)
  }

  lemma OwnOthers(s: State, p: int, o: OwnAct, i: int)
    requires Shaped(s) && Index(p) && Index(i) && i != p && OwnEnabled(s.procs[p], p, s.lock, o)
    ensures OwnStep(s, p, o).procs[i] == s.procs[i] && OwnStep(s, p, o).nextpid == s.nextpid
  {
    hide OwnNext; hide OwnEnabled;
  }

  lemma ForkOthers(s: State, p: int, np: int, i: int)
    requires TableOk(s) && Index(p) && Index(np) && Index(i) && i != p
    ensures s.procs[np].run == Unused ==>
              Changed(s, p, Does(ForkAlloc(np)), i, s.procs[i], AllocNext(s, p, np).procs[i])
    ensures s.procs[p].pc == ForkCopy(np) ==>
              && Changed(s, p, Does(ForkFail), i, s.procs[i], FailNext(s, p, np).procs[i])
              && Changed(s, p, Does(ForkLink), i, s.procs[i], LinkNext(s, p, np).procs[i])
    ensures s.procs[p].pc == ForkLinked(np) ==> Changed(s, p, Does(ForkRun), i, s.procs[i], RunNext(s, p, np).procs[i])
  {
    hide TableOk; hide Tree; hide Status;
    Facts(s, p);
  }

  lemma ExitOthers(s: State, p: int, k: nat, i: int)
    requires Shaped(s) && Index(p) && Index(i) && i != p
    ensures Changed(s, p, Does(ExitBegin), i, s.procs[i], ExitStart(s, p).procs[i])
    ensures Changed(s, p, Does(ReparentStep), i, s.procs[i], ReparentNext(s, p, k).procs[i])
    ensures ZombieNext(s, p).procs[i] == s.procs[i]
  {
  }

  lemma WakeOthers(s: State, p: int, i: int)
    requires Shaped(s) && Index(p) && Index(i) && i != p && Waking(s.procs[p].pc)
    ensures Changed(s, p, Does(WakeStep), i, s.procs[i], WakeNext(s, p).procs[i])
  {
    hide WakeChan;
  }

  lemma ScanOthers(s: State, p: int, copied: bool, i: int)
    requires Shaped(s) && Index(p) && Index(i) && i != p && s.procs[p].pc.WaitScan?
    ensures Changed(s, p, Does(ScanStep(copied)), i, s.procs[i], ScanNext(s, p, copied).procs[i])
  {
    hide ScanPc;
  }

  lemma SendOthers(s: State, p: int, t: int, i: int)
    requires Shaped(s) && Index(p) && Index(i) && Index(t) && i != p && s.procs[t].run != Unused
    ensures Changed(s, p, Does(SendTo(t)), i, s.procs[i], SendNext(s, p, t).procs[i])
  {
  }

  lemma QuietOthers(s: State, p: int, e: Event, i: int)
    requires Shaped(s) && Enabled(s, p, e) && !e.Does? && Index(i) && i != p
    ensures Apply(s, p, e).procs[i] == s.procs[i]
  {
    hide Acted; hide ActEnabled;
  }

  /** Nothing else happens to a process that does not act. */
  lemma OthersChange(s: State, p: int, e: Event, i: int)
    requires TableOk(s) && Enabled(s, p, e) && Index(i) && i != p
    ensures Changed(s, p, e, i, s.procs[i], Apply(s, p, e).procs[i])
  {
    hide TableOk; hide OwnStep; hide AllocNext; hide FailNext; hide LinkNext; hide RunNext; hide ExitStart;
    hide ReparentNext; hide WakeNext; hide ZombieNext; hide ScanNext; hide SendNext; hide OwnEnabled; hide Emptied;
    Facts(s, p);
    hide Local;
    if e.Does? {
      match e.a {
        case Own(o) => OwnOthers(s, p, o, i);
        case ForkAlloc(np) => ForkOthers(s, p, np, i);
        case ForkFail => ForkOthers(s, p, s.procs[p].pc.np, i);
        case ForkLink => ForkOthers(s, p, s.procs[p].pc.np, i);
        case ForkRun => ForkOthers(s, p, s.procs[p].pc.np, i);
        case ExitBegin => ExitOthers(s, p, 0, i);
        case ReparentStep => ExitOthers(s, p, s.procs[p].pc.k, i);
        case WakeStep => WakeOthers(s, p, i);
        case ExitDone => ExitOthers(s, p, 0, i);
        case ScanStep(copied) => ScanOthers(s, p, copied, i);
        case SendTo(t) => SendOthers(s, p, t, i);
      }
    } else {
      QuietOthers(s, p, e, i);
    }
  }

  /** What the process a step is about keeps. */
  ghost predicate Remains(e: Event, p: int, q: Proc, q': Proc) {
    && q'.pid == q.pid && q'.parent == q.parent && q'.killed == (q.killed || e == Kill)
    && q'.ready == (if e == Does(SendTo(p)) then true else q.ready && e != Does(Own(RecvStep(true))))
    && (q.run == Unused || q.run == Used || q.run == Zombie ==> q'.run == q.run)
    && (q'.run == Zombie ==> q.run == Zombie || e == Does(ExitDone))
  }

  lemma OwnRemains(me: Proc, p: int, lock: int, o: OwnAct)
    requires me.run == Running && OwnEnabled(me, p, lock, o)
    ensures Remains(Does(Own(o)), p, me, OwnNext(me, p, lock, o).0)
  {
  }

  lemma ActRemains(s: State, p: int, a: Act)
    requires TableOk(s) && Index(p) && s.procs[p].run == Running && ActEnabled(s, p, a) && !a.Own?
    ensures Remains(Does(a), p, s.procs[p], Acted(s, p, a).procs[p])
  {
    hide TableOk; hide ScanPc; hide WakeChan; hide OwnEnabled; hide OwnStep;
    Facts(s, p);
  }

  lemma ActorRemains(s: State, p: int, e: Event)
    requires TableOk(s) && Enabled(s, p, e)
    ensures Remains(e, p, s.procs[p], Apply(s, p, e).procs[p])
  {
    hide TableOk; hide OwnEnabled; hide OwnNext; hide Acted; hide Remains; hide Local;
    Facts(s, p);
    if e.Does? {
      if e.a.Own? { OwnIs(s, p, e.a.o); OwnRemains(s.procs[p], p, s.lock, e.a.o); } else { ActRemains(s, p, e.a); }
    } else {
      QuietRemains(s, p, e);
    }
  }

  lemma OwnIs(s: State, p: int, o: OwnAct)
    requires Shaped(s) && Index(p) && OwnEnabled(s.procs[p], p, s.lock, o)
    ensures Acted(s, p, Own(o)).procs[p] == OwnNext(s.procs[p], p, s.lock, o).0
  {
    hide OwnEnabled; hide OwnNext;
  }

  lemma QuietRemains(s: State, p: int, e: Event)
    requires Shaped(s) && Enabled(s, p, e) && !e.Does?
    ensures Remains(e, p, s.procs[p], Apply(s, p, e).procs[p])
  {
    hide Acted; hide ActEnabled;
  }

  // ---- wait and waitpid -----------------------------------------------------------------------

  /** c is a child that the wait of p is about. */
  predicate Awaited(s: State, p: int, kind: Kind, c: int)
    requires Shaped(s) && Index(c)
  {
    s.procs[c].parent == p
    && match kind
       case AnyChild => true
       case ChildPid(pid) => s.procs[c].pid == pid
       case Message => false
  }

  /** The scan of wait finds an exited child: its slot is free, the caller returns with wait_lock
      released, and nothing else changes.  If the status could not be copied out the child
      stays as it is. */
  lemma WaitReaps(s: State, p: int, copied: bool)
    requires TableOk(s) && Enabled(s, p, Does(ScanStep(copied)))
    requires var k := s.procs[p].pc.k; k < NPROC && Awaited(s, p, s.procs[p].pc.kind, k) && s.procs[k].run == Zombie
    ensures var s', k := Apply(s, p, Does(ScanStep(copied))), s.procs[p].pc.k;
            && s'.procs[p] == s.procs[p].(pc := User) && s'.lock == -1 && s'.nextpid == s.nextpid && k != p
            && s'.procs[k] == (if copied then Emptied(s.procs[k]) else s.procs[k])
            && forall i :: Index(i) && i != p && i != k ==> s'.procs[i] == s.procs[i]
  {
    hide TableOk; hide Local; hide OwnEnabled;
    Facts(s, p);
  }

  /** The scan passes a child that has not exited, and remembers that there is one; it passes
      everybody else. */
  lemma WaitPasses(s: State, p: int, copied: bool)
    requires TableOk(s) && Enabled(s, p, Does(ScanStep(copied)))
    requires var k := s.procs[p].pc.k;
             k < NPROC && !(Awaited(s, p, s.procs[p].pc.kind, k) && s.procs[k].run == Zombie)
    ensures var s', pc := Apply(s, p, Does(ScanStep(copied))), s.procs[p].pc;
            && s'.lock == s.lock && s'.procs[p] == s.procs[p].(pc := s'.procs[p].pc)
            && (forall i :: Index(i) && i != p ==> s'.procs[i] == s.procs[i])
            && s'.procs[p].pc == (if !Awaited(s, p, pc.kind, pc.k) then WaitScan(pc.kind, pc.k + 1, pc.kids)
                                  else WaitScan(pc.kind, if pc.kind.ChildPid? then NPROC else pc.k + 1, true))
  {
    hide TableOk; hide Local; hide OwnEnabled;
    Facts(s, p);
  }

  // ---- a scan that has found nothing has missed nobody ---------------------------------------

  /** The scan of w has not passed an awaited child without noting it. */
  ghost predicate Noted(s: State, w: int, c: int)
    requires Shaped(s) && Index(w) && Index(c)
  {
    var pc := s.procs[w].pc;
    pc.WaitScan? && c < pc.k && Awaited(s, w, pc.kind, c) ==> pc.kids
  }

  ghost predicate NotedOk(s: State) {
    Shaped(s) && forall w, c :: Index(w) && Index(c) ==> Noted(s, w, c)
  }

  /** Nobody becomes an awaited child of w while w scans and another acts. */
  lemma NoNewChild(s: State, p: int, e: Event, w: int, c: int)
    requires TableOk(s) && Enabled(s, p, e) && Index(w) && Index(c) && w != p && s.procs[w].pc.WaitScan?
    requires Awaited(Apply(s, p, e), w, s.procs[w].pc.kind, c)
    ensures Awaited(s, w, s.procs[w].pc.kind, c)
  {
    hide TableOk; hide Apply; hide Enabled; hide Emptied;
    Facts(s, w);
    Facts(s, c);
    if c == p {
      ActorRemains(s, p, e);
    } else {
      OthersChange(s, p, e, c);
      if e == Does(ReparentStep) { ReparentHolds(s, p, w); }
    }
  }

  lemma ReparentHolds(s: State, p: int, w: int)
    requires TableOk(s) && Enabled(s, p, Does(ReparentStep)) && Index(w) && w != p
    ensures !s.procs[w].pc.WaitScan?
  {
    hide TableOk;
    Facts(s, p);
    Facts(s, w);
  }

  lemma NotedStep(s: State, p: int, e: Event, w: int, c: int)
    requires TableOk(s) && Enabled(s, p, e) && Index(w) && Index(c) && Noted(s, w, c)
    ensures Noted(Apply(s, p, e), w, c)
  {
    hide TableOk; hide Apply; hide Enabled; hide Awaited; hide Local;
    Facts(s, w);
    var s' := Apply(s, p, e);
    if s'.procs[w].pc.WaitScan? && c < s'.procs[w].pc.k && Awaited(s', w, s'.procs[w].pc.kind, c) {
      if w != p {
        OthersKeepPc(s, p, e, w);
        NoNewChild(s, p, e, w, c);
      } else {
        NotedOwn(s, p, e, c);
      }
    }
  }

  /** The scan's own steps. */
  lemma NotedOwn(s: State, p: int, e: Event, c: int)
    requires TableOk(s) && Enabled(s, p, e) && Index(c) && Noted(s, p, c)
    requires var s' := Apply(s, p, e);
             s'.procs[p].pc.WaitScan? && c < s'.procs[p].pc.k && Awaited(s', p, s'.procs[p].pc.kind, c)
    ensures Apply(s, p, e).procs[p].pc.kids
  {
    if e.Does? && e.a.ScanStep? {
      ScanNotes(s, p, e.a.copied, c);
    } else if e.Does? {
      StartsAtZero(s, p, e);
    } else {
      QuietSame(s, p, e, c);
    }
  }

  lemma QuietSame(s: State, p: int, e: Event, c: int)
    requires Shaped(s) && Enabled(s, p, e) && !e.Does? && Index(c)
    ensures var s' := Apply(s, p, e);
            && s'.procs[p].pc == s.procs[p].pc
            && s'.procs[c].parent == s.procs[c].parent && s'.procs[c].pid == s.procs[c].pid
  {
    hide Acted; hide ActEnabled;
  }

  /** Any other act leaves the process outside a scan or at its start. */
  lemma StartsAtZero(s: State, p: int, e: Event)
    requires TableOk(s) && Enabled(s, p, e) && e.Does? && !e.a.ScanStep?
    ensures Apply(s, p, e).procs[p].pc.WaitScan? ==> Apply(s, p, e).procs[p].pc.k == 0
  {
    hide TableOk; hide WakeChan; hide Tree; hide OwnStep;
    Facts(s, p);
    if e.a.Own? {
      OwnIs(s, p, e.a.o);
    }
  }

  lemma ScanNotes(s: State, p: int, copied: bool, c: int)
    requires TableOk(s) && Enabled(s, p, Does(ScanStep(copied))) && Index(c) && Noted(s, p, c)
    requires var s' := Apply(s, p, Does(ScanStep(copied)));
             s'.procs[p].pc.WaitScan? && c < s'.procs[p].pc.k && Awaited(s', p, s'.procs[p].pc.kind, c)
    ensures Apply(s, p, Does(ScanStep(copied))).procs[p].pc.kids
  {
    var k := s.procs[p].pc.k;
    if k < NPROC {
      if Awaited(s, p, s.procs[p].pc.kind, k) && s.procs[k].run == Zombie {
        WaitReaps(s, p, copied);
      } else {
        WaitPasses(s, p, copied);
      }
    }
  }

  lemma {:induction false} RunKeepsNoted(run: Run, s: State)
    requires Reaches(run, s)
    ensures NotedOk(s)
    decreases |run|
  {
    hide TableOk; hide Apply; hide Enabled; hide Noted;
    if run == [] {
      BootedNoted();
    } else {
      var s0 :| Reaches(run[..|run| - 1], s0) && Shaped(s0) && LastStep(run, s0, s);
      RunKeepsInv(run[..|run| - 1], s0);
      RunKeepsNoted(run[..|run| - 1], s0);
      var (p, e) := run[|run| - 1];
      forall w, c | Index(w) && Index(c) ensures Noted(s, w, c) { NotedStep(s0, p, e, w, c); }
    }
  }

  lemma BootedNoted()
    ensures NotedOk(Booted())
  {
  }

  /** In every reachable state, a wait whose scan is over gives up if and only if the caller
      was killed or has no such child; otherwise it goes to sleep.  Both release wait_lock. */
  lemma WaitGivesUp(run: Run, s: State, p: int, copied: bool)
    requires Reaches(run, s) && Shaped(s) && Enabled(s, p, Does(ScanStep(copied))) && s.procs[p].pc.k >= NPROC
    ensures var s', kind := Apply(s, p, Does(ScanStep(copied))), s.procs[p].pc.kind;
            && (s'.procs[p].pc == User || s'.procs[p].pc == Pausing(kind))
            && (s'.procs[p].pc == User <==> s.procs[p].killed || forall c :: Index(c) ==> !Awaited(s, p, kind, c))
            && s' == s.(procs := s'.procs, lock := -1) && s'.procs[p] == s.procs[p].(pc := s'.procs[p].pc)
            && forall i :: Index(i) && i != p ==> s'.procs[i] == s.procs[i]
  {
    hide Reaches; hide TableOk; hide OwnEnabled;
    RunKeepsInv(run, s);
    RunKeepsNoted(run, s);
    var pc := s.procs[p].pc;
    assert Expecting(s, p);
    if pc.kids {
      var c :| Index(c) && Match(s, pc.kind, p, c);
      assert Awaited(s, p, pc.kind, c);
    } else {
      forall c | Index(c) ensures !Awaited(s, p, pc.kind, c) { assert Noted(s, p, c); }
    }
  }

  /** Inside a wait or a receive of this kind. */
  predicate Waits(pc: Pc, kind: Kind) {
    || (pc.RecvCheck? && kind.Message?)
    || ((pc.WaitScan? || pc.Pausing? || pc.Asleep? || pc.Relock?) && pc.kind == kind)
  }

  /** A wait, whatever wakes or kills its caller, ends only in a scan of the table, and a
      receive only in a look at the mailbox. */
  lemma WaitGoesOn(s: State, p: int, e: Event, w: int, kind: Kind)
    requires TableOk(s) && Enabled(s, p, e) && Index(w) && Waits(s.procs[w].pc, kind)
    ensures var pc' := Apply(s, p, e).procs[w].pc;
            || Waits(pc', kind)
            || (pc' == User && w == p && e.Does? && (e.a.ScanStep? || (e.a.Own? && e.a.o.RecvStep?)))
  {
    hide TableOk; hide Apply; hide Tree;
    Facts(s, w);
    if w == p { OwnWaitGoesOn(s, p, e, kind); } else { OthersChange(s, p, e, w); }
  }

  lemma OwnWaitGoesOn(s: State, p: int, e: Event, kind: Kind)
    requires Shaped(s) && Enabled(s, p, e) && Waits(s.procs[p].pc, kind)
    ensures var pc' := Apply(s, p, e).procs[p].pc;
            Waits(pc', kind) || (pc' == User && e.Does? && (e.a.ScanStep? || (e.a.Own? && e.a.o.RecvStep?)))
  {
    hide OwnStep;
    if e.Does? && e.a.Own? { OwnIs(s, p, e.a.o); }
  }

  // ---- a pid is reaped once -------------------------------------------------------------------

  /** The rest of a run takes s to s'. */
  ghost predicate Follows(s: State, more: Run, s': State)
    requires Shaped(s)
    decreases |more|
  {
    if more == [] then s' == s
    else Enabled(s, more[0].0, more[0].1) && Follows(Apply(s, more[0].0, more[0].1), more[1..], s')
  }

  /** pid has been given out and nobody holds it. */
  ghost predicate Gone(s: State, pid: int) {
    Shaped(s) && 0 < pid < s.nextpid && forall i :: Index(i) ==> s.procs[i].pid != pid
  }

  /** Pids are given out in order. */
  lemma NextPidGrows(s: State, p: int, e: Event)
    requires Shaped(s) && Enabled(s, p, e)
    ensures Apply(s, p, e).nextpid == s.nextpid + (if e.Does? && e.a.ForkAlloc? then 1 else 0)
  {
    hide OwnNext; hide OwnEnabled; hide ScanPc; hide WakeChan; hide ScanFinds;
  }

  lemma GoneStep(s: State, p: int, e: Event, pid: int)
    requires TableOk(s) && Enabled(s, p, e) && Gone(s, pid)
    ensures Gone(Apply(s, p, e), pid)
  {
    hide TableOk; hide Apply; hide Enabled; hide Emptied;
    NextPidGrows(s, p, e);
    var s' := Apply(s, p, e);
    forall i | Index(i) ensures s'.procs[i].pid != pid {
      if i == p { ActorRemains(s, p, e); } else { OthersChange(s, p, e, i); }
    }
  }

  lemma {:induction false} GoneForGood(s: State, more: Run, s': State, pid: int)
    requires TableOk(s) && Gone(s, pid) && Follows(s, more, s')
    ensures Gone(s', pid)
    decreases |more|
  {
    hide TableOk; hide Apply; hide Enabled; hide Gone; hide Local;
    Facts(s, INIT);
    if more != [] {
      var (p, e) := more[0];
      TableKeeps(s, p, e);
      GoneStep(s, p, e, pid);
      GoneForGood(Apply(s, p, e), more[1..], s', pid);
    }
  }

  /** Each exited child is returned by one wait: once a wait has reaped it, no process of any
      later state has its pid, so no later wait can find it. */
  lemma ReapedOnce(run: Run, s: State, p: int, more: Run, s': State)
    requires Reaches(run, s) && Shaped(s) && Enabled(s, p, Does(ScanStep(true)))
    requires var k := s.procs[p].pc.k; k < NPROC && Awaited(s, p, s.procs[p].pc.kind, k) && s.procs[k].run == Zombie
    requires Follows(Apply(s, p, Does(ScanStep(true))), more, s')
    ensures Gone(s', s.procs[s.procs[p].pc.k].pid)
  {
    hide Reaches; hide TableOk; hide Apply; hide Follows;
    RunKeepsInv(run, s);
    var e, k := Does(ScanStep(true)), s.procs[p].pc.k;
    var s1 := Apply(s, p, e);
    WaitReaps(s, p, true);
    Facts(s, k);
    forall i | Index(i) ensures s1.procs[i].pid != s.procs[k].pid {
      if i != k {
        Facts(s, i);
        PidsApart(s, i, k);
      }
    }
    TableKeeps(s, p, e);
    GoneForGood(s1, more, s', s.procs[k].pid);
  }

  lemma PidsApart(s: State, i: int, j: int)
    requires TableOk(s) && Index(i) && Index(j) && i != j
    ensures Shaped(s) && (s.procs[i].run != Unused && s.procs[j].run != Unused ==> s.procs[i].pid != s.procs[j].pid)
  {
    assert Apart(s, i, j);
  }

  /** And by no fewer: an exited child stays, with its pid, until its parent reaps it. */
  lemma ZombieStays(s: State, p: int, e: Event, z: int)
    requires TableOk(s) && Enabled(s, p, e) && Index(z) && s.procs[z].run == Zombie
    ensures var q, q' := s.procs[z], Apply(s, p, e).procs[z];
            if q'.run != Zombie then e == Does(ScanStep(true)) && q.parent == p && q' == Emptied(q)
            else
              && q'.pid == q.pid
              && (q'.parent == q.parent || (e == Does(ReparentStep) && q.parent == p && q'.parent == INIT))
  {
    hide TableOk; hide Apply; hide Enabled; hide Emptied;
    if z == p { ActorRemains(s, p, e); } else { OthersChange(s, p, e, z); }
  }

  // ---- kill and messages ----------------------------------------------------------------------

  /** A kill marks its target, takes it out of a sleep and does nothing else; the mark stays
      until the slot is freed. */
  lemma KillMarks(s: State, p: int)
    requires Shaped(s) && Enabled(s, p, Kill)
    ensures var s' := Apply(s, p, Kill);
            && s'.procs[p] == s.procs[p].(killed := true, run := s'.procs[p].run) && s' == s.(procs := s'.procs)
            && s'.procs[p].run == (if s.procs[p].run == Sleeping then Runnable else s.procs[p].run)
            && forall i :: Index(i) && i != p ==> s'.procs[i] == s.procs[i]
  {
  }

  lemma KilledStays(s: State, p: int, e: Event, i: int)
    requires TableOk(s) && Enabled(s, p, e) && Index(i)
    ensures var q, q' := s.procs[i], Apply(s, p, e).procs[i];
            && (q.killed && !q'.killed ==> q' == Emptied(q))
            && (!q.killed && q'.killed ==> e == Kill && i == p)
  {
    hide TableOk; hide Apply; hide Enabled;
    if i == p { ActorRemains(s, p, e); } else { OthersChange(s, p, e, i); }
  }

  /** A message is consumed by the receive that copies it out, stays if the copy fails, and
      without one the receiver goes to sleep unless it was killed. */
  lemma Receives(s: State, p: int, copied: bool)
    requires Shaped(s) && Enabled(s, p, Does(Own(RecvStep(copied))))
    ensures var q, s' := s.procs[p], Apply(s, p, Does(Own(RecvStep(copied))));
            && s'.lock == -1 && s'.nextpid == s.nextpid
            && s'.procs[p].pc == (if q.ready || q.killed then User else Pausing(Message))
            && s'.procs[p] == q.(ready := q.ready && !copied, pc := s'.procs[p].pc)
            && forall i :: Index(i) && i != p ==> s'.procs[i] == s.procs[i]
  {
  }

  /** A mailbox fills only by a send to it, and empties only by its owner's receive or with
      the slot: no message is lost and none is read twice. */
  lemma MailboxChanges(s: State, p: int, e: Event, i: int)
    requires TableOk(s) && Enabled(s, p, e) && Index(i)
    ensures var q, q' := s.procs[i], Apply(s, p, e).procs[i];
            && (!q.ready && q'.ready <==> e == Does(SendTo(i)) && !q.ready)
            && (q.ready && !q'.ready ==>
                  (i == p && e == Does(Own(RecvStep(true)))) || q.run == Unused || q' == Emptied(q))
  {
    hide TableOk; hide Apply;
    Facts(s, i);
    if i == p { ActorRemains(s, p, e); } else { OthersChange(s, p, e, i); }
    if e == Does(SendTo(i)) { SendFills(s, p, i); }
  }

  lemma SendFills(s: State, p: int, t: int)
    requires Shaped(s) && Enabled(s, p, Does(SendTo(t)))
    ensures Apply(s, p, Does(SendTo(t))).procs[t].ready
  {
  }

  // ---- sleeping and giving up leave nothing behind --------------------------------------------

  /** A process that yields is runnable, and goes on where it was. */
  lemma YieldsBack(s: State, p: int)
    requires Shaped(s) && Enabled(s, p, Does(Own(Yield)))
    ensures var s1 := Apply(s, p, Does(Own(Yield)));
            s1.procs[p].run == Runnable && Enabled(s1, p, Dispatch) && Apply(s1, p, Dispatch) == s
  {
    assert s.procs[p := s.procs[p].(run := Runnable)][p := s.procs[p]] == s.procs;
  }

  /** A process that sleeps on a channel of another part of the kernel, inside kexit too, is
      woken there and goes on where it was. */
  lemma SleepsAndResumes(s: State, p: int, c: int)
    requires Shaped(s) && Enabled(s, p, Does(Own(SleepOther(c))))
    ensures var s1 := Apply(s, p, Does(Own(SleepOther(c))));
            && s1.procs[p].run == Sleeping && s1.procs[p].chan == Other(c) && Enabled(s1, p, WakeOther)
            && var s2 := Apply(s1, p, WakeOther);
               && Enabled(s2, p, Dispatch)
               && var s3 := Apply(s2, p, Dispatch);
                  && Enabled(s3, p, Does(Own(ResumeOther)))
                  && Apply(s3, p, Does(Own(ResumeOther))) == Put(s, p, s.procs[p].(chan := NoChan))
  {
    var s1 := Apply(s, p, Does(Own(SleepOther(c))));
    var s2 := Apply(s1, p, WakeOther);
    var s3 := Apply(s2, p, Dispatch);
    var s4 := Apply(s3, p, Does(Own(ResumeOther)));
    assert s4.procs == s.procs[p := s.procs[p].(chan := NoChan)];
  }

  /** A wait or a receive that pauses sleeps on its own process; once woken it looks again
      from the start, when it has wait_lock. */
  lemma LooksAgain(s: State, p: int)
    requires Shaped(s) && Enabled(s, p, Does(Own(Sleep))) && s.lock == -1
    ensures var q, s1 := s.procs[p], Apply(s, p, Does(Own(Sleep)));
            && s1 == Put(s, p, s1.procs[p]) && s1.procs[p].run == Sleeping && s1.procs[p].chan == Self(p)
            && var s2 := Put(s1, p, s1.procs[p].(run := Running));
               && Enabled(s2, p, Does(Own(Resume)))
               && var s3 := Apply(s2, p, Does(Own(Resume)));
                  && Enabled(s3, p, Does(Own(Regain)))
                  && var again := if q.pc.kind.Message? then RecvCheck else WaitScan(q.pc.kind, 0, false);
                     Apply(s3, p, Does(Own(Regain))) == Put(s, p, q.(chan := NoChan, pc := again)).(lock := p)
  {
    var q, s1 := s.procs[p], Apply(s, p, Does(Own(Sleep)));
    var s2 := Put(s1, p, s1.procs[p].(run := Running));
    var s3 := Apply(s2, p, Does(Own(Resume)));
    var s4 := Apply(s3, p, Does(Own(Regain)));
    assert s4.procs == s.procs[p := s4.procs[p]];
  }

  /** A fork at the limit changes nothing, and one that finds no slot leaves the process where
      it was. */
  lemma ForkRefused(s: State, p: int)
    requires Shaped(s) && Enabled(s, p, Does(Own(ForkCheck)))
    ensures var s1 := Apply(s, p, Does(Own(ForkCheck)));
            if s.procs[p].forks >= FORK_LIMIT then s1 == s
            else Enabled(s1, p, Does(Own(ForkGiveUp))) && Apply(s1, p, Does(Own(ForkGiveUp))) == s
  {
    assert s.procs[p := s.procs[p]] == s.procs;
    assert s.procs[p := s.procs[p].(pc := ForkChecked)][p := s.procs[p]] == s.procs;
  }

  /** One that runs out of memory has used up a pid and nothing else. */
  lemma ForkUndone(s: State, p: int, np: int)
    requires TableOk(s) && Enabled(s, p, Does(ForkAlloc(np)))
    ensures var s1 := Apply(s, p, Does(ForkAlloc(np)));
            && s1.procs[np].pid == s.nextpid && s1.procs[np].run == Used && np != p
            && Enabled(s1, p, Does(ForkFail))
            && Apply(s1, p, Does(ForkFail))
               == Put(Put(s, np, Emptied(s1.procs[np])), p, s.procs[p].(pc := User)).(nextpid := s.nextpid + 1)
  {
    hide TableOk; hide Local;
    Facts(s, p);
    var s1 := Apply(s, p, Does(ForkAlloc(np)));
    var s2 := Apply(s1, p, Does(ForkFail));
    assert s2.procs == s.procs[np := Emptied(s1.procs[np])][p := s.procs[p].(pc := User)];
  }

  // ---- wait_lock is given back ----------------------------------------------------------------

  function Ahead(k: nat): nat { if k < NPROC then NPROC - k else 0 }

  /** The most steps that a process at pc makes before it releases wait_lock. */
  function LockLeft(pc: Pc): nat {
    match pc
    case Reparent(k) => NPROC + 4 + Ahead(k) * (NPROC + 3)
    case ReparentWake(k, j) => NPROC + 5 + Ahead(k + 1) * (NPROC + 3) + Ahead(j)
    case ExitWake(j) => 2 + Ahead(j)
    case WaitScan(_, k, _) => 1 + Ahead(k)
    case SendPick(_) => NPROC + 2
    case SendWake(_, j) => 1 + Ahead(j)
    case _ => 1
  }

  /** p has released wait_lock, or is nearer to it. */
  predicate Nearer(s: State, s': State, p: int)
    requires Shaped(s) && Shaped(s') && Index(p)
  {
    if Holds(s'.procs[p].pc) then s'.lock == p && LockLeft(s'.procs[p].pc) < LockLeft(s.procs[p].pc) else s'.lock == -1
  }

  lemma ReparentNearer(s: State, p: int)
    requires Shaped(s) && Index(p) && s.procs[p].pc.Reparent? && s.lock == p
    ensures Nearer(s, ReparentNext(s, p, s.procs[p].pc.k), p)
  {
  }

  lemma WakeNearer(s: State, p: int)
    requires Shaped(s) && Index(p) && Waking(s.procs[p].pc) && s.lock == p
    ensures Nearer(s, WakeNext(s, p), p)
  {
    hide WakeChan;
  }

  lemma ScanNearer(s: State, p: int, copied: bool)
    requires Shaped(s) && Index(p) && s.procs[p].pc.WaitScan? && s.lock == p && s.procs[p].run == Running
    ensures Nearer(s, ScanNext(s, p, copied), p)
  {
    hide Match;
  }

  lemma OwnNearer(s: State, p: int, o: OwnAct)
    requires Shaped(s) && Index(p) && OwnEnabled(s.procs[p], p, s.lock, o) && Holds(s.procs[p].pc) && s.lock == p
    ensures Nearer(s, OwnStep(s, p, o), p)
  {
  }

  /** The holder of wait_lock comes nearer to its release with each of its steps: no exit, no
      wait and no message keeps it for ever. */
  lemma LockIsReturned(s: State, p: int, a: Act)
    requires TableOk(s) && Enabled(s, p, Does(a)) && Holds(s.procs[p].pc)
    ensures Nearer(s, Apply(s, p, Does(a)), p)
  {
    hide TableOk; hide OwnStep; hide ReparentNext; hide WakeNext; hide ScanNext; hide OwnEnabled; hide Tree;
    Facts(s, p);
    match a {
      case Own(o) => OwnNearer(s, p, o);
      case ReparentStep => ReparentNearer(s, p);
      case WakeStep => WakeNearer(s, p);
      case ScanStep(copied) => ScanNearer(s, p, copied);
      case _ =>
    }
  }
}
