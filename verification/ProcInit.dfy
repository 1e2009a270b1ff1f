/** init's fork_count.  reparent() gives a dying process's children to init without adding
    them to init's count, yet each of them subtracts one from it when it exits. */
module ProcInit {

  import opened ProcModel
  import opened ProcForks
  import opened ProcProps

  /** A step of kexit gives a child that has not begun to exit to init. */
  predicate Adopts(s: State, p: int, e: Event)
    requires Shaped(s)
  {
    && Index(p) && e == Does(ReparentStep) && s.procs[p].pc.Reparent? && s.procs[p].pc.k < NPROC
    && s.procs[s.procs[p].pc.k].parent == p && !Begun(s.procs[s.procs[p].pc.k].pc)
  }

  /** By how much init's count is short. */
  ghost function Drift(s: State): int
    requires Shaped(s)
  {
    |Kids(s, INIT)| - Tally(s.procs[INIT])
  }

  lemma LinkDrift(s: State, p: int)
    requires TableOk(s) && Index(p) && s.procs[p].run == Running && s.procs[p].pc.ForkCopy? && Index(s.procs[p].pc.np)
    ensures Drift(LinkNext(s, p, s.procs[p].pc.np)) == Drift(s)
  {
    hide TableOk;
    Facts(s, p);
    hide Tree;
    var np := s.procs[p].pc.np;
    Facts(s, np);
    LinkedKids(s, p, np);
  }

  lemma ExitDrift(s: State, p: int)
    requires TableOk(s) && Index(p) && s.procs[p].run == Running && s.procs[p].pc == User && p != INIT
    ensures Drift(ExitStart(s, p)) == Drift(s)
  {
    hide TableOk; hide Local;
    ParentFacts(s, p);
    var s' := ExitStart(s, p);
    if s.procs[p].parent == INIT {
      forall c | 0 <= c < NPROC ensures c in Kids(s', INIT) <==> c in Kids(s, INIT) && c != p { }
      assert Kids(s', INIT) == Kids(s, INIT) - {p} && p in Kids(s, INIT);
    } else {
      KidsSame(s, s', INIT);
    }
  }

  lemma ReparentDrift(s: State, p: int)
    requires TableOk(s) && Index(p) && s.procs[p].run == Running && s.procs[p].pc.Reparent?
    ensures Drift(ReparentNext(s, p, s.procs[p].pc.k)) == Drift(s) + if Adopts(s, p, Does(ReparentStep)) then 1 else 0
  {
    hide TableOk; hide Local;
    InitNotBegun(s, p);
    ParentFacts(s, p);
    var k := s.procs[p].pc.k;
    var s' := ReparentNext(s, p, k);
    if Adopts(s, p, Does(ReparentStep)) {
      forall c | 0 <= c < NPROC ensures c in Kids(s', INIT) <==> c in Kids(s, INIT) || c == k { }
      assert Kids(s', INIT) == Kids(s, INIT) + {k} && k !in Kids(s, INIT);
    } else {
      KidsSame(s, s', INIT);
    }
  }

  lemma RunDrift(s: State, p: int)
    requires TableOk(s) && Index(p) && s.procs[p].run == Running && s.procs[p].pc.ForkLinked? && Index(s.procs[p].pc.np)
    ensures Drift(RunNext(s, p, s.procs[p].pc.np)) == Drift(s)
  {
    hide TableOk;
    Facts(s, p);
    hide Tree;
    KidsSame(s, RunNext(s, p, s.procs[p].pc.np), INIT) by { Facts(s, s.procs[p].pc.np); }
    Facts(s, s.procs[p].pc.np);
    Facts(s, INIT);
  }

  lemma PlainDrift(s: State, p: int, e: Event)
    requires TableOk(s) && Enabled(s, p, e) && Plain(e)
    ensures Drift(Apply(s, p, e)) == Drift(s)
  {
    hide TableOk; hide Apply; hide Plain; hide Enabled;
    Facts(s, INIT);
    var s' := Apply(s, p, e);
    forall c | Index(c) ensures SameTally(s.procs[c], s'.procs[c]) { PlainTally(s, p, e, c); }
    KidsSame(s, s', INIT);
    TableKeeps(s, p, e);
    Facts(s', INIT);
  }

  /** A step makes init's count short by one more exactly when it adopts. */
  lemma StepDrift(s: State, p: int, e: Event)
    requires TableOk(s) && Enabled(s, p, e)
    ensures Drift(Apply(s, p, e)) == Drift(s) + if Adopts(s, p, e) then 1 else 0
  {
    hide TableOk; hide Drift; hide LinkNext; hide RunNext; hide ExitStart; hide ReparentNext;
    hide OwnStep; hide AllocNext; hide FailNext; hide WakeNext; hide ZombieNext; hide ScanNext;
    hide SendNext; hide OwnEnabled;
    if Plain(e) {
      PlainDrift(s, p, e);
    } else {
      match e.a {
        case ForkLink => LinkDrift(s, p);
        case ForkRun => RunDrift(s, p);
        case ExitBegin => ExitDrift(s, p);
        case ReparentStep => ReparentDrift(s, p);
        case _ =>
      }
    }
  }

  // ---- over whole runs ---------------------------------------------------------------------

  /** A run determines the state it reaches. */
  lemma {:induction false} ReachesOnce(run: Run, s: State, s': State)
    requires Reaches(run, s) && Reaches(run, s')
    ensures s == s'
    decreases |run|
  {
    hide Apply; hide Enabled;
    if run != [] {
      var prefix := run[..|run| - 1];
      var s0 :| Reaches(prefix, s0) && Shaped(s0) && LastStep(run, s0, s);
      var s1 :| Reaches(prefix, s1) && Shaped(s1) && LastStep(run, s1, s');
      ReachesOnce(prefix, s0, s1);
    }
  }

  /** The last step of the run was an adoption. */
  ghost predicate AdoptsLast(run: Run)
    requires run != []
  {
    exists s0 :: Reaches(run[..|run| - 1], s0) && Shaped(s0) && Adopts(s0, run[|run| - 1].0, run[|run| - 1].1)
  }

  /** How many steps of the run were adoptions. */
  ghost function Adoptions(run: Run): nat {
    if run == [] then 0 else Adoptions(run[..|run| - 1]) + if AdoptsLast(run) then 1 else 0
  }

  /** init's count is short by exactly the number of adoptions. */
  lemma {:induction false} InitDrift(run: Run, s: State)
    requires Reaches(run, s)
    ensures Shaped(s) && |Kids(s, INIT)| == Tally(s.procs[INIT]) + Adoptions(run)
    decreases |run|
  {
    hide Apply; hide Enabled; hide Adopts; hide Kids; hide TableOk;
    if run == [] {
      assert Kids(s, INIT) == {} by { NoKidsYet(); }
    } else {
      var prefix := run[..|run| - 1];
      var s0 :| Reaches(prefix, s0) && Shaped(s0) && LastStep(run, s0, s);
      InitDrift(prefix, s0);
      RunKeepsInv(prefix, s0);
      StepDrift(s0, run[|run| - 1].0, run[|run| - 1].1);
      if AdoptsLast(run) {
        var s1 :| Reaches(prefix, s1) && Shaped(s1) && Adopts(s1, run[|run| - 1].0, run[|run| - 1].1);
        ReachesOnce(prefix, s0, s1);
      }
    }
  }

  lemma NoKidsYet()
    ensures Kids(Booted(), INIT) == {}
  {
  }

  /** fork lets a process go on exactly while it has fewer than ten children that have not
      begun to exit; init may have as many more as it has adopted. */
  lemma ForkAllowed(run: Run, s: State, i: int)
    requires Reaches(run, s) && Shaped(s) && Index(i) && s.procs[i].run == Running && s.procs[i].pc == User
    ensures Apply(s, i, Does(Own(ForkCheck))).procs[i].pc == ForkChecked <==>
            |Kids(s, i)| < FORK_LIMIT + if i == INIT then Adoptions(run) else 0
  {
    hide Kids; hide Reaches; hide Adoptions;
    if i == INIT { InitDrift(run, s); } else { ForkLimit(run, s, i); }
  }

  // ---- a run in which init has more than ten children -------------------------------------

  /** A run goes on by one step. */
  lemma Then(run: Run, s: State, p: int, e: Event)
    requires Reaches(run, s) && Shaped(s) && Enabled(s, p, e)
    ensures Reaches(run + [(p, e)], Apply(s, p, e))
  {
    hide Apply; hide Enabled;
    var longer := run + [(p, e)];
    assert longer[..|longer| - 1] == run;
    assert LastStep(longer, s, Apply(s, p, e));
  }

  /** The state after p has forked a child into slot np. */
  function Forked(s: State, p: int, np: int): (r: State)
    requires Shaped(s) && Index(p) && Index(np)
    ensures Shaped(r)
  {
    var child := s.procs[np].(run := Runnable, pid := s.nextpid, parent := p, forks := 0, ready := false);
    Put(Put(s, np, child), p, s.procs[p].(forks := s.procs[p].forks + 1)).(nextpid := s.nextpid + 1)
  }

  predicate CanFork(s: State, p: int, np: int) {
    && Shaped(s) && Index(p) && Index(np) && p != np && s.lock == -1 && s.procs[np].run == Unused
    && s.procs[p].run == Running && s.procs[p].pc == User && s.procs[p].forks < FORK_LIMIT
  }

  /** A whole fork. */
  lemma Fork(run: Run, s: State, p: int, np: int) returns (run': Run)
    requires Reaches(run, s) && CanFork(s, p, np)
    ensures Reaches(run', Forked(s, p, np))
  {
    hide Reaches;
    var s1 := At(s, p, ForkChecked);
    Then(run, s, p, Does(Own(ForkCheck)));
    run' := run + [(p, Does(Own(ForkCheck)))];
    var s2 := AllocNext(s1, p, np);
    Then(run', s1, p, Does(ForkAlloc(np)));
    run' := run' + [(p, Does(ForkAlloc(np)))];
    var s3 := LinkNext(s2, p, np);
    Then(run', s2, p, Does(ForkLink));
    run' := run' + [(p, Does(ForkLink))];
    var s4 := RunNext(s3, p, np);
    Then(run', s3, p, Does(ForkRun));
    run' := run' + [(p, Does(ForkRun))];
    Then(run', s4, p, Does(Own(ForkDone)));
    run' := run' + [(p, Does(Own(ForkDone)))];
    assert OwnStep(s4, p, ForkDone) == Forked(s, p, np);
  }

  /** init runs and has forked n children, into slots 1 .. n. */
  function Crowd(n: nat): (r: State)
    ensures Shaped(r)
  {
    State(seq(NPROC, i => if i == INIT then Proc(Running, NoChan, 1, -1, n, false, false, User)
                          else if 0 < i <= n then Proc(Runnable, NoChan, 1 + i, INIT, 0, false, false, User)
                          else Proc(Unused, NoChan, 0, -1, 0, false, false, User)), -1, 2 + n)
  }

  lemma {:induction false} Crowded(n: nat) returns (run: Run)
    requires n <= FORK_LIMIT
    ensures Reaches(run, Crowd(n))
  {
    hide Reaches;
    if n == 0 {
      assert Reaches([], Booted()) by { AtBoot(); }
      Then([], Booted(), INIT, Dispatch);
      run := [] + [(INIT, Dispatch)];
      assert Apply(Booted(), INIT, Dispatch) == Crowd(0);
    } else {
      run := Crowded(n - 1);
      run := Fork(run, Crowd(n - 1), INIT, n);
      assert Forked(Crowd(n - 1), INIT, n) == Crowd(n);
    }
  }

  lemma AtBoot()
    ensures Reaches([], Booted())
  {
  }

  /** reparent passes over slots that are not children. */
  lemma {:induction false} PassOver(run: Run, s: State, p: int, k: nat) returns (run': Run)
    requires Reaches(run, s) && Shaped(s) && Index(p) && s.procs[p].run == Running && s.procs[p].pc == Reparent(0)
    requires k <= NPROC && forall j :: 0 <= j < k ==> s.procs[j].parent != p
    ensures Reaches(run', At(s, p, Reparent(k)))
  {
    hide Reaches;
    run' := run;
    if k == 0 {
      assert At(s, p, Reparent(0)) == s;
    } else {
      run' := PassOver(run, s, p, k - 1);
      var s1 := At(s, p, Reparent(k - 1));
      Then(run', s1, p, Does(ReparentStep));
      run' := run' + [(p, Does(ReparentStep))];
      assert ReparentNext(s1, p, k - 1) == At(s, p, Reparent(k));
    }
  }

  /** Slot 1 forks slot 11 and begins to exit, init forks slot 12, slot 1 takes wait_lock. */
  function BeforeAdoption(): (s: State)
    ensures Shaped(s)
  {
    var s1 := Crowd(FORK_LIMIT);
    var s2 := Forked(Put(s1, 1, s1.procs[1].(run := Running)), 1, 11);
    var s3 := Forked(ExitStart(s2, 1), INIT, 12);
    At(s3, 1, Reparent(0)).(lock := 1)
  }

  lemma ReachAdoption() returns (run: Run)
    ensures Reaches(run, BeforeAdoption())
  {
    hide Reaches;
    run := Crowded(FORK_LIMIT);
    var s1 := Crowd(FORK_LIMIT);
    Then(run, s1, 1, Dispatch);
    run := run + [(1, Dispatch)];
    run := Fork(run, Put(s1, 1, s1.procs[1].(run := Running)), 1, 11);
    var s2 := Forked(Put(s1, 1, s1.procs[1].(run := Running)), 1, 11);
    Then(run, s2, 1, Does(ExitBegin));
    run := run + [(1, Does(ExitBegin))];
    run := Fork(run, ExitStart(s2, 1), INIT, 12);
    var s3 := Forked(ExitStart(s2, 1), INIT, 12);
    Then(run, s3, 1, Does(Own(ExitLock)));
    run := run + [(1, Does(Own(ExitLock)))];
  }

  lemma BeforeAre(c: int)
    requires Index(c)
    ensures var q := BeforeAdoption().procs[c];
            && q.parent == (if 1 <= c <= 10 || c == 12 then INIT else if c == 11 then 1 else -1)
            && q.pc == (if c == 1 then Reparent(0) else User)
            && (c == INIT ==> q.forks == FORK_LIMIT) && (c == 1 ==> q.run == Running)
  {
  }

  /** An adoption happens, and it gives init an eleventh child. */
  lemma ElevenChildren() returns (run: Run, s: State)
    ensures Reaches(run, s) && Shaped(s) && run != [] && AdoptsLast(run)
    ensures |Kids(s, INIT)| > FORK_LIMIT
  {
    hide Reaches; hide BeforeAdoption; hide Kids;
    var r := ReachAdoption();
    var s0 := BeforeAdoption();
    forall c | Index(c) ensures c != 11 ==> s0.procs[c].parent != 1 { BeforeAre(c); }
    BeforeAre(1);
    BeforeAre(11);
    BeforeAre(INIT);
    r := PassOver(r, s0, 1, 11);
    var s1 := At(s0, 1, Reparent(11));
    Then(r, s1, 1, Does(ReparentStep));
    run, s := r + [(1, Does(ReparentStep))], ReparentNext(s1, 1, 11);
    assert run[..|run| - 1] == r && Adopts(s1, 1, Does(ReparentStep));
    InitDrift(run, s);
  }
}
