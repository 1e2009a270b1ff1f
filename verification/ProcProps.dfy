/** What holds in every reachable state of the process table. */
module ProcProps {

  import opened ProcModel
  import opened ProcWake
  import opened ProcForks
  import opened ProcKids

  /** After procinit and userinit: init is the only process. */
  function Booted(): State {
    State(seq(NPROC, i => if i == INIT then Proc(Runnable, NoChan, 1, -1, 0, false, false, User)
                          else Proc(Unused, NoChan, 0, -1, 0, false, false, User)), -1, 2)
  }

  /** A run: the acting process and what it does, step by step. */
  type Run = seq<(int, Event)>

  /** The state after a run, if every step was enabled. */
  ghost predicate Reaches(run: Run, s: State)
    decreases |run|
  {
    if run == [] then s == Booted()
    else exists s0 :: Reaches(run[..|run| - 1], s0) && Shaped(s0) && LastStep(run, s0, s)
  }

  ghost predicate LastStep(run: Run, s0: State, s: State)
    requires run != [] && Shaped(s0)
  {
    var (p, e) := run[|run| - 1];
    Enabled(s0, p, e) && s == Apply(s0, p, e)
  }

  ghost predicate Inv(s: State) { TableOk(s) && WakeOk(s) && ForksOk(s) && KidsOk(s) }

  lemma BootedOk()
    ensures Inv(Booted())
  {
    hide TableOk; hide WakeOk; hide ForksOk; hide KidsOk;
    BootedTable();
    BootedWake();
    BootedForks();
    BootedKids();
  }

  lemma BootedTable()
    ensures TableOk(Booted())
  {
    hide Holds; hide Begun; hide Disowned;
    forall i | Index(i) ensures Local(Booted(), i) { BootedLocal(i); }
  }

  lemma BootedLocal(i: int)
    requires Index(i)
    ensures Local(Booted(), i)
  {
    assert Booted().procs[i].pc == User;
  }

  lemma BootedWake()
    ensures WakeOk(Booted())
  {
    hide Match;
    forall i | Index(i) ensures Booted().procs[i].pc == User { }
  }

  lemma BootedForks()
    ensures ForksOk(Booted())
  {
    hide Kids;
    forall i | Index(i) ensures CountOk(Booted(), i) { }
  }

  lemma BootedKids()
    ensures KidsOk(Booted())
  {
    hide HasKid;
    forall i | Index(i) ensures Booted().procs[i].pc == User { }
  }

  lemma {:induction false} RunKeepsInv(run: Run, s: State)
    requires Reaches(run, s)
    ensures Inv(s)
    decreases |run|
  {
    hide TableOk; hide WakeOk; hide ForksOk; hide KidsOk; hide Apply; hide Enabled;
    if run == [] {
      BootedOk();
    } else {
      var s0 :| Reaches(run[..|run| - 1], s0) && Shaped(s0) && LastStep(run, s0, s);
      RunKeepsInv(run[..|run| - 1], s0);
      var (p, e) := run[|run| - 1];
      TableKeeps(s0, p, e);
      WakeKeeps(s0, p, e);
      ForksKeep(s0, p, e);
      KidsKeep(s0, p, e);
    }
  }

  /** No lost wakeup: with wait_lock free, nobody sleeps in kwait or kwaitpid with a
      matching exited child, or in kipc_recv with a message ready. */
  lemma NoLostWakeup(run: Run, s: State, w: int, c: int)
    requires Reaches(run, s) && s.lock == -1 && Index(w) && Index(c)
    ensures Shaped(s)
    ensures s.procs[w].run == Sleeping && s.procs[w].pc.Asleep? ==>
              && !(Match(s, s.procs[w].pc.kind, w, c) && s.procs[c].run == Zombie)
              && !(s.procs[w].pc.kind.Message? && s.procs[w].ready)
  {
    RunKeepsInv(run, s);
    assert Awake(s, w, c) && Informed(s, w);
  }

  /** Nor does anybody sleep there for nothing: with wait_lock free, a process asleep in
      kwait or kwaitpid has a matching child that has not exited yet. */
  lemma SleeperHasLiveChild(run: Run, s: State, w: int)
    requires Reaches(run, s) && s.lock == -1 && Index(w)
    ensures Shaped(s)
    ensures s.procs[w].run == Sleeping && s.procs[w].pc.Asleep? && !s.procs[w].pc.kind.Message? ==>
              exists c :: Index(c) && Match(s, s.procs[w].pc.kind, w, c)
                          && s.procs[c].run != Zombie && s.procs[c].run != Unused
  {
    RunKeepsInv(run, s);
    assert Expecting(s, w);
    if Expects(s.procs[w].pc) && s.procs[w].run == Sleeping && s.procs[w].pc.Asleep? {
      var c :| Index(c) && Match(s, s.procs[w].pc.kind, w, c);
      assert Awake(s, w, c) && Local(s, c);
    }
  }

  /** A parent is in use, has not exited, and is older. */
  lemma ParentIsLive(run: Run, s: State, i: int)
    requires Reaches(run, s) && Index(i)
    ensures Shaped(s)
    ensures var p := s.procs[i].parent;
            p != -1 ==> Index(p) && Alive(s.procs[p].run) && s.procs[p].pid < s.procs[i].pid
    ensures s.procs[i].run != Unused && s.procs[i].run != Used && i != INIT ==> s.procs[i].parent != -1
  {
    RunKeepsInv(run, s);
    assert Local(s, i);
  }

  /** Where the chain of parents from i ends. */
  ghost function Root(s: State, i: int): int
    requires TableOk(s) && Index(i)
    decreases s.procs[i].pid
  {
    assert Local(s, i);
    if s.procs[i].parent == -1 then i else assert Local(s, s.procs[i].parent); Root(s, s.procs[i].parent)
  }

  lemma {:induction false} ChainEndsAtInit(s: State, i: int)
    requires TableOk(s) && Index(i) && s.procs[i].run != Unused && s.procs[i].run != Used
    ensures Root(s, i) == INIT
    decreases s.procs[i].pid
  {
    assert Local(s, i);
    if s.procs[i].parent != -1 {
      assert Local(s, s.procs[i].parent);
      ChainEndsAtInit(s, s.procs[i].parent);
    }
  }

  /** Every process descends from init, and only one process has any given pid. */
  lemma ProcessTree(run: Run, s: State, i: int, j: int)
    requires Reaches(run, s) && Index(i) && Index(j) && s.procs[i].run != Unused && s.procs[i].run != Used
    ensures TableOk(s) && Root(s, i) == INIT
    ensures i != j ==> s.procs[i].pid != s.procs[j].pid
  {
    RunKeepsInv(run, s);
    ChainEndsAtInit(s, i);
    assert Local(s, i) && Local(s, j) && (i != j ==> Apart(s, i, j));
  }

  /** fork_count, with the child a fork is about to count, is the number of children that
      have not begun to exit, and is at most ten; for init only the bound holds. */
  lemma ForkLimit(run: Run, s: State, i: int)
    requires Reaches(run, s) && Index(i) && Shaped(s) && Alive(s.procs[i].run)
    ensures Tally(s.procs[i]) <= FORK_LIMIT
    ensures i != INIT && !Leaving(s.procs[i].pc) ==>
              s.procs[i].forks + Uncounted(s.procs[i].pc) == |Kids(s, i)| <= FORK_LIMIT
  {
    RunKeepsInv(run, s);
    assert CountOk(s, i);
  }
}
