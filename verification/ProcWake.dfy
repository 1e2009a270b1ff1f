/** No wakeup is lost: nobody sleeps in kwait, kwaitpid or kipc_recv while what they
    wait for is there and wait_lock is free. */
module ProcWake {

  import opened ProcModel

  /** An exiting process still has to wake init for a child it has just given away. */
  ghost predicate AdoptPending(s: State, w: int)
    requires Shaped(s)
  {
    w == INIT && Index(s.lock) && s.procs[s.lock].pc.ReparentWake? && s.procs[s.lock].pc.j <= w
  }

  /** A sender still has to wake w. */
  ghost predicate MessagePending(s: State, w: int)
    requires Shaped(s)
  {
    Index(s.lock) && s.procs[s.lock].pc.SendWake? && s.procs[s.lock].pc.target == w && s.procs[s.lock].pc.j <= w
  }

  /** w does not wait for the exited child c, unless it is about to be woken. */
  ghost predicate Awake(s: State, w: int, c: int)
    requires Shaped(s) && Index(w) && Index(c)
  {
    && (Waiting(s.procs[w]) && Match(s, s.procs[w].pc.kind, w, c) && s.procs[c].run == Zombie ==> AdoptPending(s, w))
    && (s.procs[w].pc.WaitScan? && c < s.procs[w].pc.k && Match(s, s.procs[w].pc.kind, w, c) ==>
        s.procs[c].run != Zombie)
  }

  /** w does not wait for a message that is there; a process that is past waking its
      parent has a parent that is not waiting. */
  ghost predicate Informed(s: State, w: int)
    requires Shaped(s) && Index(w)
  {
    var p := s.procs[w];
    && (Waiting(p) && p.pc.kind.Message? && p.ready ==> MessagePending(s, w))
    && ((p.pc.ExitWake? && p.pc.j > p.parent) || p.pc.ExitZombie? ==> Index(p.parent) && !Waiting(s.procs[p.parent]))
    && (p.pc.WaitScan? ==> !p.pc.kind.Message?)
  }

  ghost predicate WakeOk(s: State) {
    && Shaped(s)
    && (forall w, c :: Index(w) && Index(c) ==> Awake(s, w, c))
    && (forall w :: Index(w) ==> Informed(s, w))
  }

  lemma Hyps(s: State, p: int, w: int, c: int)
    requires TableOk(s) && WakeOk(s) && Index(p) && Index(w) && Index(c)
    ensures Shaped(s) && Local(s, p) && Local(s, w) && Local(s, c) && (Index(s.lock) ==> Local(s, s.lock))
    ensures Awake(s, w, c) && Awake(s, p, c) && Informed(s, w) && Informed(s, p)
  {
  }

  // ---- one step, one waiting process, one child ------------------------------------------

  lemma OwnAwake(s: State, p: int, o: OwnAct, w: int, c: int)
    requires TableOk(s) && WakeOk(s) && Index(p) && Index(w) && Index(c)
    requires s.procs[p].run == Running && OwnEnabled(s.procs[p], p, s.lock, o)
    ensures Awake(OwnStep(s, p, o), w, c)
  {
    hide TableOk; hide WakeOk; hide Tree; hide Filling;
    Hyps(s, p, w, c);
  }

  lemma OwnInformed(s: State, p: int, o: OwnAct, w: int)
    requires TableOk(s) && WakeOk(s) && Index(p) && Index(w)
    requires s.procs[p].run == Running && OwnEnabled(s.procs[p], p, s.lock, o)
    ensures Informed(OwnStep(s, p, o), w)
  {
    hide TableOk; hide WakeOk; hide Tree; hide Filling;
    Hyps(s, p, w, w);
  }

  lemma QuietWake(s: State, p: int, e: Event, w: int, c: int)
    requires TableOk(s) && WakeOk(s) && Index(w) && Index(c) && Enabled(s, p, e) && !e.Does?
    ensures Awake(Apply(s, p, e), w, c) && Informed(Apply(s, p, e), w)
  {
    hide TableOk; hide WakeOk; hide Tree; hide Filling; hide Acted; hide ActEnabled;
    Hyps(s, p, w, c);
  }

  lemma AllocWake(s: State, p: int, np: int, w: int, c: int)
    requires TableOk(s) && WakeOk(s) && Index(p) && Index(w) && Index(c)
    requires s.procs[p].run == Running && s.procs[p].pc == ForkChecked && Index(np) && s.procs[np].run == Unused
    ensures Awake(AllocNext(s, p, np), w, c) && Informed(AllocNext(s, p, np), w)
  {
    hide TableOk; hide WakeOk; hide Filling;
    Hyps(s, p, w, c);
    Hyps(s, np, w, c);
  }

  lemma FailWake(s: State, p: int, w: int, c: int)
    requires TableOk(s) && WakeOk(s) && Index(p) && Index(w) && Index(c)
    requires s.procs[p].run == Running && s.procs[p].pc.ForkCopy? && Index(s.procs[p].pc.np)
    ensures Awake(FailNext(s, p, s.procs[p].pc.np), w, c) && Informed(FailNext(s, p, s.procs[p].pc.np), w)
  {
    hide TableOk; hide WakeOk;
    Hyps(s, p, w, c);
    Hyps(s, s.procs[p].pc.np, w, c);
  }

  lemma LinkWake(s: State, p: int, w: int, c: int)
    requires TableOk(s) && WakeOk(s) && Index(p) && Index(w) && Index(c)
    requires s.procs[p].run == Running && s.procs[p].pc.ForkCopy? && Index(s.procs[p].pc.np)
    ensures Awake(LinkNext(s, p, s.procs[p].pc.np), w, c) && Informed(LinkNext(s, p, s.procs[p].pc.np), w)
  {
    hide TableOk; hide WakeOk;
    Hyps(s, p, w, c);
    Hyps(s, s.procs[p].pc.np, w, c);
  }

  lemma RunWake(s: State, p: int, w: int, c: int)
    requires TableOk(s) && WakeOk(s) && Index(p) && Index(w) && Index(c)
    requires s.procs[p].run == Running && s.procs[p].pc.ForkLinked? && Index(s.procs[p].pc.np)
    ensures Awake(RunNext(s, p, s.procs[p].pc.np), w, c) && Informed(RunNext(s, p, s.procs[p].pc.np), w)
  {
    hide TableOk; hide WakeOk;
    Hyps(s, p, w, c);
    Hyps(s, s.procs[p].pc.np, w, c);
  }

  lemma ExitStartWake(s: State, p: int, w: int, c: int)
    requires TableOk(s) && WakeOk(s) && Index(p) && Index(w) && Index(c)
    requires s.procs[p].run == Running && s.procs[p].pc == User && p != INIT
    ensures Awake(ExitStart(s, p), w, c) && Informed(ExitStart(s, p), w)
  {
    hide TableOk; hide WakeOk; hide Filling;
    Hyps(s, p, w, c);
  }

  lemma ReparentWakes(s: State, p: int, w: int, c: int)
    requires TableOk(s) && WakeOk(s) && Index(p) && Index(w) && Index(c)
    requires s.procs[p].run == Running && s.procs[p].pc.Reparent?
    ensures Awake(ReparentNext(s, p, s.procs[p].pc.k), w, c) && Informed(ReparentNext(s, p, s.procs[p].pc.k), w)
  {
    hide TableOk; hide WakeOk; hide Filling;
    Hyps(s, p, w, c);
  }

  /** A step of a wakeup loop changes who is asleep, and how far the loop has come. */
  lemma WakeEffect(s: State, p: int, i: int)
    requires TableOk(s) && Index(p) && Index(i) && s.procs[p].run == Running && Waking(s.procs[p].pc)
    ensures var s' := WakeNext(s, p);
            && s'.procs[i] == s.procs[i].(run := s'.procs[i].run, pc := s'.procs[i].pc)
            && (s'.procs[i].run == s.procs[i].run || (s.procs[i].run == Sleeping && s'.procs[i].run == Runnable))
            && (i != p ==> s'.procs[i].pc == s.procs[i].pc) && (i == p ==> s'.procs[i].run == Running)
            && (i != p && i == WakeIndex(s.procs[p].pc) && s.procs[i].chan == WakeChan(s, p) ==>
                s'.procs[i].run != Sleeping)
  {
    hide TableOk;
    Facts(s, p);
  }

  lemma WakeAwake(s: State, p: int, w: int, c: int)
    requires TableOk(s) && WakeOk(s) && Index(p) && Index(w) && Index(c)
    requires s.procs[p].run == Running && Waking(s.procs[p].pc)
    requires WakeIndex(s.procs[p].pc) < NPROC ==> !s.procs[WakeIndex(s.procs[p].pc)].pc.Pausing?
    ensures Awake(WakeNext(s, p), w, c)
  {
    hide TableOk; hide WakeOk; hide Filling; hide Woken;
    Hyps(s, p, w, c);
    WakeEffect(s, p, p);
    WakeEffect(s, p, w);
    WakeEffect(s, p, c);
    if Index(s.procs[w].parent) {
      Facts(s, s.procs[w].parent);
      WakeEffect(s, p, s.procs[w].parent);
    }
  }

  lemma WakeInformed(s: State, p: int, w: int)
    requires TableOk(s) && WakeOk(s) && Index(p) && Index(w)
    requires s.procs[p].run == Running && Waking(s.procs[p].pc)
    requires WakeIndex(s.procs[p].pc) < NPROC ==> !s.procs[WakeIndex(s.procs[p].pc)].pc.Pausing?
    ensures Informed(WakeNext(s, p), w)
  {
    hide TableOk; hide WakeOk; hide Filling; hide Woken;
    Hyps(s, p, w, w);
    WakeEffect(s, p, p);
    WakeEffect(s, p, w);
    if Index(s.procs[w].parent) {
      Facts(s, s.procs[w].parent);
      WakeEffect(s, p, s.procs[w].parent);
    }
  }

  lemma ZombieWake(s: State, p: int, w: int, c: int)
    requires TableOk(s) && WakeOk(s) && Index(p) && Index(w) && Index(c)
    requires s.procs[p].run == Running && s.procs[p].pc == ExitZombie
    ensures Awake(ZombieNext(s, p), w, c) && Informed(ZombieNext(s, p), w)
  {
    hide TableOk; hide WakeOk; hide Filling;
    Hyps(s, p, w, c);
  }

  lemma PidsDiffer(s: State, i: int, j: int)
    requires TableOk(s) && Index(i) && Index(j) && i != j && s.procs[i].run != Unused && s.procs[j].run != Unused
    ensures s.procs[i].pid != s.procs[j].pid
  {
  }

  lemma ScanAwake(s: State, p: int, copied: bool, w: int, c: int)
    requires TableOk(s) && WakeOk(s) && Index(p) && Index(w) && Index(c)
    requires s.procs[p].run == Running && s.procs[p].pc.WaitScan?
    ensures Awake(ScanNext(s, p, copied), w, c)
  {
    hide TableOk; hide WakeOk; hide Filling;
    Hyps(s, p, w, c);
    var k := s.procs[p].pc.k;
    if Index(k) {
      Facts(s, k);
      if k != c && s.procs[k].run != Unused && s.procs[c].run != Unused { PidsDiffer(s, k, c); }
    }
  }

  lemma ScanInformed(s: State, p: int, copied: bool, w: int)
    requires TableOk(s) && WakeOk(s) && Index(p) && Index(w)
    requires s.procs[p].run == Running && s.procs[p].pc.WaitScan?
    ensures Informed(ScanNext(s, p, copied), w)
  {
  }

  lemma SendWakes(s: State, p: int, t: int, w: int, c: int)
    requires TableOk(s) && WakeOk(s) && Index(p) && Index(w) && Index(c)
    requires s.procs[p].run == Running && s.procs[p].pc.SendPick? && Index(t) && s.procs[t].run != Unused
    ensures Awake(SendNext(s, p, t), w, c) && Informed(SendNext(s, p, t), w)
  {
    hide TableOk; hide WakeOk; hide Filling;
    Hyps(s, p, w, c);
    Hyps(s, t, w, c);
  }

  lemma StepAwake(s: State, p: int, e: Event, w: int, c: int)
    requires TableOk(s) && WakeOk(s) && Index(w) && Index(c) && Enabled(s, p, e)
    ensures Awake(Apply(s, p, e), w, c) && Informed(Apply(s, p, e), w)
  {
    hide TableOk; hide WakeOk; hide OwnStep; hide AllocNext; hide FailNext; hide LinkNext; hide RunNext; hide ExitStart;
    hide ReparentNext; hide WakeNext; hide ZombieNext; hide ScanNext; hide SendNext; hide OwnEnabled;
    hide Awake; hide Informed;
    match e
    case Dispatch => QuietWake(s, p, e, w, c);
    case Kill => QuietWake(s, p, e, w, c);
    case WakeOther => QuietWake(s, p, e, w, c);
    case Does(a) =>
      match a
      case Own(o) => OwnAwake(s, p, o, w, c); OwnInformed(s, p, o, w);
      case ForkAlloc(np) => AllocWake(s, p, np, w, c);
      case ForkFail => FailWake(s, p, w, c);
      case ForkLink => LinkWake(s, p, w, c);
      case ForkRun => RunWake(s, p, w, c);
      case ExitBegin => ExitStartWake(s, p, w, c);
      case ReparentStep => ReparentWakes(s, p, w, c);
      case WakeStep => WakeAwake(s, p, w, c); WakeInformed(s, p, w);
      case ExitDone => ZombieWake(s, p, w, c);
      case ScanStep(copied) => ScanAwake(s, p, copied, w, c); ScanInformed(s, p, copied, w);
      case SendTo(t) => SendWakes(s, p, t, w, c);
  }

  /** Every step keeps what makes wakeups safe. */
  lemma WakeKeeps(s: State, p: int, e: Event)
    requires TableOk(s) && WakeOk(s) && Enabled(s, p, e)
    ensures WakeOk(Apply(s, p, e))
  {
    hide TableOk; hide Awake; hide Informed; hide Acted; hide ActEnabled;
    TableKeeps(s, p, e);
    var s' := Apply(s, p, e);
    assert Shaped(s') by { Facts(s', INIT); }
    forall w, c | Index(w) && Index(c) ensures Awake(s', w, c) { StepAwake(s, p, e, w, c); }
    forall w | Index(w) ensures Informed(s', w) { StepAwake(s, p, e, w, w); }
  }
}
