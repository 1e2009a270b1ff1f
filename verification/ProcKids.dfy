/** Nobody waits for a child that is not there: a process asleep in kwait has a child,
    and one asleep in kwaitpid has the child it waits for. */
module ProcKids {

  import opened ProcModel

  ghost predicate HasKid(s: State, w: int, kind: Kind)
    requires Shaped(s)
  {
    exists c :: Index(c) && Match(s, kind, w, c)
  }

  /** pcs of a process that has seen a child and means to sleep, or does. */
  predicate Expects(pc: Pc) {
    (pc.WaitScan? && pc.kids) || ((pc.Pausing? || pc.Asleep?) && !pc.kind.Message?)
  }

  ghost predicate KidsOk(s: State) {
    Shaped(s) && forall w :: Index(w) ==> Expecting(s, w)
  }

  ghost predicate Expecting(s: State, w: int)
    requires Shaped(s) && Index(w)
  {
    Expects(s.procs[w].pc) ==> HasKid(s, w, s.procs[w].pc.kind)
  }

  /** The child of another process than the one acting stays its child. */
  ghost predicate Stays(s: State, s': State, p: int, c: int)
    requires Shaped(s) && Shaped(s') && Index(c)
  {
    s.procs[c].parent != -1 && s.procs[c].parent != p ==>
      s'.procs[c].parent == s.procs[c].parent && s'.procs[c].pid == s.procs[c].pid
  }

  lemma QuietStays(s: State, p: int, e: Event, c: int)
    requires Shaped(s) && Index(c) && Enabled(s, p, e) && !e.Does?
    ensures Stays(s, Apply(s, p, e), p, c)
  {
    hide Acted; hide ActEnabled;
  }

  lemma OwnStays(s: State, p: int, o: OwnAct, c: int)
    requires Shaped(s) && Index(p) && Index(c) && OwnEnabled(s.procs[p], p, s.lock, o)
    ensures Stays(s, OwnStep(s, p, o), p, c)
  {
  }

  lemma ForkStays(s: State, p: int, np: int, c: int)
    requires TableOk(s) && Index(p) && Index(c) && Index(np)
    requires s.procs[np].run == Unused || (s.procs[p].pc.ForkCopy? && s.procs[p].pc.np == np)
    ensures Stays(s, AllocNext(s, p, np), p, c) && Stays(s, FailNext(s, p, np), p, c)
    ensures Stays(s, LinkNext(s, p, np), p, c)
  {
    hide TableOk;
    Facts(s, p);
    Facts(s, np);
  }

  lemma RunStays(s: State, p: int, np: int, c: int)
    requires Shaped(s) && Index(p) && Index(c) && Index(np)
    ensures Stays(s, RunNext(s, p, np), p, c) && Stays(s, ExitStart(s, p), p, c) && Stays(s, ZombieNext(s, p), p, c)
    ensures Stays(s, SendNext(s, p, np), p, c)
  {
  }

  lemma ReparentStays(s: State, p: int, k: nat, c: int)
    requires Shaped(s) && Index(p) && Index(c)
    ensures Stays(s, ReparentNext(s, p, k), p, c)
  {
  }

  lemma WakeStays(s: State, p: int, c: int)
    requires Shaped(s) && Index(p) && Index(c) && Waking(s.procs[p].pc)
    ensures Stays(s, WakeNext(s, p), p, c)
  {
  }

  lemma ScanStays(s: State, p: int, copied: bool, c: int)
    requires Shaped(s) && Index(p) && Index(c) && s.procs[p].pc.WaitScan?
    ensures Stays(s, ScanNext(s, p, copied), p, c)
  {
    hide ScanPc;
  }

  lemma StepStays(s: State, p: int, e: Event, c: int)
    requires TableOk(s) && Index(c) && Enabled(s, p, e)
    ensures Stays(s, Apply(s, p, e), p, c)
  {
    hide TableOk; hide OwnStep; hide AllocNext; hide FailNext; hide LinkNext; hide RunNext; hide ExitStart;
    hide ReparentNext; hide WakeNext; hide ZombieNext; hide ScanNext; hide SendNext; hide OwnEnabled; hide Stays;
    Facts(s, c);
    if e.Does? {
      match e.a {
        case Own(o) => OwnStays(s, p, o, c);
        case ForkAlloc(np) => ForkStays(s, p, np, c);
        case ForkFail => ForkStays(s, p, s.procs[p].pc.np, c);
        case ForkLink => ForkStays(s, p, s.procs[p].pc.np, c);
        case ForkRun => RunStays(s, p, s.procs[p].pc.np, c);
        case ExitBegin => RunStays(s, p, p, c);
        case ReparentStep => ReparentStays(s, p, s.procs[p].pc.k, c);
        case WakeStep => WakeStays(s, p, c);
        case ExitDone => RunStays(s, p, p, c);
        case ScanStep(copied) => ScanStays(s, p, copied, c);
        case SendTo(t) => RunStays(s, p, t, c);
      }
    } else {
      QuietStays(s, p, e, c);
    }
  }

  /** A process that does not act keeps what it expects. */
  lemma OtherExpects(s: State, p: int, e: Event, w: int)
    requires TableOk(s) && KidsOk(s) && Enabled(s, p, e) && Index(w) && w != p
    requires Apply(s, p, e).procs[w].pc == s.procs[w].pc
    ensures Expecting(Apply(s, p, e), w)
  {
    hide TableOk; hide Apply; hide Enabled;
    assert Shaped(s) && Expecting(s, w);
    if Expects(s.procs[w].pc) {
      var c :| Index(c) && Match(s, s.procs[w].pc.kind, w, c);
      StepStays(s, p, e, c);
      assert Match(Apply(s, p, e), s.procs[w].pc.kind, w, c);
    }
  }

  /** The acting process goes on expecting only a child it has seen. */
  lemma ActorExpects(s: State, p: int, e: Event)
    requires TableOk(s) && KidsOk(s) && Enabled(s, p, e)
    ensures Expecting(Apply(s, p, e), p)
  {
    hide TableOk; hide AllocNext; hide FailNext; hide LinkNext; hide RunNext; hide ExitStart; hide ReparentNext;
    hide WakeNext; hide ZombieNext; hide ScanNext; hide SendNext; hide OwnStep; hide HasKid; hide OwnEnabled;
    Facts(s, p);
    assert Expecting(s, p);
    if e.Does? {
      match e.a {
        case Own(o) => OwnExpects(s, p, o);
        case ScanStep(copied) => ScanExpects(s, p, copied);
        case _ => ElseExpects(s, p, e.a);
      }
    } else {
      QuietExpects(s, p, e);
    }
  }

  lemma SameKids(s: State, p: int, q: Proc, lock: int, kind: Kind)
    requires Shaped(s) && Index(p) && q.parent == s.procs[p].parent && q.pid == s.procs[p].pid
    ensures HasKid(s, p, kind) ==> HasKid(Step(s, p, q, lock), p, kind)
  {
    if HasKid(s, p, kind) {
      var c :| Index(c) && Match(s, kind, p, c);
      assert Match(Step(s, p, q, lock), kind, p, c);
    }
  }

  lemma QuietExpects(s: State, p: int, e: Event)
    requires Shaped(s) && Enabled(s, p, e) && !e.Does? && Expecting(s, p)
    ensures Expecting(Apply(s, p, e), p)
  {
    hide HasKid; hide Acted; hide ActEnabled;
    var s' := Apply(s, p, e);
    if Expects(s.procs[p].pc) { SameKids(s, p, s'.procs[p], s'.lock, s.procs[p].pc.kind); }
    assert s' == Step(s, p, s'.procs[p], s'.lock);
  }

  lemma OwnExpects(s: State, p: int, o: OwnAct)
    requires Shaped(s) && Index(p) && OwnEnabled(s.procs[p], p, s.lock, o) && Expecting(s, p)
    ensures Expecting(OwnStep(s, p, o), p)
  {
    hide HasKid;
    var (q, lock) := OwnNext(s.procs[p], p, s.lock, o);
    if Expects(s.procs[p].pc) { SameKids(s, p, q, lock, s.procs[p].pc.kind); }
  }

  lemma ScanExpects(s: State, p: int, copied: bool)
    requires Shaped(s) && Index(p) && s.procs[p].pc.WaitScan? && Expecting(s, p)
    ensures Expecting(ScanNext(s, p, copied), p)
  {
    hide HasKid;
    var pc, kind, k := ScanPc(s, p), s.procs[p].pc.kind, s.procs[p].pc.k;
    if k < NPROC && Match(s, kind, p, k) { assert HasKid(s, p, kind) by { KidAt(s, p, kind, k); } }
    SameKids(s, p, s.procs[p].(pc := pc), if pc.WaitScan? then s.lock else -1, kind);
  }

  lemma KidAt(s: State, p: int, kind: Kind, k: int)
    requires Shaped(s) && Index(k) && Match(s, kind, p, k)
    ensures HasKid(s, p, kind)
  {
  }

  /** After any other act the process is not about to sleep in kwait or kwaitpid. */
  lemma ElseExpects(s: State, p: int, a: Act)
    requires Shaped(s) && Index(p) && ActEnabled(s, p, a) && !a.Own? && !a.ScanStep?
    ensures !Expects(Acted(s, p, a).procs[p].pc)
  {
  }

  /** w's pc does not change, unless w's slot is freed. */
  predicate KeepsPc(s: State, s': State, w: int)
    requires Shaped(s) && Shaped(s') && Index(w)
  {
    s'.procs[w].pc == s.procs[w].pc || s'.procs[w].pc == User
  }

  lemma OwnPc(s: State, p: int, o: OwnAct, w: int)
    requires Shaped(s) && Index(p) && Index(w) && w != p && OwnEnabled(s.procs[p], p, s.lock, o)
    ensures KeepsPc(s, OwnStep(s, p, o), w)
  {
    hide OwnNext; hide OwnEnabled;
  }

  lemma ForkPc(s: State, p: int, np: int, w: int)
    requires Shaped(s) && Index(p) && Index(np) && Index(w) && w != p
    ensures KeepsPc(s, AllocNext(s, p, np), w) && KeepsPc(s, FailNext(s, p, np), w)
    ensures KeepsPc(s, LinkNext(s, p, np), w) && KeepsPc(s, RunNext(s, p, np), w) && KeepsPc(s, SendNext(s, p, np), w)
  {
  }

  lemma ExitPc(s: State, p: int, k: nat, w: int)
    requires Shaped(s) && Index(p) && Index(w) && w != p
    ensures KeepsPc(s, ExitStart(s, p), w) && KeepsPc(s, ReparentNext(s, p, k), w) && KeepsPc(s, ZombieNext(s, p), w)
  {
  }

  lemma LoopPc(s: State, p: int, copied: bool, w: int)
    requires Shaped(s) && Index(p) && Index(w) && w != p
    ensures Waking(s.procs[p].pc) ==> KeepsPc(s, WakeNext(s, p), w)
    ensures s.procs[p].pc.WaitScan? ==> KeepsPc(s, ScanNext(s, p, copied), w)
  {
    hide WakeChan; hide ScanPc; hide ScanFinds;
  }

  lemma OthersKeepPc(s: State, p: int, e: Event, w: int)
    requires Shaped(s) && Enabled(s, p, e) && Index(w) && w != p
    ensures KeepsPc(s, Apply(s, p, e), w)
  {
    hide OwnStep; hide AllocNext; hide FailNext; hide LinkNext; hide RunNext; hide ExitStart; hide ReparentNext;
    hide WakeNext; hide ZombieNext; hide ScanNext; hide SendNext; hide OwnEnabled; hide KeepsPc;
    if e.Does? {
      match e.a {
        case Own(o) => OwnPc(s, p, o, w);
        case ForkAlloc(np) => ForkPc(s, p, np, w);
        case ForkFail => ForkPc(s, p, s.procs[p].pc.np, w);
        case ForkLink => ForkPc(s, p, s.procs[p].pc.np, w);
        case ForkRun => ForkPc(s, p, s.procs[p].pc.np, w);
        case ExitBegin => ExitPc(s, p, 0, w);
        case ReparentStep => ExitPc(s, p, s.procs[p].pc.k, w);
        case WakeStep => LoopPc(s, p, false, w);
        case ExitDone => ExitPc(s, p, 0, w);
        case ScanStep(copied) => LoopPc(s, p, copied, w);
        case SendTo(t) => ForkPc(s, p, t, w);
      }
    } else {
      QuietPc(s, p, e, w);
    }
  }

  lemma QuietPc(s: State, p: int, e: Event, w: int)
    requires Shaped(s) && Enabled(s, p, e) && !e.Does? && Index(w) && w != p
    ensures KeepsPc(s, Apply(s, p, e), w)
  {
    hide Acted; hide ActEnabled;
  }

  /** Every step keeps every waiting process expecting a child it has. */
  lemma KidsKeep(s: State, p: int, e: Event)
    requires TableOk(s) && KidsOk(s) && Enabled(s, p, e)
    ensures KidsOk(Apply(s, p, e))
  {
    hide TableOk; hide Apply; hide Enabled; hide HasKid;
    assert Shaped(s);
    var s' := Apply(s, p, e);
    forall w | Index(w) ensures Expecting(s', w) {
      if w == p {
        ActorExpects(s, p, e);
      } else {
        OthersKeepPc(s, p, e, w);
        if s'.procs[w].pc == s.procs[w].pc { OtherExpects(s, p, e, w); }
      }
    }
  }
}
