/** The process table of kernel/proc.c as a state machine.

    A step is what one process does inside one critical section of a p->lock or of
    wait_lock, one iteration of a loop over the table, or one unlocked update of
    fork_count.  A process is known by its index in the table. */
module ProcModel {

  /** param.h */
  const NPROC := 64

  /** initproc: the first slot that allocproc hands out. */
  const INIT := 0

  /** fork refuses a caller whose fork_count has reached this. */
  const FORK_LIMIT := 10

  datatype RunState = Unused | Used | Sleeping | Runnable | Running | Zombie

  /** What sleep() waits on: the address of a process, or anything else. */
  datatype Chan = NoChan | Self(i: int) | Other(c: int)

  /** Why a process sleeps with wait_lock as its condition lock. */
  datatype Kind = AnyChild | ChildPid(pid: int) | Message

  /** Where a process is in the calls modelled here. */
  datatype Pc =
    | User
    | ForkChecked | ForkCopy(np: int) | ForkLinked(np: int) | ForkCount
    | Exiting | Reparent(k: nat) | ReparentWake(k: nat, j: nat) | ExitWake(j: nat) | ExitZombie | Dead
    | WaitScan(kind: Kind, k: nat, kids: bool) | RecvCheck
    | Pausing(kind: Kind) | Asleep(kind: Kind) | Relock(kind: Kind)
    | AsleepOther(exiting: bool)
    | SendPick(pid: int) | SendWake(target: int, j: nat)

  datatype Proc = Proc(run: RunState, chan: Chan, pid: int, parent: int, forks: int, killed: bool, ready: bool, pc: Pc)

  /** lock is the process holding wait_lock, or -1. */
  datatype State = State(procs: seq<Proc>, lock: int, nextpid: int)

  predicate Index(i: int) { 0 <= i < NPROC }

  predicate Shaped(s: State) { |s.procs| == NPROC }

  /** pcs inside a wait_lock critical section */
  predicate Holds(pc: Pc) {
    pc.Reparent? || pc.ReparentWake? || pc.ExitWake? || pc.ExitZombie? || pc.WaitScan? || pc.RecvCheck?
        || pc.SendPick? || pc.SendWake?
  }

  /** pcs of a process that has entered kexit */
  predicate Begun(pc: Pc) {
    pc.Exiting? || pc.Reparent? || pc.ReparentWake? || pc.ExitWake? || pc.ExitZombie? || pc.Dead?
        || pc == AsleepOther(true)
  }

  predicate Alive(run: RunState) { run == Sleeping || run == Runnable || run == Running }

  /** Asleep on its own address, or bound to be: its p->lock is held on the way. */
  predicate Waiting(p: Proc) {
    p.pc.Pausing? || (p.pc.Asleep? && p.run == Sleeping)
  }

  // ---- steps ------------------------------------------------------------------

  /** What a running process does to itself and wait_lock only. */
  datatype OwnAct =
    | Yield | SleepOther(c: int) | ResumeOther | ForkCheck | ForkGiveUp | ForkDone | ExitLock
    | WaitLock(kind: Kind) | RecvStep(copied: bool) | Sleep | Resume | Regain | SendLock(pid: int) | SendFail

  /** What a running process does. */
  datatype Act =
    | Own(o: OwnAct) | ForkAlloc(np: int) | ForkFail | ForkLink | ForkRun
    | ExitBegin | ReparentStep | WakeStep | ExitDone | ScanStep(copied: bool) | SendTo(target: int)

  /** What happens to a process. */
  datatype Event = Dispatch | Kill | WakeOther | Does(a: Act)

  function Put(s: State, i: int, p: Proc): (r: State)
    requires Shaped(s) && Index(i)
    ensures Shaped(r)
  {
    s.(procs := s.procs[i := p])
  }

  function At(s: State, p: int, pc: Pc): (r: State)
    requires Shaped(s) && Index(p)
    ensures Shaped(r)
  {
    Put(s, p, s.procs[p].(pc := pc))
  }

  /** freeproc() */
  function Freed(p: Proc): Proc {
    p.(run := Unused, chan := NoChan, pid := 0, parent := -1, killed := false, ready := false, pc := User)
  }

  /** allocproc() */
  function Allocated(p: Proc, pid: int): Proc {
    p.(run := Used, pid := pid, forks := 0, ready := false)
  }

  /** one iteration of wakeup(chan) */
  function Woken(p: Proc, chan: Chan): Proc {
    if p.run == Sleeping && p.chan == chan then p.(run := Runnable) else p
  }

  /** The child that a scan of the given kind by p looks at. */
  predicate Match(s: State, kind: Kind, p: int, c: int)
    requires Shaped(s) && Index(c)
  {
    s.procs[c].parent == p && (kind.AnyChild? || (kind.ChildPid? && s.procs[c].pid == kind.pid))
  }

  /** The channel and the next table index of the wakeup loop p is in. */
  function WakeChan(s: State, p: int): Chan
    requires Shaped(s) && Index(p)
  {
    match s.procs[p].pc
    case ReparentWake(_, _) => Self(INIT)
    case ExitWake(_) => Self(s.procs[p].parent)
    case SendWake(t, _) => Self(t)
    case _ => NoChan
  }

  predicate Waking(pc: Pc) { pc.ReparentWake? || pc.ExitWake? || pc.SendWake? }

  function WakeIndex(pc: Pc): nat
    requires Waking(pc)
  {
    pc.j
  }

  predicate OwnEnabled(me: Proc, p: int, lock: int, o: OwnAct) {
    match o
    case Yield => lock != p && !me.pc.Pausing? && !me.pc.Asleep? && !me.pc.AsleepOther?
    case SleepOther(_) => me.pc == User || me.pc == Exiting
    case ResumeOther => me.pc.AsleepOther?
    case ForkCheck => me.pc == User
    case ForkGiveUp => me.pc == ForkChecked
    case ForkDone => me.pc == ForkCount
    case ExitLock => me.pc == Exiting && lock == -1
    case WaitLock(_) => me.pc == User && lock == -1
    case RecvStep(_) => me.pc == RecvCheck
    case Sleep => me.pc.Pausing?
    case Resume => me.pc.Asleep?
    case Regain => me.pc.Relock? && lock == -1
    case SendLock(_) => me.pc == User && lock == -1
    case SendFail => me.pc.SendPick?
  }

  predicate ActEnabled(s: State, p: int, a: Act)
    requires Shaped(s) && Index(p)
  {
    var me := s.procs[p];
    match a
    case Own(o) => OwnEnabled(me, p, s.lock, o)
    case ForkAlloc(np) => me.pc == ForkChecked && Index(np) && s.procs[np].run == Unused
    case ForkFail => me.pc.ForkCopy? && Index(me.pc.np)
    case ForkLink => me.pc.ForkCopy? && Index(me.pc.np) && s.lock == -1
    case ForkRun => me.pc.ForkLinked? && Index(me.pc.np)
    case ExitBegin => me.pc == User && p != INIT
    case ReparentStep => me.pc.Reparent?
    case WakeStep => Waking(me.pc) && (WakeIndex(me.pc) < NPROC ==> !s.procs[WakeIndex(me.pc)].pc.Pausing?)
    case ExitDone => me.pc == ExitZombie
    case ScanStep(_) => me.pc.WaitScan?
    case SendTo(t) => me.pc.SendPick? && Index(t) && s.procs[t].pid == me.pc.pid && s.procs[t].run != Unused
  }

  predicate Enabled(s: State, p: int, e: Event)
    requires Shaped(s)
  {
    && Index(p)
    && match e
       case Dispatch => s.procs[p].run == Runnable
       case Kill => !s.procs[p].pc.Pausing?
       case WakeOther => s.procs[p].run == Sleeping && s.procs[p].chan.Other?
       case Does(a) => s.procs[p].run == Running && ActEnabled(s, p, a)
  }

  function Start(kind: Kind): Pc {
    if kind.Message? then RecvCheck else WaitScan(kind, 0, false)
  }

  /** One iteration of reparent's loop, or its end. */
  function ReparentNext(s: State, p: int, k: nat): (r: State)
    requires Shaped(s) && Index(p)
    ensures Shaped(r)
  {
    if k >= NPROC then At(s, p, ExitWake(0))
    else if s.procs[k].parent == p then At(Put(s, k, s.procs[k].(parent := INIT)), p, ReparentWake(k, 0))
    else At(s, p, Reparent(k + 1))
  }

  /** One iteration of a wakeup loop, or what follows it. */
  function WakeNext(s: State, p: int): (r: State)
    requires Shaped(s) && Index(p) && Waking(s.procs[p].pc)
    ensures Shaped(r)
  {
    var pc := s.procs[p].pc;
    var j := WakeIndex(pc);
    var s1 := if j < NPROC && j != p then Put(s, j, Woken(s.procs[j], WakeChan(s, p))) else s;
    match pc
    case ReparentWake(k, _) => At(s1, p, if j < NPROC then ReparentWake(k, j + 1) else Reparent(k + 1))
    case ExitWake(_) => At(s1, p, if j < NPROC then ExitWake(j + 1) else ExitZombie)
    case SendWake(t, _) => if j < NPROC then At(s1, p, SendWake(t, j + 1)) else At(s1, p, User).(lock := -1)
  }

  /** Where a scan of kwait or kwaitpid goes after one iteration, or after the loop. */
  function ScanPc(s: State, p: int): Pc
    requires Shaped(s) && Index(p) && s.procs[p].pc.WaitScan?
  {
    var WaitScan(kind, k, kids) := s.procs[p].pc;
    if k < NPROC then
      if !Match(s, kind, p, k) then WaitScan(kind, k + 1, kids)
      else if s.procs[k].run == Zombie then User
      else WaitScan(kind, if kind.ChildPid? then NPROC else k + 1, true)
    else if !kids || s.procs[p].killed then User
    else Pausing(kind)
  }

  /** The scan has found an exited child. */
  predicate ScanFinds(s: State, p: int)
    requires Shaped(s) && Index(p) && s.procs[p].pc.WaitScan?
  {
    var k := s.procs[p].pc.k;
    k < NPROC && Match(s, s.procs[p].pc.kind, p, k) && s.procs[k].run == Zombie
  }

  function ScanNext(s: State, p: int, copied: bool): (r: State)
    requires Shaped(s) && Index(p) && s.procs[p].pc.WaitScan?
    ensures Shaped(r)
  {
    var pc, k := ScanPc(s, p), s.procs[p].pc.k;
    var s1 := Step(s, p, s.procs[p].(pc := pc), if pc.WaitScan? then s.lock else -1);
    if ScanFinds(s, p) && copied then Put(s1, k, Freed(s1.procs[k])) else s1
  }

  /** The acting process and the holder of wait_lock after one of its own acts. */
  function OwnNext(me: Proc, p: int, lock: int, o: OwnAct): (Proc, int)
    requires OwnEnabled(me, p, lock, o)
  {
    match o
    case Yield => (me.(run := Runnable), lock)
    case SleepOther(c) => (me.(run := Sleeping, chan := Other(c), pc := AsleepOther(me.pc == Exiting)), lock)
    case ResumeOther => (me.(chan := NoChan, pc := if me.pc.exiting then Exiting else User), lock)
    case ForkCheck => (if me.forks >= FORK_LIMIT then me else me.(pc := ForkChecked), lock)
    case ForkGiveUp => (me.(pc := User), lock)
    case ForkDone => (me.(pc := User, forks := me.forks + 1), lock)
    case ExitLock => (me.(pc := Reparent(0)), p)
    case WaitLock(kind) => (me.(pc := Start(kind)), p)
    case RecvStep(copied) =>
      (if me.ready then me.(pc := User, ready := !copied) else me.(pc := if me.killed then User
          else Pausing(Message)), -1)
    case Sleep => (me.(run := Sleeping, chan := Self(p), pc := Asleep(me.pc.kind)), lock)
    case Resume => (me.(chan := NoChan, pc := Relock(me.pc.kind)), lock)
    case Regain => (me.(pc := Start(me.pc.kind)), p)
    case SendLock(pid) => (me.(pc := SendPick(pid)), p)
    case SendFail => (me.(pc := User), -1)
  }

  /** kexit's first statement: the parent's count drops. */
  function ExitStart(s: State, p: int): (r: State)
    requires Shaped(s) && Index(p)
    ensures Shaped(r)
  {
    var up := s.procs[p].parent;
    At(if Index(up) then Put(s, up, s.procs[up].(forks := s.procs[up].forks - 1)) else s, p, Exiting)
  }

  function SendNext(s: State, p: int, t: int): (r: State)
    requires Shaped(s) && Index(p) && Index(t)
    ensures Shaped(r)
  {
    if s.procs[t].ready then At(s, p, User).(lock := -1)
    else At(Put(s, t, s.procs[t].(ready := true)), p, SendWake(t, 0))
  }

  function Step(s: State, p: int, q: Proc, lock: int): (r: State)
    requires Shaped(s) && Index(p)
    ensures Shaped(r)
  {
    Put(s, p, q).(lock := lock)
  }

  function OwnStep(s: State, p: int, o: OwnAct): (r: State)
    requires Shaped(s) && Index(p) && OwnEnabled(s.procs[p], p, s.lock, o)
    ensures Shaped(r)
  {
    var (q, lock) := OwnNext(s.procs[p], p, s.lock, o);
    Step(s, p, q, lock)
  }

  /** allocproc() in kfork and thread_fork */
  function AllocNext(s: State, p: int, np: int): (r: State)
    requires Shaped(s) && Index(p) && Index(np)
    ensures Shaped(r)
  {
    At(Put(s, np, Allocated(s.procs[np], s.nextpid)), p, ForkCopy(np)).(nextpid := s.nextpid + 1)
  }

  /** No memory for the copy: the slot is freed again. */
  function FailNext(s: State, p: int, np: int): (r: State)
    requires Shaped(s) && Index(p) && Index(np)
    ensures Shaped(r)
  {
    At(Put(s, np, Freed(s.procs[np])), p, User)
  }

  function LinkNext(s: State, p: int, np: int): (r: State)
    requires Shaped(s) && Index(p) && Index(np)
    ensures Shaped(r)
  {
    At(Put(s, np, s.procs[np].(parent := p)), p, ForkLinked(np))
  }

  function RunNext(s: State, p: int, np: int): (r: State)
    requires Shaped(s) && Index(p) && Index(np)
    ensures Shaped(r)
  {
    At(Put(s, np, s.procs[np].(run := Runnable)), p, ForkCount)
  }

  function ZombieNext(s: State, p: int): (r: State)
    requires Shaped(s) && Index(p)
    ensures Shaped(r)
  {
    Step(s, p, s.procs[p].(run := Zombie, pc := Dead), -1)
  }

  function Acted(s: State, p: int, a: Act): (r: State)
    requires Shaped(s) && Index(p) && ActEnabled(s, p, a)
    ensures Shaped(r)
  {
    var me := s.procs[p];
    match a
    case Own(o) => OwnStep(s, p, o)
    case ForkAlloc(np) => AllocNext(s, p, np)
    case ForkFail => FailNext(s, p, me.pc.np)
    case ForkLink => LinkNext(s, p, me.pc.np)
    case ForkRun => RunNext(s, p, me.pc.np)
    case ExitBegin => ExitStart(s, p)
    case ReparentStep => ReparentNext(s, p, me.pc.k)
    case WakeStep => WakeNext(s, p)
    case ExitDone => ZombieNext(s, p)
    case ScanStep(copied) => ScanNext(s, p, copied)
    case SendTo(t) => SendNext(s, p, t)
  }

  function Apply(s: State, p: int, e: Event): (r: State)
    requires Shaped(s) && Enabled(s, p, e)
    ensures Shaped(r)
  {
    var me := s.procs[p];
    match e
    case Dispatch => Put(s, p, me.(run := Running))
    case Kill => Put(s, p, me.(killed := true, run := if me.run == Sleeping then Runnable else me.run))
    case WakeOther => Put(s, p, me.(run := Runnable))
    case Does(a) => Acted(s, p, a)
  }

  // ---- invariant -----------------------------------------------------------------

  /** What the run state, the pc, the channel and wait_lock say about each other. */
  ghost predicate StatusOf(p: Proc, i: int, lock: int, nextpid: int) {
    && (p.run == Unused ==> p.pid == 0 && p.parent == -1)
    && (p.run != Unused ==> 0 < p.pid < nextpid)
    && (p.run == Unused || p.run == Used ==> p.pc == User)
    && (p.run == Zombie <==> p.pc == Dead)
    && (p.run == Sleeping ==> (p.pc.Asleep? && p.chan == Self(i)) || (p.pc.AsleepOther? && p.chan.Other?))
    && (Holds(p.pc) <==> lock == i) && (Holds(p.pc) || p.pc.Pausing? ==> p.run == Running)
    && (i == INIT ==> Alive(p.run) && !Begun(p.pc) && p.parent == -1 && p.pid == 1)
  }

  ghost predicate Status(s: State, i: int)
    requires Shaped(s) && Index(i)
  {
    StatusOf(s.procs[i], i, s.lock, s.nextpid)
  }

  /** The exiting process at pc has given away its child at index i. */
  predicate Disowned(pc: Pc, i: int) {
    (pc.Reparent? && i < pc.k) || (pc.ReparentWake? && i <= pc.k) || pc.ExitWake? || pc.ExitZombie?
  }

  /** The parent is alive and older. */
  ghost predicate Tree(s: State, i: int)
    requires Shaped(s) && Index(i)
  {
    var p := s.procs[i];
    && (p.run != Unused && p.run != Used && i != INIT ==> p.parent != -1)
    && (p.parent != -1 ==>
          && Index(p.parent) && p.run != Unused && i != INIT
          && Alive(s.procs[p.parent].run) && s.procs[p.parent].pid < p.pid && !Disowned(s.procs[p.parent].pc, i))
  }

  predicate HasChild(pc: Pc) { pc.ForkCopy? || pc.ForkLinked? }

  /** The slot that a fork is filling. */
  ghost predicate Filling(s: State, i: int)
    requires Shaped(s) && Index(i)
  {
    var pc := s.procs[i].pc;
    HasChild(pc) ==>
      && Index(pc.np) && s.procs[pc.np].run == Used && s.procs[pc.np].pid > s.procs[i].pid
      && s.procs[pc.np].parent == (if pc.ForkCopy? then -1 else i)
  }

  ghost predicate Local(s: State, i: int)
    requires Shaped(s) && Index(i)
  {
    Status(s, i) && Tree(s, i) && Filling(s, i)
  }

  /** Pids and slots being filled are not shared. */
  ghost predicate Apart(s: State, i: int, j: int)
    requires Shaped(s) && Index(i) && Index(j)
  {
    && (s.procs[i].run != Unused && s.procs[j].run != Unused ==> s.procs[i].pid != s.procs[j].pid)
    && (HasChild(s.procs[i].pc) && HasChild(s.procs[j].pc) ==> s.procs[i].pc.np != s.procs[j].pc.np)
  }

  ghost predicate TableOk(s: State) {
    && Shaped(s) && (s.lock == -1 || Index(s.lock))
    && (forall i :: Index(i) ==> Local(s, i))
    && (forall i, j :: Index(i) && Index(j) && i != j ==> Apart(s, i, j))
  }

  // ---- steps that change one process ------------------------------------------------

  /** p becomes q and wait_lock passes to lock: nothing the table relations depend on
      changes, except that p may have given away more children. */
  ghost predicate Calm(s: State, p: int, q: Proc, lock: int)
    requires Shaped(s) && Index(p)
  {
    var me := s.procs[p];
    && q.pid == me.pid && q.parent == me.parent && (q.run == me.run || (Alive(q.run) && Alive(me.run)))
    && (HasChild(q.pc) ==> q.pc == me.pc)
    && (forall i :: Index(i) && Disowned(q.pc, i) && !Disowned(me.pc, i) ==> s.procs[i].parent != p)
    && (lock == s.lock || ((s.lock == -1 || s.lock == p) && (lock == -1 || lock == p)))
  }

  /** Every process of s' is the same process in s, filling the same slot if any. */
  ghost predicate NoneNew(s: State, s': State, i: int)
    requires Shaped(s) && Shaped(s') && Index(i)
  {
    && (s'.procs[i].run != Unused ==> s.procs[i].run != Unused && s'.procs[i].pid == s.procs[i].pid)
    && (HasChild(s'.procs[i].pc) ==> s'.procs[i].pc == s.procs[i].pc)
  }

  lemma ApartKept(s: State, s': State)
    requires TableOk(s) && Shaped(s') && forall i :: Index(i) ==> NoneNew(s, s', i)
    ensures forall i, j :: Index(i) && Index(j) && i != j ==> Apart(s', i, j)
  {
    hide Local;
    forall i, j | Index(i) && Index(j) && i != j ensures Apart(s', i, j) {
      assert Apart(s, i, j) && NoneNew(s, s', i) && NoneNew(s, s', j);
    }
  }

  lemma CalmLocal(s: State, p: int, q: Proc, lock: int, i: int)
    requires TableOk(s) && Index(p) && Calm(s, p, q, lock) && Status(Step(s, p, q, lock), p) && Index(i)
    ensures Local(Step(s, p, q, lock), i)
  {
    hide Holds; hide Begun; hide Apart;
    assert Local(s, p) && Local(s, i);
  }

  lemma CalmKeeps(s: State, p: int, q: Proc, lock: int)
    requires TableOk(s) && Index(p) && Calm(s, p, q, lock) && Status(Step(s, p, q, lock), p)
    ensures TableOk(Step(s, p, q, lock))
  {
    hide Apart; hide Local;
    var s' := Step(s, p, q, lock);
    ApartKept(s, s');
    forall i | Index(i) ensures Local(s', i) { CalmLocal(s, p, q, lock, i); }
  }

  lemma QuietKeeps(s: State, p: int, e: Event)
    requires TableOk(s) && Enabled(s, p, e) && !e.Does?
    ensures TableOk(Apply(s, p, e))
  {
    assert Local(s, p);
    hide Tree; hide Filling; hide Apart;
    var s' := Apply(s, p, e);
    CalmKeeps(s, p, s'.procs[p], s'.lock);
    assert s' == Step(s, p, s'.procs[p], s'.lock);
  }

  lemma OwnStatus(me: Proc, p: int, lock: int, nextpid: int, o: OwnAct)
    requires StatusOf(me, p, lock, nextpid) && p >= 0 && me.run == Running && OwnEnabled(me, p, lock, o)
    ensures var (q, lock') := OwnNext(me, p, lock, o);
            && StatusOf(q, p, lock', nextpid) && q.pid == me.pid && q.parent == me.parent && Alive(q.run)
            && (HasChild(q.pc) ==> q.pc == me.pc) && (lock' == lock || (lock in {-1, p} && lock' in {-1, p}))
            && (q.pc == me.pc || forall i :: Index(i) ==> !Disowned(q.pc, i))
  {
  }

  lemma OwnKeeps(s: State, p: int, o: OwnAct)
    requires TableOk(s) && Index(p) && s.procs[p].run == Running && OwnEnabled(s.procs[p], p, s.lock, o)
    ensures TableOk(OwnStep(s, p, o))
  {
    assert Local(s, p);
    hide Tree; hide Filling; hide Apart; hide StatusOf; hide OwnNext; hide OwnEnabled; hide Disowned;
    OwnStatus(s.procs[p], p, s.lock, s.nextpid, o);
    var (q, lock) := OwnNext(s.procs[p], p, s.lock, o);
    CalmKeeps(s, p, q, lock);
  }

  // ---- steps that change the table relations ---------------------------------------------

  /** No fork is filling slot k. */
  ghost predicate NotFilled(s: State, k: int)
    requires Shaped(s)
  {
    forall i :: Index(i) && HasChild(s.procs[i].pc) ==> s.procs[i].pc.np != k
  }

  lemma AllocSlot(s: State, np: int)
    requires TableOk(s) && Index(np) && s.procs[np].run == Unused && s.nextpid > 0
    ensures TableOk(Put(s, np, Allocated(s.procs[np], s.nextpid)).(nextpid := s.nextpid + 1))
  {
    hide Holds; hide Begun;
    var s' := Put(s, np, Allocated(s.procs[np], s.nextpid)).(nextpid := s.nextpid + 1);
    assert Local(s, np);
    forall i | Index(i) ensures Local(s', i) { assert Local(s, i); }
    forall i, j | Index(i) && Index(j) && i != j ensures Apart(s', i, j) {
      assert Apart(s, i, j) && Local(s, i) && Local(s, j);
    }
  }

  lemma FreeLocal(s: State, k: int, i: int)
    requires TableOk(s) && Index(k) && (s.procs[k].run == Used || s.procs[k].run == Zombie) && Index(i)
    requires HasChild(s.procs[i].pc) ==> s.procs[i].pc.np != k
    ensures Local(Put(s, k, Freed(s.procs[k])), i)
  {
  }

  lemma FreeSlot(s: State, k: int)
    requires TableOk(s) && Index(k) && (s.procs[k].run == Used || s.procs[k].run == Zombie) && NotFilled(s, k)
    ensures TableOk(Put(s, k, Freed(s.procs[k])))
  {
    hide Apart; hide Local;
    var s' := Put(s, k, Freed(s.procs[k]));
    ApartKept(s, s');
    forall i | Index(i) ensures Local(s', i) { FreeLocal(s, k, i); }
  }

  /** p starts or goes on filling slot np. */
  ghost predicate CanFill(s: State, p: int, np: int, parent: int) {
    && TableOk(s) && Index(p) && Index(np) && np != p && s.procs[p].run == Running
    && (s.procs[p].pc == ForkChecked || s.procs[p].pc == ForkCopy(np))
    && s.procs[np].run == Used && s.procs[np].parent == -1 && s.procs[np].pid > s.procs[p].pid
    && (parent == p || parent == -1) && NotFilled(At(s, p, User), np)
  }

  function FilledBy(s: State, p: int, np: int, parent: int): (r: State)
    requires Shaped(s) && Index(p) && Index(np)
    ensures Shaped(r)
  {
    At(Put(s, np, s.procs[np].(parent := parent)), p, if parent == p then ForkLinked(np) else ForkCopy(np))
  }

  lemma FillLocal(s: State, p: int, np: int, parent: int, i: int)
    requires CanFill(s, p, np, parent) && Index(i)
    ensures Local(FilledBy(s, p, np, parent), i)
  {
    hide Status; hide Tree; hide Filling; hide CanFill; hide FilledBy;
    FillStatus(s, p, np, parent, i);
    FillTree(s, p, np, parent, i);
    FillFilling(s, p, np, parent, i);
  }

  lemma FillStatus(s: State, p: int, np: int, parent: int, i: int)
    requires CanFill(s, p, np, parent) && Index(i)
    ensures Shaped(s) && Status(FilledBy(s, p, np, parent), i)
  {
    hide TableOk; hide Tree; hide Filling; hide NotFilled;
    Facts(s, i);
    Facts(s, np);
  }

  lemma FillTree(s: State, p: int, np: int, parent: int, i: int)
    requires CanFill(s, p, np, parent) && Index(i)
    ensures Shaped(s) && Tree(FilledBy(s, p, np, parent), i)
  {
    hide TableOk; hide Filling; hide NotFilled; hide Holds;
    Facts(s, i);
    Facts(s, p);
    Facts(s, np);
  }

  lemma FillFilling(s: State, p: int, np: int, parent: int, i: int)
    requires CanFill(s, p, np, parent) && Index(i)
    ensures Shaped(s) && Filling(FilledBy(s, p, np, parent), i)
  {
    hide TableOk; hide Status; hide Tree;
    Facts(s, i);
    assert i != p ==> s.procs[i] == At(s, p, User).procs[i];
  }

  lemma FillSlot(s: State, p: int, np: int, parent: int)
    requires CanFill(s, p, np, parent)
    ensures TableOk(FilledBy(s, p, np, parent))
  {
    hide Local;
    var s' := FilledBy(s, p, np, parent);
    forall i, j | Index(i) && Index(j) && i != j ensures Apart(s', i, j) {
      assert Apart(s, i, j);
      assert i != p ==> s.procs[i].pc == At(s, p, User).procs[i].pc;
      assert j != p ==> s.procs[j].pc == At(s, p, User).procs[j].pc;
    }
    forall i | Index(i) ensures Local(s', i) { FillLocal(s, p, np, parent, i); }
  }

  lemma ReleaseSlot(s: State, np: int)
    requires TableOk(s) && Index(np) && s.procs[np].run == Used && s.procs[np].parent != -1 && NotFilled(s, np)
    ensures TableOk(Put(s, np, s.procs[np].(run := Runnable)))
  {
    hide Apart;
    var s' := Put(s, np, s.procs[np].(run := Runnable));
    assert Local(s, np);
    forall i | Index(i) ensures Local(s', i) { assert Local(s, i); }
    ApartKept(s, s');
  }

  lemma Adopt(s: State, k: int)
    requires TableOk(s) && Index(k) && Index(s.procs[k].parent) && s.procs[s.procs[k].parent].pc.Reparent?
    ensures TableOk(Put(s, k, s.procs[k].(parent := INIT)))
  {
    hide Apart;
    var s' := Put(s, k, s.procs[k].(parent := INIT));
    assert Local(s, k) && Local(s, INIT) && Local(s, s.procs[k].parent);
    forall i | Index(i) ensures Local(s', i) { assert Local(s, i); }
    ApartKept(s, s');
  }

  lemma ExitDoneKeeps(s: State, p: int)
    requires TableOk(s) && Index(p) && s.procs[p].run == Running && s.procs[p].pc == ExitZombie
    ensures TableOk(ZombieNext(s, p))
  {
    hide Apart;
    var s' := ZombieNext(s, p);
    assert Local(s, p);
    forall i | Index(i) ensures Local(s', i) { assert Local(s, i); }
    ApartKept(s, s');
  }

  // ---- every step keeps the table relations ------------------------------------------------

  lemma Facts(s: State, p: int)
    requires TableOk(s) && Index(p)
    ensures Shaped(s) && Local(s, p)
  {
  }

  /** Another process's counters change, or it is woken. */
  lemma TouchKeeps(s: State, j: int, q: Proc)
    requires TableOk(s) && Index(j)
    requires q == s.procs[j].(forks := q.forks, ready := q.ready, run := q.run)
    requires q.run == s.procs[j].run || (s.procs[j].run == Sleeping && q.run == Runnable)
    ensures TableOk(Put(s, j, q))
  {
    Facts(s, j);
    hide TableOk; hide Tree; hide Filling; hide Disowned;
    CalmKeeps(s, j, q, s.lock);
  }

  /** p only moves on to pc, inside or at the end of a critical section. */
  lemma MoveKeeps(s: State, p: int, pc: Pc, lock: int)
    requires TableOk(s) && Index(p) && s.procs[p].run == Running && !HasChild(pc) && !pc.Dead?
    requires lock == (if Holds(pc) then p else if s.lock == p then -1 else s.lock)
    requires Holds(pc) ==> s.lock == p || s.lock == -1
    requires p == INIT ==> !Begun(pc)
    requires forall i :: Index(i) && Disowned(pc, i) && !Disowned(s.procs[p].pc, i) ==> s.procs[i].parent != p
    ensures TableOk(Step(s, p, s.procs[p].(pc := pc), lock))
  {
    assert Local(s, p);
    hide Tree; hide Filling; hide Apart; hide Disowned; hide Begun;
    CalmKeeps(s, p, s.procs[p].(pc := pc), lock);
  }

  lemma NotFilledUnlessUsed(s: State, k: int)
    requires TableOk(s) && Index(k) && s.procs[k].run != Used
    ensures NotFilled(s, k)
  {
  }

  /** A slot is filled by one fork only. */
  lemma FilledOnce(s: State, p: int)
    requires TableOk(s) && Index(p) && HasChild(s.procs[p].pc)
    ensures NotFilled(At(s, p, User), s.procs[p].pc.np)
  {
    hide Local;
    var s' := At(s, p, User);
    forall i | Index(i) && HasChild(s'.procs[i].pc) ensures s'.procs[i].pc.np != s.procs[p].pc.np { assert Apart(s,
        i, p); }
  }

  lemma ForkAllocKeeps(s: State, p: int, np: int)
    requires TableOk(s) && Index(p) && s.procs[p].run == Running && s.procs[p].pc == ForkChecked && Index(np)
               && s.procs[np].run == Unused
    ensures TableOk(AllocNext(s, p, np))
  {
    Facts(s, p);
    Facts(s, np);
    hide TableOk; hide Tree; hide Filling;
    NotFilledUnlessUsed(s, np);
    AllocSlot(s, np);
    var s1 := Put(s, np, Allocated(s.procs[np], s.nextpid)).(nextpid := s.nextpid + 1);
    assert NotFilled(At(s1, p, User), np) by {
      forall i | Index(i) && HasChild(At(s1, p, User).procs[i].pc) ensures At(s1, p, User).procs[i].pc.np != np {
        assert At(s1, p, User).procs[i].pc == s.procs[i].pc;
      }
    }
    FillSlot(s1, p, np, -1);
    assert AllocNext(s, p, np) == FilledBy(s1, p, np, -1);
  }

  lemma ForkFailKeeps(s: State, p: int)
    requires TableOk(s) && Index(p) && s.procs[p].run == Running && s.procs[p].pc.ForkCopy? && Index(s.procs[p].pc.np)
    ensures TableOk(FailNext(s, p, s.procs[p].pc.np))
  {
    Facts(s, p);
    hide TableOk; hide Tree;
    var np := s.procs[p].pc.np;
    FilledOnce(s, p);
    MoveKeeps(s, p, User, s.lock);
    FreeSlot(At(s, p, User), np);
    assert FailNext(s, p, s.procs[p].pc.np) == Put(At(s, p, User), np, Freed(s.procs[np]));
  }

  lemma ForkLinkKeeps(s: State, p: int)
    requires TableOk(s) && Index(p) && s.procs[p].run == Running && s.procs[p].pc.ForkCopy? && Index(s.procs[p].pc.np)
    ensures TableOk(LinkNext(s, p, s.procs[p].pc.np))
  {
    Facts(s, p);
    hide TableOk; hide Tree;
    FilledOnce(s, p);
    FillSlot(s, p, s.procs[p].pc.np, p);
  }

  lemma ForkRunKeeps(s: State, p: int)
    requires TableOk(s) && Index(p) && s.procs[p].run == Running && s.procs[p].pc.ForkLinked? && Index(s.procs[p].pc.np)
    ensures TableOk(RunNext(s, p, s.procs[p].pc.np))
  {
    hide TableOk; hide Tree; hide Disowned;
    Facts(s, p);
    var np := s.procs[p].pc.np;
    FilledOnce(s, p);
    MoveOnKeeps(s, p, ForkCount, s.lock);
    var s1 := At(s, p, ForkCount);
    assert NotFilled(s1, np) by {
      forall i | Index(i) && HasChild(s1.procs[i].pc) ensures s1.procs[i].pc.np != np {
        assert s1.procs[i].pc == At(s, p, User).procs[i].pc;
      }
    }
    ReleaseSlot(s1, np);
    assert RunNext(s, p, s.procs[p].pc.np) == Put(s1, np, s.procs[np].(run := Runnable));
  }

  /** As MoveKeeps, where pc is not past the start of reparent. */
  lemma MoveOnKeeps(s: State, p: int, pc: Pc, lock: int)
    requires TableOk(s) && Index(p) && s.procs[p].run == Running && !HasChild(pc) && (Begun(pc) ==>
               pc == Exiting
               && p != INIT)
    requires lock == (if Holds(pc) then p else if s.lock == p then -1 else s.lock)
    requires Holds(pc) ==> s.lock == p || s.lock == -1
    ensures TableOk(Step(s, p, s.procs[p].(pc := pc), lock))
  {
    hide TableOk; hide Holds;
    Facts(s, p);
    hide Local;
    MoveKeeps(s, p, pc, lock);
  }

  lemma ParentFacts(s: State, p: int)
    requires TableOk(s) && Index(p) && s.procs[p].run == Running && p != INIT
    ensures Shaped(s) && Index(s.procs[p].parent) && s.procs[p].parent != p && Alive(s.procs[s.procs[p].parent].run)
    ensures Holds(s.procs[p].pc) <==> s.lock == p
  {
  }

  lemma ExitBeginKeeps(s: State, p: int)
    requires TableOk(s) && Index(p) && s.procs[p].run == Running && s.procs[p].pc == User && p != INIT
    ensures TableOk(ExitStart(s, p))
  {
    hide TableOk; hide Local;
    ParentFacts(s, p);
    var up := s.procs[p].parent;
    var q := s.procs[up].(forks := s.procs[up].forks - 1);
    TouchKeeps(s, up, q);
    MoveOnKeeps(Put(s, up, q), p, Exiting, s.lock);
  }

  lemma ReparentStepKeeps(s: State, p: int)
    requires TableOk(s) && Index(p) && s.procs[p].run == Running && s.procs[p].pc.Reparent?
    ensures TableOk(ReparentNext(s, p, s.procs[p].pc.k))
  {
    hide TableOk; hide Local;
    InitNotBegun(s, p);
    ParentFacts(s, p);
    var k := s.procs[p].pc.k;
    if k >= NPROC {
      MoveKeeps(s, p, ExitWake(0), s.lock) by { forall i | Index(i) ensures Disowned(s.procs[p].pc, i) { } }
    } else if s.procs[k].parent == p {
      Adopt(s, k);
      MoveKeeps(Put(s, k, s.procs[k].(parent := INIT)), p, ReparentWake(k, 0), s.lock);
    } else {
      MoveKeeps(s, p, Reparent(k + 1), s.lock);
    }
  }

  lemma InitNotBegun(s: State, p: int)
    requires TableOk(s) && Index(p) && Begun(s.procs[p].pc)
    ensures p != INIT
  {
  }

  /** One iteration of wakeup on another process. */
  lemma WokenKeeps(s: State, p: int, j: int, chan: Chan)
    requires TableOk(s) && Index(p) && s.procs[p].run == Running
    ensures var s1 := if Index(j) && j != p then Put(s, j, Woken(s.procs[j], chan)) else s;
            TableOk(s1) && s1.procs[p] == s.procs[p]
  {
    if Index(j) { TouchKeeps(s, j, Woken(s.procs[j], chan)); }
  }

  lemma WakeStepKeeps(s: State, p: int)
    requires TableOk(s) && Index(p) && s.procs[p].run == Running && Waking(s.procs[p].pc)
    ensures TableOk(WakeNext(s, p))
  {
    Facts(s, p);
    hide TableOk; hide Filling; hide Tree; hide Woken; hide WakeChan;
    var j := WakeIndex(s.procs[p].pc);
    WokenKeeps(s, p, j, WakeChan(s, p));
    var s1 := if Index(j) && j != p then Put(s, j, Woken(s.procs[j], WakeChan(s, p))) else s;
    var s' := WakeNext(s, p);
    MoveKeeps(s1, p, s'.procs[p].pc, s'.lock);
    assert s' == Step(s1, p, s1.procs[p].(pc := s'.procs[p].pc), s'.lock);
  }

  lemma ScanStepKeeps(s: State, p: int, copied: bool)
    requires TableOk(s) && Index(p) && s.procs[p].run == Running && s.procs[p].pc.WaitScan?
    ensures TableOk(ScanNext(s, p, copied))
  {
    Facts(s, p);
    hide TableOk; hide Tree; hide Filling; hide Match;
    var pc, k := ScanPc(s, p), s.procs[p].pc.k;
    MoveOnKeeps(s, p, pc, if pc.WaitScan? then s.lock else -1);
    if ScanFinds(s, p) && copied {
      var s1 := Step(s, p, s.procs[p].(pc := pc), if pc.WaitScan? then s.lock else -1);
      NotFilledUnlessUsed(s1, k);
      FreeSlot(s1, k);
    }
  }

  lemma SendToKeeps(s: State, p: int, t: int)
    requires TableOk(s) && Index(p) && s.procs[p].run == Running && s.procs[p].pc.SendPick? && Index(t)
               && s.procs[t].run != Unused
    ensures TableOk(SendNext(s, p, t))
  {
    Facts(s, p);
    hide TableOk; hide Filling; hide Tree;
    if s.procs[t].ready {
      MoveKeeps(s, p, User, -1);
    } else {
      TouchKeeps(s, t, s.procs[t].(ready := true));
      MoveKeeps(Put(s, t, s.procs[t].(ready := true)), p, SendWake(t, 0), s.lock);
    }
  }

  /** Every step keeps the table relations. */
  lemma TableKeeps(s: State, p: int, e: Event)
    requires TableOk(s) && Enabled(s, p, e)
    ensures TableOk(Apply(s, p, e))
  {
    hide TableOk; hide OwnStep; hide AllocNext; hide FailNext; hide LinkNext; hide RunNext; hide ExitStart;
    hide ReparentNext; hide WakeNext; hide ZombieNext; hide ScanNext; hide SendNext; hide OwnEnabled;
    match e
    case Dispatch => QuietKeeps(s, p, e);
    case Kill => QuietKeeps(s, p, e);
    case WakeOther => QuietKeeps(s, p, e);
    case Does(a) =>
      match a
      case Own(o) => OwnKeeps(s, p, o);
      case ForkAlloc(np) => ForkAllocKeeps(s, p, np);
      case ForkFail => ForkFailKeeps(s, p);
      case ForkLink => ForkLinkKeeps(s, p);
      case ForkRun => ForkRunKeeps(s, p);
      case ExitBegin => ExitBeginKeeps(s, p);
      case ReparentStep => ReparentStepKeeps(s, p);
      case WakeStep => WakeStepKeeps(s, p);
      case ExitDone => ExitDoneKeeps(s, p);
      case ScanStep(copied) => ScanStepKeeps(s, p, copied);
      case SendTo(t) => SendToKeeps(s, p, t);
  }
}
