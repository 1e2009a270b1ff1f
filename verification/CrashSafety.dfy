/** The log under the file system: whatever the crashes, what recovery leaves
    is a consistent file system, namely the one of the last commit. */
module CrashSafety {
  import opened Blocks
  import Log = LogModel
  import opened FsModel
  import opened FsFiles
  import Steps = FsSteps

  /** The inodes recorded on disk. */
  ghost function Inodes(sb: Super, disk: Disk): Table
    requires sb.Valid() && |disk| == sb.size
  {
    seq(sb.ninodes, i requires 0 <= i < sb.ninodes => DiskInode(sb, disk, i))
  }

  /** A disk image with single ownership, no leaked block and no holes. */
  ghost predicate Consistent(sb: Super, disk: Disk) {
    && sb.Valid() && |disk| == sb.size
    && Owned(sb, disk, Inodes(sb, disk), {}) && AllNoHoles(disk, Inodes(sb, disk))
  }

  /** At the end of every file system call the disk image is consistent. */
  lemma ValidIsConsistent(sb: Super, disk: Disk, ino: Table)
    requires FsInv(sb, disk, ino)
    ensures Consistent(sb, disk) && Inodes(sb, disk) == ino
  {
    hide SlotsInRange; hide SlotsUnique; hide Holds; hide Used; hide GetInode; hide NoHoles;
    forall i: nat | i < sb.ninodes ensures Inodes(sb, disk)[i] == ino[i] { assert Synced(sb, disk, ino, i); }
    assert Inodes(sb, disk) == ino;
  }

  /** The log region lies before the inode blocks. */
  predicate Layout(sb: Super, start: nat) {
    sb.Valid() && start + Log.LOGBLOCKS < sb.inodestart
  }

  /** Consistency, and every file's contents, depend only on blocks outside the log. */
  lemma HomeDecides(sb: Super, start: nat, d: Disk, e: Disk)
    requires Layout(sb, start) && Log.SameHome(start, d, e) && Consistent(sb, d)
    ensures Consistent(sb, e) && Inodes(sb, e) == Inodes(sb, d)
    ensures SameBytes(d, Inodes(sb, d), e, Inodes(sb, e))
  {
    hide Slot; hide Bit; hide GetInode; hide FileByte; hide SlotsUnique; hide Holds;
    var ino := Inodes(sb, d);
    forall i: nat | i < sb.ninodes ensures Inodes(sb, e)[i] == ino[i] {
      assert Log.HomeBlock(start, |d|, sb.Iblock(i));
    }
    assert Inodes(sb, e) == ino;
    forall c | sb.datastart <= c < sb.size ensures e[c] == d[c] { assert Log.HomeBlock(start, |d|, c); }
    forall b: nat | b < sb.size ensures Used(sb, e, b) == Used(sb, d, b) {
      BblockInRange(sb, b);
      assert Log.HomeBlock(start, |d|, sb.Bblock(b));
    }
    DataAreaKept(sb, d, ino, {}, e);
    OwnedSame(sb, d, ino, e, ino, {});
    forall i | 0 <= i < |ino| ensures NoHoles(e, ino[i]) {
      assert NoHoles(d, ino[i]);
      HolesKept(d, ino, e, i);
    }
  }

  lemma HolesKept(d: Disk, ino: Table, e: Disk, i: nat)
    requires i < |ino| && SameSlots(d, ino, e, ino) && NoHoles(d, ino[i])
    ensures NoHoles(e, ino[i])
  {
    hide Slot;
    forall bn | 0 <= bn < MAXFILE && bn * BSIZE < ino[i].size ensures DataBlock(e, ino[i], bn) != 0 {
      assert DataBlock(d, ino[i], bn) != 0;
      assert InTable(ino, i, DataSlot(bn));
    }
  }

  /** If the file system calls leave a consistent image whenever none of them
      is in progress, then at every point of every run, after any crashes, the
      disk recovers to a consistent image: the last one committed. */
  lemma {:induction false} RecoveryIsConsistent(sb: Super, t: seq<Log.State>, j: nat)
    requires Log.IsRun(t) && Log.Inv(t[0]) && j < |t| && Layout(sb, t[0].start)
    requires Consistent(sb, Log.Recovered(t[0].start, t[0].disk))
    requires forall k :: 0 <= k < |t| && t[k].ops == [] && t[k].phase == Log.CommitHead ==> Consistent(sb, t[k].view)
    ensures Log.Inv(t[j]) && Consistent(sb, Log.IdealDisk(t, j))
    ensures Consistent(sb, Log.Recovered(t[j].start, t[j].disk))
    ensures t[j].phase == Log.Running ==> Consistent(sb, t[j].disk)
  {
    hide Log.Recovered; hide Log.PhaseInv; hide Log.Reserved; hide Log.GoodHeader; hide Consistent; hide Log.Next;
    IdealConsistent(sb, t, j);
    Log.RecoversToIdeal(t, j);
    SameHomeSym(t[0].start, Log.Recovered(t[j].start, t[j].disk), Log.IdealDisk(t, j));
    HomeDecides(sb, t[0].start, Log.IdealDisk(t, j), Log.Recovered(t[j].start, t[j].disk));
    if t[j].phase == Log.Running {
      Log.IdleDiskIsIdeal(t, j);
      SameHomeSym(t[0].start, t[j].disk, Log.IdealDisk(t, j));
      HomeDecides(sb, t[0].start, Log.IdealDisk(t, j), t[j].disk);
    }
  }

  lemma SameHomeSym(start: nat, d: Disk, e: Disk)
    requires Log.SameHome(start, d, e)
    ensures Log.SameHome(start, e, d)
  {
  }

  lemma {:induction false} IdealConsistent(sb: Super, t: seq<Log.State>, j: nat)
    requires Log.IsRun(t) && Log.Inv(t[0]) && j < |t|
    requires Consistent(sb, Log.Recovered(t[0].start, t[0].disk))
    requires forall k :: 0 <= k < |t| && t[k].ops == [] && t[k].phase == Log.CommitHead ==> Consistent(sb, t[k].view)
    ensures Consistent(sb, Log.IdealDisk(t, j))
  {
    hide Log.Recovered; hide Consistent; hide Log.Next; hide Log.PhaseInv; hide Log.Sized; hide Log.GoodHeader;
    if j > 0 {
      IdealConsistent(sb, t, j - 1);
      Log.RunKeepsInv(t, j - 1);
    }
  }

  // ---- a file system call as an operation of the log ---------------------------

  /** All states of the run have the same disk; nothing is being committed. */
  ghost predicate InMemory(s: Log.State, t: seq<Log.State>) {
    forall i :: 0 <= i < |t| ==> t[i].start == s.start && t[i].disk == s.disk && t[i].phase == Log.Running
  }

  /** The changes of one file system call, all of them to logged blocks within
      the budget of an operation, are a run of log_write events: nothing panics
      and the view ends up as the call left the disk.  The operation may have logged
      some of the blocks before. */
  lemma {:induction false} CallIsLogWrites(s: Log.State, k: nat, disk': Disk, logged: set<nat>)
    returns (t: seq<Log.State>)
    requires Log.Inv(s) && s.phase == Log.Running && k < |s.ops|
    requires AllLogged(s.view, disk', logged) && Affordable(s, k, logged)
    requires forall b :: b in logged ==> Log.HomeBlock(s.start, |s.view|, b) && b < UINT_LIMIT
    ensures Log.IsRun(t) && t[0] == s
    ensures var last := t[|t| - 1]; last.view == disk' && last.ops == s.ops[k := s.ops[k] + logged]
    ensures InMemory(s, t)
    decreases |logged|
  {
    hide Log.Inv; hide Log.Next; hide InMemory;
    if logged == {} {
      assert disk' == s.view;
      assert s.ops[k] + {} == s.ops[k];
      t := [s];
      StandStill(s);
    } else {
      var b := PickWrite(s, k, logged);
      var s', rest := LogOne(s, k, b, disk'[b], logged);
      t := CallIsLogWrites(s', k, disk', rest);
      assert s'.ops[k] + rest == s.ops[k] + logged;
      RunPrepend(s, t);
      t := [s] + t;
    }
  }

  /** The budget allows the new blocks, and the log is not full when old ones are logged again. */
  ghost predicate Affordable(s: Log.State, k: nat, logged: set<nat>)
    requires k < |s.ops|
  {
    |s.ops[k] + logged| <= Log.MAXOPBLOCKS && (logged <= s.ops[k] ==> |s.ops[k]| < Log.MAXOPBLOCKS || logged == {})
  }

  /** Blocks logged before come first, while there is budget. */
  lemma PickWrite(s: Log.State, k: nat, logged: set<nat>) returns (b: nat)
    requires k < |s.ops| && logged != {}
    ensures b in logged && (b in s.ops[k] || logged !! s.ops[k])
  {
    if c :| c in logged && c in s.ops[k] {
      b := c;
    } else {
      b :| b in logged;
    }
  }

  lemma StandStill(s: Log.State)
    requires s.phase == Log.Running
    ensures Log.IsRun([s]) && InMemory(s, [s])
  {
  }

  lemma RunPrepend(s: Log.State, t: seq<Log.State>)
    requires Log.IsRun(t) && Log.Next(s, t[0]) && InMemory(t[0], t) && s.phase == Log.Running
    requires t[0].start == s.start && t[0].disk == s.disk
    ensures Log.IsRun([s] + t) && InMemory(s, [s] + t)
  {
    hide Log.Next;
  }

  lemma LogOne(s: Log.State, k: nat, b: nat, data: Block, logged: set<nat>) returns (s': Log.State, rest: set<nat>)
    requires Log.Inv(s) && s.phase == Log.Running && k < |s.ops| && b in logged && Affordable(s, k, logged)
    requires b in s.ops[k] || logged !! s.ops[k]
    requires Log.HomeBlock(s.start, |s.view|, b) && b < UINT_LIMIT
    ensures rest == logged - {b} && |rest| == |logged| - 1
    ensures Log.Inv(s') && Log.Next(s, s') && s'.phase == Log.Running && s'.start == s.start && s'.disk == s.disk
    ensures s'.view == s.view[b := data] && s'.ops == s.ops[k := s.ops[k] + {b}] && Affordable(s', k, rest)
  {
    hide Log.PhaseInv; hide Log.DecodeHead; hide Word; hide Log.IndexOf; hide Log.Unspent;
    rest := logged - {b};
    BudgetLeft(s.ops[k], logged, b);
    Log.UnspentBounds(s.ops, k);
    var e := Log.LogWrite(k, b, data);
    assert Log.Enabled(s, e);
    s' := Log.Step(s, e);
    Log.StepKeeps(s, e);
  }

  lemma BudgetLeft(mine: set<nat>, logged: set<nat>, b: nat)
    requires |mine + logged| <= Log.MAXOPBLOCKS && b in logged && (b in mine || logged !! mine)
    requires logged <= mine ==> |mine| < Log.MAXOPBLOCKS
    ensures |mine| < Log.MAXOPBLOCKS && |mine + {b}| <= Log.MAXOPBLOCKS
    ensures |(mine + {b}) + (logged - {b})| <= Log.MAXOPBLOCKS
    ensures logged - {b} <= mine + {b} ==> |mine + {b}| < Log.MAXOPBLOCKS || logged - {b} == {}
  {
    assert (mine + {b}) + (logged - {b}) == mine + logged;
    assert mine + logged == mine + (logged - mine);
    assert logged - mine == {} || |logged - mine| >= 1;
    if logged !! mine {
      assert logged - {b} <= mine + {b} ==> logged - {b} == {};
    } else {
      assert mine + {b} == mine;
    }
    assert mine + {b} == mine + ({b} - mine);
  }

  // ---- the whole storage system ---------------------------------------------------

  /** The log, the inodes in memory, the blocks that are allocated and not yet stored, and
      for each outstanding operation the inodes it has locked. */
  datatype Sys = Sys(log: Log.State, ino: Table, spare: map<nat, nat>, who: seq<set<nat>>)

  ghost function Busy(who: seq<set<nat>>): set<nat> {
    set k, i | 0 <= k < |who| && i in who[k] :: i
  }

  /** The file system as the operations see it. */
  ghost function FsOf(u: Sys): Steps.Fs {
    Steps.Fs(u.log.view, u.ino, Busy(u.who), u.spare)
  }

  /** Phases in which the view is the file system's. */
  predicate Steady(phase: Log.Phase) {
    !phase.Booting? && !phase.Replay? && !phase.ReplayErase?
  }

  /** No inode is locked by two operations. */
  ghost predicate Apart(who: seq<set<nat>>) {
    forall k, l :: 0 <= k < l < |who| ==> who[k] !! who[l]
  }

  /** The disk recovers to a consistent image, and what the operations see is in order. */
  ghost predicate Safe(sb: Super, u: Sys) {
    && Layout(sb, u.log.start) && Log.Inv(u.log) && |u.log.disk| == sb.size
    && Consistent(sb, Log.Recovered(u.log.start, u.log.disk))
    && |u.who| == |u.log.ops| && Apart(u.who) && (Steady(u.log.phase) ==> Steps.FsOk(sb, FsOf(u)))
  }

  ghost function WhoAfter(who: seq<set<nat>>, e: Log.Event): seq<set<nat>> {
    match e
    case BeginOp => who + [{}]
    case EndOp(k) => if k < |who| then who[..k] + who[k + 1..] else who
    case Crash => []
    case _ => who
  }

  /** begin_op, end_op by an operation that has unlocked its inodes, a block write of commit
      or of recovery, a crash.  A crash empties memory; after recovery inodes are read from
      the disk. */
  ghost predicate EventStep(sb: Super, u: Sys, e: Log.Event, u': Sys) {
    && !e.LogWrite? && Log.Sized(u.log) && Log.Enabled(u.log, e) && u'.log == Log.Step(u.log, e)
    && (e.EndOp? && e.op < |u.who| ==> u.who[e.op] == {}) && u'.who == WhoAfter(u.who, e)
    && if e.Crash? || e.RecoverStep?
       then u'.spare == map[] && (Steady(u'.log.phase) ==>
            sb.Valid() && |u'.log.view| == sb.size && u'.ino == Inodes(sb, u'.log.view))
       else u'.spare == u.spare && u'.ino == u.ino
  }

  /** Operation k makes one step of a file system call; a block it writes goes through log_write. */
  ghost predicate ActStep(sb: Super, u: Sys, k: nat, a: Steps.Act, u': Sys) {
    && k < |u.who| == |u.log.ops| && u.log.phase == Log.Running && Log.Sized(u.log)
    && Steps.Sized(sb, FsOf(u)) && Steps.Enabled(sb, FsOf(u), a) && (a.Lock? || a.i in u.who[k])
    && var fs := Steps.Next(sb, FsOf(u), a);
       var w := Steps.Writes(sb, FsOf(u), a);
       && u'.ino == fs.ino && u'.spare == fs.spare && u'.who == WhoActs(u.who, k, a)
       && if w.Write? then var e := Log.LogWrite(k, w.b as int, w.x);
                           w.b < UINT_LIMIT && Log.Enabled(u.log, e) && u'.log == Log.Step(u.log, e)
          else u'.log == u.log
  }

  function WhoActs(who: seq<set<nat>>, k: nat, a: Steps.Act): seq<set<nat>>
    requires k < |who|
  {
    if a.Lock? then who[k := who[k] + {a.i}] else if a.Unlock? then who[k := who[k] - {a.i}] else who
  }

  /** A whole call of the file system code, made while no other is under way. */
  ghost predicate CallStep(sb: Super, u: Sys, t: seq<Log.State>, u': Sys) {
    && Busy(u.who) == {} && FsInv(sb, u'.log.view, u'.ino) && u'.spare == u.spare && u'.who == u.who
    && Log.IsRun(t) && t[0] == u.log && t[|t| - 1] == u'.log && InMemory(u.log, t) && |u'.log.ops| == |u.log.ops|
  }

  ghost predicate Step(sb: Super, u: Sys, u': Sys) {
    || (exists e :: EventStep(sb, u, e, u'))
    || (exists k, a :: ActStep(sb, u, k, a, u'))
    || (exists t :: CallStep(sb, u, t, u'))
  }

  // ---- steps of operations -----------------------------------------------------------

  lemma NobodyBusy(who: seq<set<nat>>)
    requires who == []
    ensures Busy(who) == {}
  {
  }

  lemma BusyActs(who: seq<set<nat>>, k: nat, a: Steps.Act)
    requires k < |who| && Apart(who) && (a.Lock? ==> a.i !in Busy(who)) && (!a.Lock? ==> a.i in who[k])
    ensures Apart(WhoActs(who, k, a))
    ensures Busy(WhoActs(who, k, a)) ==
            if a.Lock? then Busy(who) + {a.i} else if a.Unlock? then Busy(who) - {a.i} else Busy(who)
  {
    var who' := WhoActs(who, k, a);
    forall i ensures i in Busy(who') <==>
        if a.Lock? then i in Busy(who) || i == a.i else if a.Unlock? then i in Busy(who) && i != a.i else i in Busy(who)
    {
      if i in Busy(who) {
        var l :| 0 <= l < |who| && i in who[l];
        assert i != a.i ==> i in who'[l];
      }
      if a.Lock? { assert a.i in who'[k]; }
    }
  }

  lemma BusyEvent(who: seq<set<nat>>, e: Log.Event)
    requires Apart(who) && (e.EndOp? && e.op < |who| ==> who[e.op] == {}) && !e.Crash?
    ensures Apart(WhoAfter(who, e)) && Busy(WhoAfter(who, e)) == Busy(who)
  {
    var who' := WhoAfter(who, e);
    forall i ensures i in Busy(who') <==> i in Busy(who) {
      if i in Busy(who) {
        var l :| 0 <= l < |who| && i in who[l];
        assert i in who'[if e.EndOp? && e.op < |who| && l > e.op then l - 1 else l];
      }
    }
  }

  /** What one operation does keeps the system safe, whatever the others are in the middle of. */
  lemma ActSafe(sb: Super, u: Sys, k: nat, a: Steps.Act, u': Sys)
    requires Safe(sb, u) && ActStep(sb, u, k, a, u')
    ensures Safe(sb, u')
  {
    hide Log.Recovered; hide Log.Inv; hide Consistent; hide Log.Enabled; hide Log.Step; hide Steps.FsOk;
    hide Steps.Enabled; hide Steps.Next; hide Steps.Writes; hide Busy; hide Apart; hide WhoActs;
    var fs, fs' := FsOf(u), Steps.Next(sb, FsOf(u), a);
    Steps.StepKeeps(sb, fs, a);
    NextIs(sb, fs, a);
    BusyActs(u.who, k, a);
    var w := Steps.Writes(sb, fs, a);
    if w.Write? {
      Steps.WriteTarget(sb, fs, a);
      LogWriteEffect(u.log, k, w.b, w.x);
    }
    assert FsOf(u') == fs';
    SameLength(u.who, k, a);
  }

  lemma SameLength(who: seq<set<nat>>, k: nat, a: Steps.Act)
    requires k < |who|
    ensures |WhoActs(who, k, a)| == |who|
  {
  }

  lemma NextIs(sb: Super, fs: Steps.Fs, a: Steps.Act)
    requires Steps.Sized(sb, fs) && Steps.Enabled(sb, fs, a)
    ensures var w := Steps.Writes(sb, fs, a);
            Steps.Next(sb, fs, a).disk == if w.Write? && w.b < |fs.disk| then fs.disk[w.b := w.x] else fs.disk
    ensures Steps.Next(sb, fs, a).busy ==
            if a.Lock? then fs.busy + {a.i} else if a.Unlock? then fs.busy - {a.i} else fs.busy
    ensures a.i in fs.busy <==> !a.Lock?
  {
  }

  lemma LogWriteEffect(s: Log.State, k: nat, b: nat, x: Block)
    requires Log.Inv(s) && b < UINT_LIMIT && Log.Enabled(s, Log.LogWrite(k, b, x)) && s.phase == Log.Running
    ensures var s' := Log.Step(s, Log.LogWrite(k, b, x));
            && Log.Inv(s') && s'.start == s.start && s'.disk == s.disk && s'.view == s.view[b := x]
            && |s'.ops| == |s.ops| && s'.phase == s.phase
  {
    hide Log.PhaseInv; hide Log.DecodeHead; hide Log.IndexOf; hide Log.Reserved; hide Log.GoodHeader;
    Log.StepKeeps(s, Log.LogWrite(k, b, x));
  }

  /** An operation with budget left can make any step it is up to: log_write does not panic. */
  lemma BudgetSuffices(sb: Super, u: Sys, k: nat, a: Steps.Act) returns (u': Sys)
    requires Safe(sb, u) && u.log.phase == Log.Running && k < |u.log.ops| && |u.log.ops[k]| < Log.MAXOPBLOCKS
    requires Steps.Sized(sb, FsOf(u)) && Steps.Enabled(sb, FsOf(u), a) && (a.Lock? || a.i in u.who[k])
    ensures ActStep(sb, u, k, a, u')
  {
    hide Log.Recovered; hide Consistent; hide Log.Step; hide Steps.FsOk; hide Steps.Enabled; hide Steps.Next;
    hide Steps.Writes; hide Busy; hide Apart; hide WhoActs; hide Log.PhaseInv; hide Log.Unspent;
    var fs, w := Steps.Next(sb, FsOf(u), a), Steps.Writes(sb, FsOf(u), a);
    var log := u.log;
    if w.Write? {
      Steps.WriteTarget(sb, FsOf(u), a);
      Log.UnspentBounds(u.log.ops, k);
      assert |u.log.ops[k] + {w.b}| <= |u.log.ops[k]| + 1;
      log := Log.Step(u.log, Log.LogWrite(k, w.b, w.x));
    }
    u' := Sys(log, fs.ino, fs.spare, WhoActs(u.who, k, a));
  }

  /** A call of the file system code, from one valid state to the next, is such a call. */
  lemma CodeCallIsCall(sb: Super, u: Sys, k: nat, disk': Disk, ino': Table, logged: set<nat>) returns (u': Sys)
    requires Safe(sb, u) && Busy(u.who) == {} && u.log.phase == Log.Running && k < |u.log.ops|
    requires FsInv(sb, disk', ino') && AllLogged(u.log.view, disk', logged) && Affordable(u.log, k, logged)
    requires forall b :: b in logged ==> Log.HomeBlock(u.log.start, |u.log.view|, b) && b < UINT_LIMIT
    ensures Step(sb, u, u') && u'.log.view == disk' && u'.ino == ino'
    ensures u'.log.ops == u.log.ops[k := u.log.ops[k] + logged]
  {
    hide Log.Inv; hide Log.Next; hide FsInv; hide Consistent; hide InMemory; hide Busy; hide Steps.FsOk;
    hide EventStep; hide ActStep;
    var t := CallIsLogWrites(u.log, k, disk', logged);
    u' := u.(log := t[|t| - 1], ino := ino');
    assert CallStep(sb, u, t, u');
  }

  /** The blocks that a write to file i, or truncating it, may log are outside the log region. */
  lemma LoggedAreHome(sb: Super, start: nat, disk: Disk, ino: Table, i: nat, off: nat, n: nat, logged: set<nat>)
    requires Layout(sb, start) && 0 < start && Owned(sb, disk, ino, {}) && |disk| == sb.size && |ino| == sb.ninodes
    requires i < |ino|
    requires logged <= BlockRange(sb.bmapstart, sb.size / BPB + 1) + Touched(disk, ino[i], off, n)
                       + {ino[i].addrs[NDIRECT] as nat, sb.Iblock(i)}
    ensures forall b :: b in logged ==> Log.HomeBlock(start, sb.size, b) && b < UINT_LIMIT
  {
    hide Slot; hide Used; hide SlotsUnique; hide Holds; hide BlockRange;
    forall k: nat | k < NSLOTS && Slot(disk, ino[i], k) != 0
      ensures sb.datastart <= Slot(disk, ino[i], k) < sb.size
    {
      assert InTable(ino, i, k);
    }
    SlotIsAddr(disk, ino[i]);
  }

  lemma SlotIsAddr(disk: Disk, ip: Inode)
    ensures Slot(disk, ip, NDIRECT) == ip.addrs[NDIRECT]
  {
  }

  lemma CallSafe(sb: Super, u: Sys, t: seq<Log.State>, u': Sys)
    requires Safe(sb, u) && CallStep(sb, u, t, u')
    ensures Safe(sb, u')
  {
    hide Log.Recovered; hide Log.Inv; hide Consistent; hide Log.Next; hide FsInv; hide Busy; hide Apart;
    Log.RunKeepsInv(t, |t| - 1);
    NothingSpare(sb, FsOf(u));
    Steps.ValidIsOk(sb, u'.log.view, u'.ino);
  }

  lemma NothingSpare(sb: Super, fs: Steps.Fs)
    requires Steps.FsOk(sb, fs) && fs.busy == {}
    ensures fs.spare == map[]
  {
    hide Owned;
    assert fs.spare.Keys == {};
  }

  // ---- commit, crash and recovery ------------------------------------------------------

  lemma ConsistentIsValid(sb: Super, disk: Disk, ino: Table)
    requires Consistent(sb, disk) && ino == Inodes(sb, disk)
    ensures FsInv(sb, disk, ino)
  {
    hide SlotsInRange; hide SlotsUnique; hide Holds; hide Used; hide GetInode; hide NoHoles;
  }

  /** Commit and erase write only the log region, install writes what the view has already. */
  lemma CommitKeepsView(s: Log.State)
    requires Log.Inv(s) && Log.Enabled(s, Log.CommitStep)
    ensures Log.SameHome(s.start, s.view, Log.CommitNext(s).view) && Steady(Log.CommitNext(s).phase)
    ensures Log.CommitNext(s).start == s.start
  {
    hide Log.EncodeHead; hide Log.DecodeHead; hide Log.Reserved;
  }

  /** The blocks outside the log are the same: so is the file system at rest. */
  lemma ValidAtHome(sb: Super, start: nat, d: Disk, e: Disk, ino: Table)
    requires Layout(sb, start) && Log.SameHome(start, d, e) && FsInv(sb, d, ino)
    ensures FsInv(sb, e, ino)
  {
    hide Consistent; hide FsInv; hide Layout; hide Log.SameHome;
    ValidIsConsistent(sb, d, ino);
    HomeDecides(sb, start, d, e);
    ConsistentIsValid(sb, e, ino);
  }

  lemma CommitSafe(sb: Super, u: Sys, u': Sys)
    requires Safe(sb, u) && EventStep(sb, u, Log.CommitStep, u')
    ensures Steps.FsOk(sb, FsOf(u'))
  {
    hide Log.Recovered; hide Consistent; hide Log.PhaseInv; hide Log.GoodHeader; hide FsInv; hide Busy; hide Apart;
    hide Log.CommitNext; hide Steps.FsOk; hide Log.SameHome;
    NobodyBusy(u.who);
    NothingSpare(sb, FsOf(u));
    Steps.IdleIsValid(sb, FsOf(u));
    CommitKeepsView(u.log);
    ValidAtHome(sb, u.log.start, u.log.view, u'.log.view, u.ino);
    Steps.ValidIsOk(sb, u'.log.view, u'.ino);
  }

  /** What recovery leaves is a valid file system. */
  lemma RecoverySafe(sb: Super, u: Sys, u': Sys)
    requires Safe(sb, u) && EventStep(sb, u, Log.RecoverStep, u') && Steady(u'.log.phase)
    ensures Steps.FsOk(sb, FsOf(u'))
  {
    hide Log.EncodeHead; hide Log.DecodeHead; hide Consistent; hide Log.Recovered; hide FsInv; hide Busy; hide Apart;
    hide Steps.FsOk; hide Inodes;
    var s := u.log;
    NobodyBusy(u.who);
    Log.NothingToReplay(s.start, s.disk, s.lh);
    HomeDecides(sb, s.start, Log.Recovered(s.start, s.disk), s.disk);
    HomeDecides(sb, s.start, s.disk, u'.log.view);
    ConsistentIsValid(sb, u'.log.view, u'.ino);
    Steps.ValidIsOk(sb, u'.log.view, u'.ino);
  }

  /** What the disk recovers to is as before, or is the view of the commit. */
  lemma DurableIsSafe(sb: Super, u: Sys, s': Log.State)
    requires Safe(sb, u) && Log.Inv(s') && Log.DurableStep(u.log, s')
    ensures Consistent(sb, Log.Recovered(s'.start, s'.disk))
  {
    hide Log.Recovered; hide Log.PhaseInv; hide Log.Reserved; hide Log.GoodHeader; hide Consistent; hide Steps.FsOk;
    hide Busy; hide Apart; hide FsInv;
    var s, d' := u.log, Log.Recovered(s'.start, s'.disk);
    if Log.SameHome(s.start, d', Log.Recovered(s.start, s.disk)) {
      SameHomeSym(s.start, d', Log.Recovered(s.start, s.disk));
      HomeDecides(sb, s.start, Log.Recovered(s.start, s.disk), d');
    } else {
      NobodyBusy(u.who);
      Steps.IdleIsValid(sb, FsOf(u));
      ValidIsConsistent(sb, s.view, u.ino);
      SameHomeSym(s.start, d', s.view);
      HomeDecides(sb, s.start, s.view, d');
    }
  }

  /** How an event changes the parts of the log that the operations see. */
  lemma EventEffect(s: Log.State, e: Log.Event)
    requires Log.Inv(s) && Log.Enabled(s, e) && !e.LogWrite?
    ensures var s' := Log.Step(s, e);
            && Log.Inv(s') && Log.DurableStep(s, s') && |s'.disk| == |s.disk|
            && |s'.ops| == (if e.BeginOp? then |s.ops| + 1 else if e.EndOp? then |s.ops| - 1
                            else if e.Crash? then 0 else |s.ops|)
            && (e.EndOp? ==> e.op < |s.ops|) && (e.BeginOp? || e.EndOp? ==> s'.view == s.view && s.phase == Log.Running)
            && (e.Crash? ==> !Steady(s'.phase)) && (e.CommitStep? ==> Steady(s.phase))
  {
    hide Log.EncodeHead; hide Log.DecodeHead; hide Log.Recovered; hide Log.Reserved; hide Log.PhaseInv;
    hide Log.GoodHeader; hide Log.DurableStep;
    Log.StepKeeps(s, e);
  }

  lemma EventSafe(sb: Super, u: Sys, e: Log.Event, u': Sys)
    requires Safe(sb, u) && EventStep(sb, u, e, u')
    ensures Safe(sb, u')
  {
    hide Log.Recovered; hide Log.Inv; hide Consistent; hide Log.Enabled; hide Log.Step; hide Steps.FsOk;
    hide Busy; hide Apart; hide Inodes; hide Log.DurableStep;
    EventEffect(u.log, e);
    DurableIsSafe(sb, u, u'.log);
    StartSame(u.log, u'.log);
    match e
    case BeginOp => BusyEvent(u.who, e);
    case EndOp(_) => BusyEvent(u.who, e);
    case CommitStep =>
      BusyEvent(u.who, e);
      CommitSafe(sb, u, u');
    case RecoverStep =>
      BusyEvent(u.who, e);
      if Steady(u'.log.phase) { RecoverySafe(sb, u, u'); }
    case Crash => assert Apart([]) by { NobodyApart(); }
  }

  lemma NobodyApart()
    ensures Apart([])
  {
  }

  lemma StartSame(s: Log.State, s': Log.State)
    requires Log.Inv(s) && Log.Inv(s') && Log.DurableStep(s, s')
    ensures s'.start == s.start
  {
  }

  /** Every step keeps the system safe. */
  lemma StepSafe(sb: Super, u: Sys, u': Sys)
    requires Safe(sb, u) && Step(sb, u, u')
    ensures Safe(sb, u')
  {
    hide Safe; hide EventStep; hide ActStep; hide CallStep;
    if e :| EventStep(sb, u, e, u') {
      EventSafe(sb, u, e, u');
    } else if k, a :| ActStep(sb, u, k, a, u') {
      ActSafe(sb, u, k, a, u');
    } else {
      var t :| CallStep(sb, u, t, u');
      CallSafe(sb, u, t, u');
    }
  }

  /** Whatever the operations do, in whatever order their steps come, through commits and
      crashes: at every point the disk recovers to a consistent file system, and whenever no
      operation is outstanding the file system in memory is valid. */
  lemma {:induction false} CallRunIsSafe(sb: Super, run: seq<Sys>, j: nat)
    requires j < |run| && Safe(sb, run[0]) && forall i :: 0 <= i < |run| - 1 ==> Step(sb, run[i], run[i + 1])
    ensures Safe(sb, run[j]) && Consistent(sb, Log.Recovered(run[j].log.start, run[j].log.disk))
    ensures run[j].log.ops == [] && Steady(run[j].log.phase) ==> FsInv(sb, run[j].log.view, run[j].ino)
  {
    hide Step; hide Log.Inv; hide Consistent; hide Log.Recovered; hide Steps.FsOk; hide Busy; hide FsInv; hide Apart;
    if j > 0 {
      CallRunIsSafe(sb, run, j - 1);
      StepSafe(sb, run[j - 1], run[j]);
    }
    if run[j].log.ops == [] && Steady(run[j].log.phase) {
      NobodyBusy(run[j].who);
      Steps.IdleIsValid(sb, FsOf(run[j]));
    }
  }

  /** A crash between any two log_writes of a call loses the whole call. */
  lemma CrashInsideCall(sb: Super, u: Sys, t: seq<Log.State>, i: nat)
    requires Safe(sb, u) && Log.IsRun(t) && t[0] == u.log && InMemory(u.log, t) && i < |t|
    ensures Log.Inv(t[i]) && Log.Step(t[i], Log.Crash) == Log.Step(u.log, Log.Crash)
    ensures Safe(sb, Sys(Log.Step(t[i], Log.Crash), u.ino, map[], []))
  {
    hide Log.Recovered; hide Log.PhaseInv; hide Log.Reserved; hide Log.GoodHeader; hide Consistent; hide Log.Next;
    hide Steps.FsOk; hide Busy; hide Apart;
    Log.RunKeepsInv(t, i);
    var u' := Sys(Log.Step(u.log, Log.Crash), u.ino, map[], []);
    assert EventStep(sb, u, Log.Crash, u');
    EventSafe(sb, u, Log.Crash, u');
  }
}
