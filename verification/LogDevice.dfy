/** kernel/log.c as it is written: fields updated in place, loops over the
    header.  Each method records, in a ghost trace, the machine state after
    every block write; Valid() keeps that trace a run of LogModel, so the
    theorems about runs hold between any two block writes of this code. */
module LogCode {
  import opened Blocks
  import opened LogModel

  class LogDevice {
    const start: nat
    var disk: Disk
    var view: Disk
    var n: nat
    const block: array<uint>
    var outstanding: nat
    var committing: bool
    ghost var ops: seq<set<nat>>
    ghost var phase: Phase
    ghost var trace: seq<State>

    ghost function Abs(): State
      reads this, block
    {
      State(start, disk, view, if n <= block.Length then block[..n] else [], ops, phase)
    }

    ghost predicate Valid()
      reads this, block
    {
      && block.Length == LOGBLOCKS && n <= LOGBLOCKS && outstanding == |ops|
      && (committing <==>
          phase.WriteLog? || phase.CommitHead? || phase.Install? || phase.EraseHead?
          || phase.Committed?)
      && IsRun(trace) && trace[|trace| - 1] == Abs() && Inv(Abs())
    }

    /** Reboot on an existing disk: the memory image is new, the disk is not. */
    constructor (start: nat, image: Disk)
      requires start + LOGBLOCKS < |image| && HeadFits(image[start])
      requires GoodHeader(start, |image|, DecodeHead(image[start]))
      ensures Valid() && fresh(block) && disk == image && phase == Booting && Initial(Abs())
      ensures this.start == start
    {
      this.start := start;
      disk, view := image, image;
      n, outstanding, committing := 0, 0, false;
      ops, phase := [], Booting;
      var numbers := new uint[LOGBLOCKS](i => 0);
      block := numbers;
      trace := [State(start, image, image, [], [], Booting)];
      new;
      assert block[..n] == [];
    }

    /** Append the current state, reached by e, to the trace. */
    ghost method Record(e: Event)
      requires block.Length == LOGBLOCKS && n <= LOGBLOCKS && outstanding == |ops|
      requires committing <==>
                 phase.WriteLog? || phase.CommitHead? || phase.Install? || phase.EraseHead?
                 || phase.Committed?
      requires IsRun(trace) && Inv(trace[|trace| - 1]) && Enabled(trace[|trace| - 1], e)
      requires Abs() == Step(trace[|trace| - 1], e)
      modifies this`trace
      ensures Valid() && trace == old(trace) + [Abs()]
      ensures DurableStep(old(trace[|trace| - 1]), Abs())
    {
      hide Sized; hide Enabled; hide Step; hide PhaseInv; hide Reserved; hide GoodHeader;
      StepKeeps(trace[|trace| - 1], e);
      assert Next(trace[|trace| - 1], Abs());
      trace := trace + [Abs()];
    }

    /** initlog has finished recovery. */
    ghost predicate Up()
      reads this
    {
      committing || phase == Running
    }

    /** One pass of begin_op's loop: false means the caller goes to sleep. */
    method BeginOp() returns (ok: bool)
      requires Valid() && Up()
      modifies this`outstanding, this`ops, this`trace
      ensures Valid() && Up()
      ensures ok <==> old(!committing && n + (outstanding + 1) * MAXOPBLOCKS <= LOGBLOCKS)
      ensures ok ==> Abs() == Step(old(Abs()), LogModel.BeginOp) && trace == old(trace) + [Abs()]
      ensures !ok ==> Abs() == old(Abs()) && trace == old(trace)
    {
      hide PhaseInv; hide DecodeHead; hide Word;
      if committing || n + (outstanding + 1) * MAXOPBLOCKS > LOGBLOCKS {
        return false;
      }
      outstanding := outstanding + 1;
      ops := ops + [{}];
      Record(LogModel.BeginOp);
      return true;
    }

    /** The absorption loop of log_write. */
    method Search(b: uint) returns (i: nat)
      requires block.Length == LOGBLOCKS && n <= LOGBLOCKS
      ensures i == IndexOf(block[..n], b)
    {
      i := 0;
      while i < n && block[i] != b
        invariant i <= n && b !in block[..i]
      {
        i := i + 1;
      }
      assert forall j :: 0 <= j < i ==> block[..n][j] == block[..i][j];
    }

    /** An operation that has not spent its budget finds room in the log. */
    lemma RoomLeft(k: nat)
      requires Valid() && k < |ops| && (|ops[k]| < MAXOPBLOCKS || n < LOGBLOCKS)
      ensures n < LOGBLOCKS
    {
      hide PhaseInv; hide DecodeHead; hide Word; hide IsRun;
      UnspentBounds(ops, k);
    }

    /** The caller, operation k, has filled the buffer of block b with data. */
    method LogWrite(ghost k: nat, b: uint, data: Block)
      requires Valid() && k < |ops| && HomeBlock(start, |view|, b)
      requires |ops[k] + {b}| <= MAXOPBLOCKS && (|ops[k]| < MAXOPBLOCKS || n < LOGBLOCKS)
      modifies this`view, this`n, this`ops, this`trace, block
      ensures Valid() && Enabled(old(Abs()), LogModel.LogWrite(k, b, data))
      ensures Abs() == Step(old(Abs()), LogModel.LogWrite(k, b, data)) && trace == old(trace) + [Abs()]
    {
      hide PhaseInv; hide DecodeHead; hide Word; hide Reserved; hide IsRun; hide Recovered; hide DurableStep;
      hide CommitNext; hide RecoverNext;
      RoomLeft(k);
      ghost var lh := block[..n];
      view := view[b := data];
      var i := Search(b);
      block[i] := b;
      if i == n {
        n := n + 1;
        assert block[..n] == lh + [b];
      } else {
        assert block[..n] == lh[i := b];
      }
      ops := ops[k := ops[k] + {b}];
      Record(LogModel.LogWrite(k, b, data));
    }

    /** bwrite of the buffer of block b, filled with x. */
    method Bwrite(b: nat, x: Block)
      requires b < |disk| && b < |view|
      modifies this`disk, this`view
      ensures disk == old(disk)[b := x] && view == old(view)[b := x]
    {
      disk, view := disk[b := x], view[b := x];
    }

    method WriteHead()
      requires block.Length == LOGBLOCKS && n <= LOGBLOCKS && start < |disk| && start < |view|
      modifies this`disk, this`view
      ensures var head := EncodeHead(old(view)[start], block[..n]);
              disk == old(disk)[start := head] && view == old(view)[start := head]
    {
      var hb := PutWord(view[start], 0, n);
      ghost var first := hb;
      var i := 0;
      while i < n
        invariant i <= n && hb == PutNumbers(first, block[..n], i)
      {
        hb := PutWord(hb, i + 1, block[i]);
        i := i + 1;
      }
      Bwrite(start, hb);
    }

    method ReadHead()
      requires Valid() && phase == Booting
      modifies this`n, this`phase, this`trace, block
      ensures Valid() && phase == Replay(0) && disk == old(disk) && |trace| > |old(trace)| && old(trace) <= trace
      ensures block[..n] == DecodeHead(disk[start])
    {
      n := Word(view[start], 0);
      var i := 0;
      while i < n
        invariant i <= n <= LOGBLOCKS && forall j :: 0 <= j < i ==> block[j] == Word(view[start], j + 1)
        modifies block
      {
        block[i] := Word(view[start], i + 1);
        i := i + 1;
      }
      assert block[..n] == DecodeHead(view[start]);
      phase := Replay(0);
      Record(RecoverStep);
    }

    /** install_trans: from the log to the home locations. */
    method InstallTrans(recovering: bool)
      requires Valid() && phase == if recovering then Replay(0) else Install(0)
      modifies this`disk, this`view, this`phase, this`trace
      ensures Valid() && phase == if recovering then ReplayErase else EraseHead
      ensures old(trace) <= trace && |disk| == |old(disk)|
      ensures !recovering ==> view == old(view)
      ensures SameHome(start, Recovered(start, disk), Recovered(start, old(disk)))
    {
      hide DecodeHead; hide Word; hide Reserved; hide Step; hide IsRun; hide Enabled; hide PhaseInv;
      hide GoodHeader; hide Recovered;
      var tail := 0;
      ghost var e := if recovering then RecoverStep else CommitStep;
      assert n <= block.Length;
      while tail < n
        invariant Valid() && tail <= n && phase == if recovering then Replay(tail) else Install(tail)
        invariant old(trace) <= trace && |disk| == |old(disk)|
        invariant !recovering ==> view == old(view)
        invariant SameHome(start, Recovered(start, disk), Recovered(start, old(disk)))
        modifies this`disk, this`view, this`phase, this`trace
      {
        ghost var home := Recovered(start, disk);
        InstallNext(recovering, tail);
        SameHomeTwice(start, Recovered(start, disk), home, Recovered(start, old(disk)));
        tail := tail + 1;
      }
      InstallDone(Abs());
      phase := if recovering then ReplayErase else EraseHead;
      Record(e);
    }

    /** One iteration of install_trans. */
    method InstallNext(recovering: bool, tail: nat)
      requires Valid() && tail < n && phase == if recovering then Replay(tail) else Install(tail)
      modifies this`disk, this`view, this`phase, this`trace
      ensures Valid() && phase == if recovering then Replay(tail + 1) else Install(tail + 1)
      ensures trace == old(trace) + [Abs()] && |disk| == |old(disk)| && (!recovering ==> view == old(view))
      ensures SameHome(start, Recovered(start, disk), Recovered(start, old(disk)))
    {
      hide DecodeHead; hide Word; hide Reserved; hide Step; hide IsRun; hide Enabled; hide PhaseInv;
      hide GoodHeader; hide Recovered;
      ghost var s := Abs();
      assert s.lh[tail] == block[tail];
      Bwrite(block[tail], view[start + 1 + tail]);
      phase := if recovering then Replay(tail + 1) else Install(tail + 1);
      InstallStep(s, Abs());
      Record(if recovering then RecoverStep else CommitStep);
    }

    lemma SameHomeTwice(start: nat, a: Disk, b: Disk, c: Disk)
      requires SameHome(start, a, b) && SameHome(start, b, c)
      ensures SameHome(start, a, c)
    {
    }

    lemma InstallStep(s: State, s': State)
      requires Inv(s) && (s.phase.Replay? || s.phase.Install?) && s.phase.tail < |s.lh|
      requires s'.start == s.start && s'.lh == s.lh && s'.ops == s.ops
      requires s'.phase == if s.phase.Replay? then Replay(s.phase.tail + 1) else Install(s.phase.tail + 1)
      requires s'.disk == s.disk[s.lh[s.phase.tail] := s.view[s.start + 1 + s.phase.tail]]
      requires s'.view == s.view[s.lh[s.phase.tail] := s.view[s.start + 1 + s.phase.tail]]
      ensures var e := if s.phase.Replay? then RecoverStep else CommitStep; Enabled(s, e) && s' == Step(s, e)
      ensures s.phase.Install? ==> s'.view == s.view
    {
    }

    lemma InstallDone(s: State)
      requires Sized(s) && (s.phase.Replay? || s.phase.Install?) && s.phase.tail == |s.lh|
      ensures var e := if s.phase.Replay? then RecoverStep else CommitStep;
              Enabled(s, e) && Step(s, e) == s.(phase := if s.phase.Replay? then ReplayErase else EraseHead)
    {
    }

    /** write_log: from the cache to the log. */
    method WriteLogBlocks()
      requires Valid() && phase == WriteLog(0)
      modifies this`disk, this`view, this`phase, this`trace
      ensures Valid() && phase == CommitHead && |trace| > |old(trace)| && old(trace) <= trace
      ensures SameHome(start, view, old(view))
    {
      hide DecodeHead; hide Word; hide Reserved; hide IsRun; hide EncodeHead; hide PhaseInv; hide GoodHeader;
      hide Recovered; hide DurableStep; hide RecoverNext;
      var tail := 0;
      assert n <= block.Length;
      while tail < n
        invariant Valid() && tail <= n && phase == WriteLog(tail) && old(trace) <= trace
        invariant SameHome(start, view, old(view))
        modifies this`disk, this`view, this`phase, this`trace
      {
        assert Abs().lh[tail] == block[tail];
        Bwrite(start + 1 + tail, view[block[tail]]);
        tail := tail + 1;
        phase := WriteLog(tail);
        Record(CommitStep);
      }
      phase := CommitHead;
      Record(CommitStep);
    }

    /** The two header writes of a commit and the one of a recovery are steps of the machine. */
    lemma HeadStep(s: State, s': State)
      requires Inv(s) && (s.phase.CommitHead? || s.phase.EraseHead? || s.phase.ReplayErase?)
      requires s'.lh == if s.phase.CommitHead? then s.lh else []
      requires s'.start == s.start && s'.ops == s.ops
      requires s'.phase == if s.phase.CommitHead? then Install(0) else if s.phase.EraseHead? then Committed else Running
      requires s'.disk == s.disk[s.start := EncodeHead(s.view[s.start], s'.lh)]
      requires s'.view == s.view[s.start := EncodeHead(s.view[s.start], s'.lh)]
      ensures var e := if s.phase.ReplayErase? then RecoverStep else CommitStep; Enabled(s, e) && s' == Step(s, e)
    {
    }

    lemma Clean(s: State)
      requires Inv(s) && (s.phase == Committed || s.phase == Running) && s.lh == []
      ensures s.disk == s.view
      ensures SameHome(s.start, Recovered(s.start, s.disk), s.disk)
    {
    }

    /** The header write that commits. */
    method WriteCommitHead()
      requires Valid() && phase == CommitHead
      modifies this`disk, this`view, this`phase, this`trace
      ensures Valid() && phase == Install(0) && old(trace) <= trace && SameHome(start, view, old(view))
    {
      hide DecodeHead; hide Word; hide Reserved; hide Step; hide IsRun; hide Enabled; hide PhaseInv;
      hide GoodHeader; hide EncodeHead; hide Recovered; hide DurableStep;
      ghost var s := Abs();
      WriteHead();
      phase := Install(0);
      HeadStep(s, Abs());
      Record(CommitStep);
    }

    /** The header write that empties the log. */
    method EraseHeader()
      requires Valid() && phase == EraseHead
      modifies this`disk, this`view, this`n, this`phase, this`trace
      ensures Valid() && phase == Committed && n == 0 && old(trace) <= trace && SameHome(start, view, old(view))
      ensures disk == view
    {
      hide DecodeHead; hide Word; hide Reserved; hide Step; hide IsRun; hide Enabled; hide PhaseInv;
      hide GoodHeader; hide EncodeHead; hide Recovered; hide DurableStep;
      ghost var s := Abs();
      n := 0;
      assert block[..n] == [];
      WriteHead();
      phase := Committed;
      HeadStep(s, Abs());
      Record(CommitStep);
      Clean(Abs());
    }

    method Commit()
      requires Valid() && phase == if n > 0 then WriteLog(0) else Committed
      modifies this`disk, this`view, this`n, this`phase, this`trace
      ensures Valid() && phase == Committed && n == 0 && old(trace) <= trace
      ensures disk == view && SameHome(start, view, old(view))
    {
      hide Inv; hide IsRun; hide Recovered; hide HomeBlock;
      if n > 0 {
        WriteLogBlocks();
        WriteCommitHead();
        InstallTrans(false);
        EraseHeader();
      } else {
        assert Inv(Abs()) && Abs().lh == [];
        Clean(Abs());
      }
    }

    /** Leave the set of outstanding operations; the last one starts the commit. */
    method Leave(ghost k: nat)
      requires Valid() && k < |ops|
      modifies this`outstanding, this`committing, this`ops, this`phase, this`trace
      ensures Valid() && old(trace) <= trace && ops == old(ops[..k] + ops[k + 1..])
      ensures phase == if ops != [] then Running else if n == 0 then Committed else WriteLog(0)
    {
      hide DecodeHead; hide Word; hide IsRun; hide PhaseInv; hide GoodHeader; hide Unspent; hide Recovered;
      hide CommitNext; hide RecoverNext; hide DurableStep;
      outstanding := outstanding - 1;
      ops := ops[..k] + ops[k + 1..];
      if outstanding == 0 {
        committing := true;
        phase := if n == 0 then Committed else WriteLog(0);
      }
      Record(LogModel.EndOp(k));
    }

    /** The last end_op commits the whole group before it returns. */
    method EndOp(ghost k: nat)
      requires Valid() && k < |ops|
      modifies this`disk, this`view, this`n, this`outstanding, this`committing, this`ops, this`phase, this`trace
      ensures Valid() && Up() && old(trace) <= trace && SameHome(start, view, old(view))
      ensures ops == old(ops[..k] + ops[k + 1..])
      ensures |ops| > 0 ==> disk == old(disk) && n == old(n)
      ensures ops == [] ==> n == 0 && disk == view
    {
      hide Inv; hide IsRun; hide HomeBlock;
      Leave(k);
      if committing {
        Commit();
        Release();
      }
    }

    method Release()
      requires Valid() && phase == Committed && n == 0 && disk == view
      modifies this`committing, this`phase, this`trace
      ensures Valid() && phase == Running && old(trace) <= trace
    {
      hide DecodeHead; hide Word; hide Reserved; hide IsRun; hide PhaseInv; hide GoodHeader; hide Recovered;
      committing := false;
      phase := Running;
      Record(CommitStep);
    }

    method RecoverFromLog()
      requires Valid() && phase == Booting
      modifies this`disk, this`view, this`n, this`phase, this`trace, block
      ensures Valid() && phase == Running && n == 0 && disk == view && old(trace) <= trace
      ensures SameHome(start, disk, Recovered(start, old(disk)))
    {
      hide DecodeHead; hide Word; hide Reserved; hide Step; hide IsRun; hide Enabled; hide PhaseInv;
      hide GoodHeader; hide EncodeHead; hide Recovered;
      ReadHead();
      InstallTrans(true);
      ghost var s := Abs();
      n := 0;
      assert block[..n] == [];
      WriteHead();
      phase := Running;
      HeadStep(s, Abs());
      Record(RecoverStep);
      Clean(Abs());
    }
  }
}
