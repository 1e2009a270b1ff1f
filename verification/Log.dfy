/** The redo log of kernel/log.c: group commit, crash recovery, and the space
    reservation made by begin_op.

    A disk is a sequence of blocks and one block write is atomic.  `disk` is
    what survives a crash; `view` is what bread returns, that is, the disk
    overlaid with the pinned buffers that log_write has recorded.  Every event
    of the machine below makes at most one block write, so a crash between any
    two events is a crash between any two block writes. */
module LogModel {
  import opened Blocks

  const MAXOPBLOCKS := 10
  const LOGBLOCKS := 30

  type Disk = seq<Block>

  // ---- the on-disk header -----------------------------------------------

  /** write_head: store n and the first n block numbers, leave the rest. */
  function EncodeHead(was: Block, lh: seq<uint>): Block
    requires |lh| <= LOGBLOCKS
  {
    PutNumbers(PutWord(was, 0, |lh|), lh, |lh|)
  }

  function PutNumbers(b: Block, lh: seq<uint>, k: nat): Block
    requires k <= |lh| <= LOGBLOCKS
  {
    if k == 0 then b else PutWord(PutNumbers(b, lh, k - 1), k, lh[k - 1])
  }

  ghost predicate HeadFits(b: Block) {
    Word(b, 0) <= LOGBLOCKS
  }

  /** read_head. */
  function DecodeHead(b: Block): seq<uint>
    requires HeadFits(b)
  {
    seq(Word(b, 0), i requires 0 <= i < Word(b, 0) => Word(b, i + 1))
  }

  lemma {:induction false} PutNumbersWord(b: Block, lh: seq<uint>, k: nat, j: nat)
    requires k <= |lh| <= LOGBLOCKS && j < WORDS
    ensures Word(PutNumbers(b, lh, k), j) == if 1 <= j <= k then lh[j - 1] else Word(b, j)
  {
    if k > 0 {
      PutNumbersWord(b, lh, k - 1, j);
      WordOfPutWord(PutNumbers(b, lh, k - 1), k, lh[k - 1], j);
    }
  }

  /** What write_head stores, read_head reads back, whatever the block held: the number of
      blocks in the first word, then the block numbers. */
  lemma HeadRoundTrip(was: Block, lh: seq<uint>)
    requires |lh| <= LOGBLOCKS
    ensures HeadFits(EncodeHead(was, lh)) && DecodeHead(EncodeHead(was, lh)) == lh
    ensures forall j: nat :: j <= |lh| ==> Word(EncodeHead(was, lh), j) == if j == 0 then |lh| else lh[j - 1]
  {
    var first := PutWord(was, 0, |lh|);
    forall j: nat | j <= |lh|
      ensures Word(EncodeHead(was, lh), j) == if j == 0 then |lh| else lh[j - 1]
    {
      PutNumbersWord(first, lh, |lh|, j);
      WordOfPutWord(was, 0, |lh|, j);
    }
  }

  // ---- the machine ------------------------------------------------------

  datatype Phase =
    | Running             // no commit in progress
    | WriteLog(tail: nat) // write_log is about to copy block `tail`
    | CommitHead          // about to write the header: the commit point
    | Install(tail: nat)  // install_trans(0)
    | EraseHead           // about to write the empty header
    | Committed           // commit() returned, `committing` not yet cleared
    | Booting             // after a crash, before read_head
    | Replay(tail: nat)   // install_trans(1)
    | ReplayErase         // recovery is about to write the empty header

  /** `ops` has one entry per outstanding operation: the set of blocks that
      operation has logged.  So log.outstanding is |ops| and the unspent budget
      of operation k is MAXOPBLOCKS - |ops[k]|. */
  datatype State = State(start: nat, disk: Disk, view: Disk, lh: seq<uint>,
                         ops: seq<set<nat>>, phase: Phase)
  {
    predicate Committing() {
      phase != Running
    }
  }

  datatype Event =
    | BeginOp
    | LogWrite(op: nat, blockno: uint, data: Block)
    | EndOp(op: nat)
    | CommitStep
    | Crash
    | RecoverStep

  predicate HomeBlock(start: nat, size: nat, b: nat) {
    b < size && !(start <= b <= start + LOGBLOCKS)
  }

  /** The search loop of log_write: the first index holding b, or |lh|. */
  function IndexOf(lh: seq<uint>, b: nat): (i: nat)
    ensures i <= |lh|
    ensures i < |lh| ==> lh[i] == b
    ensures forall j :: 0 <= j < i ==> lh[j] != b
  {
    if lh == [] then 0 else if lh[0] == b then 0 else 1 + IndexOf(lh[1..], b)
  }

  predicate LogWritePanics(s: State) {
    |s.lh| >= LOGBLOCKS || |s.ops| < 1
  }

  /** When an event can happen.  BeginOp waits (sleeps) unless the log has room
      for one more full operation; an operation logs home blocks, at most
      MAXOPBLOCKS different ones. */
  ghost predicate Enabled(s: State, e: Event) {
    match e
    case BeginOp => s.phase == Running && |s.lh| + (|s.ops| + 1) * MAXOPBLOCKS <= LOGBLOCKS
    case LogWrite(k, b, data) =>
      && k < |s.ops| && HomeBlock(s.start, |s.view|, b)
      && |s.ops[k] + {b}| <= MAXOPBLOCKS && !LogWritePanics(s)
    case EndOp(k) => k < |s.ops| && s.phase == Running
    case CommitStep => s.phase.WriteLog? || s.phase.CommitHead? || s.phase.Install? || s.phase.EraseHead?
        || s.phase.Committed?
    case Crash => true
    case RecoverStep => s.phase.Booting? || s.phase.Replay? || s.phase.ReplayErase?
  }

  ghost predicate Sized(s: State) {
    && |s.disk| == |s.view| && s.start + LOGBLOCKS < |s.disk|
    && |s.lh| <= LOGBLOCKS
    && (forall i :: 0 <= i < |s.lh| ==> HomeBlock(s.start, |s.disk|, s.lh[i]))
    && HeadFits(s.disk[s.start]) && HeadFits(s.view[s.start])
  }

  /** One bwrite: block b of the disk takes the value x, and so does the cached copy. */
  function Bwrite(s: State, b: nat, x: Block): (r: State)
    requires b < |s.disk| && b < |s.view|
  {
    s.(disk := s.disk[b := x], view := s.view[b := x])
  }

  ghost function Step(s: State, e: Event): State
    requires Sized(s) && Enabled(s, e)
  {
    match e
    case BeginOp => s.(ops := s.ops + [{}])
    case LogWrite(k, b, data) =>
      var i := IndexOf(s.lh, b);
      s.(view := s.view[b := data],
         lh := if i == |s.lh| then s.lh + [b] else s.lh[i := b],
         ops := s.ops[k := s.ops[k] + {b}])
    case EndOp(k) =>
      var ops := s.ops[..k] + s.ops[k + 1..];
      s.(ops := ops,
         phase := if ops != [] then Running else if s.lh == [] then Committed else WriteLog(0))
    case CommitStep => CommitNext(s)
    case Crash => s.(view := s.disk, lh := [], ops := [], phase := Booting)
    case RecoverStep => RecoverNext(s)
  }

  ghost function CommitNext(s: State): State
    requires Sized(s) && Enabled(s, CommitStep)
  {
    match s.phase
    case WriteLog(t) =>
      if t < |s.lh| then Bwrite(s, s.start + 1 + t, s.view[s.lh[t]]).(phase := WriteLog(t + 1))
      else s.(phase := CommitHead)
    case CommitHead => Bwrite(s, s.start, EncodeHead(s.view[s.start], s.lh)).(phase := Install(0))
    case Install(t) =>
      if t < |s.lh| then Bwrite(s, s.lh[t], s.view[s.start + 1 + t]).(phase := Install(t + 1))
      else s.(phase := EraseHead)
    case EraseHead => Bwrite(s, s.start, EncodeHead(s.view[s.start], [])).(lh := [], phase := Committed)
    case Committed => s.(phase := Running)
  }

  ghost function RecoverNext(s: State): State
    requires Sized(s) && Enabled(s, RecoverStep)
  {
    match s.phase
    case Booting => s.(lh := DecodeHead(s.view[s.start]), phase := Replay(0))
    case Replay(t) =>
      if t < |s.lh| then Bwrite(s, s.lh[t], s.view[s.start + 1 + t]).(phase := Replay(t + 1))
      else s.(phase := ReplayErase)
    case ReplayErase => Bwrite(s, s.start, EncodeHead(s.view[s.start], [])).(lh := [], phase := Running)
  }

  // ---- what a disk recovers to ------------------------------------------

  /** The contents a complete, uninterrupted recovery of this disk would give. */
  ghost function Recovered(start: nat, disk: Disk): Disk
    requires start + LOGBLOCKS < |disk| && HeadFits(disk[start])
  {
    var lh := DecodeHead(disk[start]);
    seq(|disk|, b requires 0 <= b < |disk| =>
      var i := IndexOf(lh, b); if i < |lh| then disk[start + 1 + i] else disk[b])
  }

  ghost predicate SameHome(start: nat, d: Disk, e: Disk) {
    |d| == |e| && forall b: nat :: HomeBlock(start, |d|, b) ==> d[b] == e[b]
  }

  // ---- invariant --------------------------------------------------------

  ghost predicate Distinct(lh: seq<uint>) {
    forall i, j :: 0 <= i < j < |lh| ==> lh[i] != lh[j]
  }

  ghost predicate GoodHeader(start: nat, size: nat, lh: seq<uint>) {
    && |lh| <= LOGBLOCKS && Distinct(lh)
    && forall i :: 0 <= i < |lh| ==> HomeBlock(start, size, lh[i])
  }

  /** Everything is on disk except the logged blocks. */
  ghost predicate OnlyLoggedDiffer(s: State) {
    |s.view| == |s.disk| && forall b :: 0 <= b < |s.disk| && b !in s.lh ==> s.view[b] == s.disk[b]
  }

  /** The first t log slots hold the current contents of the logged blocks. */
  ghost predicate Copied(s: State, t: nat)
    requires Sized(s) && t <= |s.lh|
  {
    forall i :: 0 <= i < t ==> s.disk[s.start + 1 + i] == s.view[s.lh[i]]
  }

  ghost predicate Installed(s: State, t: nat)
    requires Sized(s) && t <= |s.lh|
  {
    forall i :: 0 <= i < t ==> s.disk[s.lh[i]] == s.view[s.lh[i]]
  }

  ghost predicate PhaseInv(s: State)
    requires Sized(s)
  {
    var head := DecodeHead(s.disk[s.start]);
    match s.phase
    case Running => head == [] && OnlyLoggedDiffer(s)
    case WriteLog(t) => head == [] && OnlyLoggedDiffer(s) && t <= |s.lh| && Copied(s, t)
    case CommitHead => head == [] && OnlyLoggedDiffer(s) && Copied(s, |s.lh|)
    case Install(t) => head == s.lh && OnlyLoggedDiffer(s) && Copied(s, |s.lh|) && t <= |s.lh| && Installed(s, t)
    case EraseHead => head == s.lh && OnlyLoggedDiffer(s) && Copied(s, |s.lh|) && Installed(s, |s.lh|)
    case Committed => head == [] && s.lh == [] && s.view == s.disk
    case Booting => s.lh == [] && s.view == s.disk
    case Replay(t) => head == s.lh && s.view == s.disk && t <= |s.lh| && Copied(s, t)
    case ReplayErase => head == s.lh && s.view == s.disk && Copied(s, |s.lh|)
  }

  /** log.lh.n plus every outstanding operation's unspent budget. */
  function Unspent(ops: seq<set<nat>>): int {
    if ops == [] then 0 else MAXOPBLOCKS - |ops[0]| + Unspent(ops[1..])
  }

  ghost predicate Reserved(s: State) {
    && |s.lh| + Unspent(s.ops) <= LOGBLOCKS
    && (forall k :: 0 <= k < |s.ops| ==> |s.ops[k]| <= MAXOPBLOCKS)
    && (forall k, b :: 0 <= k < |s.ops| && b in s.ops[k] ==> b in s.lh)
    && (s.Committing() ==> s.ops == [])
  }

  ghost predicate Inv(s: State) {
    && Sized(s)
    && GoodHeader(s.start, |s.disk|, s.lh)
    && GoodHeader(s.start, |s.disk|, DecodeHead(s.disk[s.start]))
    && PhaseInv(s)
    && Reserved(s)
  }

  ghost predicate Next(s: State, s': State) {
    Sized(s) && exists e :: Enabled(s, e) && s' == Step(s, e)
  }

  ghost predicate IsRun(t: seq<State>) {
    |t| > 0 && forall i :: 0 <= i < |t| - 1 ==> Next(t[i], t[i + 1])
  }

  // ---- budgets ----------------------------------------------------------

  lemma {:induction false} UnspentUpdate(ops: seq<set<nat>>, k: nat, x: set<nat>)
    requires k < |ops|
    ensures Unspent(ops[k := x]) == Unspent(ops) + |ops[k]| - |x|
  {
    if k == 0 {
      assert ops[k := x][1..] == ops[1..];
    } else {
      assert ops[k := x][1..] == ops[1..][k - 1 := x];
      UnspentUpdate(ops[1..], k - 1, x);
    }
  }

  lemma {:induction false} UnspentInsert(ops: seq<set<nat>>, k: nat, x: set<nat>)
    requires k <= |ops|
    ensures Unspent(ops[..k] + [x] + ops[k..]) == Unspent(ops) + MAXOPBLOCKS - |x|
  {
    var more := ops[..k] + [x] + ops[k..];
    if k == 0 {
      assert more[1..] == ops;
    } else {
      assert more[1..] == ops[1..][..k - 1] + [x] + ops[1..][k - 1..];
      UnspentInsert(ops[1..], k - 1, x);
    }
  }

  lemma {:induction false} UnspentBounds(ops: seq<set<nat>>, k: nat)
    requires forall j :: 0 <= j < |ops| ==> |ops[j]| <= MAXOPBLOCKS
    ensures 0 <= Unspent(ops) <= MAXOPBLOCKS * |ops|
    ensures k < |ops| ==> MAXOPBLOCKS - |ops[k]| <= Unspent(ops)
  {
    if ops != [] {
      UnspentBounds(ops[1..], if k == 0 then 0 else k - 1);
    }
  }

  // ---- every event keeps the invariant and the durable contents ----------

  /** Either the disk still recovers to the same contents, or this was the
      commit point, no operation was in progress, and the disk now recovers to
      the view. */
  ghost predicate DurableStep(s: State, s': State)
    requires Sized(s) && Sized(s')
  {
    && s.start == s'.start
    && (SameHome(s.start, Recovered(s'.start, s'.disk), Recovered(s.start, s.disk))
        || (s.phase == CommitHead && s.ops == [] && SameHome(s.start, Recovered(s'.start, s'.disk), s.view)))
  }

  lemma LogWriteKeeps(s: State, k: nat, b: uint, data: Block)
    requires Inv(s) && Enabled(s, LogWrite(k, b, data))
    ensures Inv(Step(s, LogWrite(k, b, data))) && DurableStep(s, Step(s, LogWrite(k, b, data)))
  {
    hide Word; hide PutWord; hide DecodeHead; hide Recovered; hide IndexOf; hide Unspent;
    var s' := Step(s, LogWrite(k, b, data));
    var i := IndexOf(s.lh, b);
    UnspentUpdate(s.ops, k, s.ops[k] + {b});
    assert b in s.ops[k] ==> s.ops[k] + {b} == s.ops[k];
    assert i < |s.lh| ==> s'.lh == s.lh;
    assert s'.lh[i] == b;
    assert forall j :: 0 <= j < |s.lh| ==> s'.lh[j] == s.lh[j];
    assert |s'.lh| + Unspent(s'.ops) <= LOGBLOCKS by {
      if i == |s.lh| {
        assert b !in s.lh;
        assert b !in s.ops[k];
      } else {
        assert b in s.lh;
      }
    }
    assert s.lh <= s'.lh;
    forall c | c in s.lh ensures c in s'.lh { var j :| 0 <= j < |s.lh| && s.lh[j] == c; assert s'.lh[j] == c; }
    assert b in s'.lh;
  }

  lemma BeginOpKeeps(s: State)
    requires Inv(s) && Enabled(s, BeginOp)
    ensures Inv(Step(s, BeginOp)) && DurableStep(s, Step(s, BeginOp))
  {
    hide Word; hide DecodeHead; hide Recovered; hide Unspent; hide GoodHeader;
    UnspentInsert(s.ops, |s.ops|, {});
    assert s.ops[..|s.ops|] + [{}] + s.ops[|s.ops|..] == s.ops + [{}];
    UnspentBounds(s.ops, 0);
  }

  lemma EndOpReserved(s: State, k: nat)
    requires Reserved(s) && s.phase == Running && k < |s.ops|
    ensures var ops := s.ops[..k] + s.ops[k + 1..];
            Reserved(s.(ops := ops)) && (ops == [] ==> forall p :: Reserved(s.(ops := ops, phase := p)))
  {
    hide Unspent;
    var ops := s.ops[..k] + s.ops[k + 1..];
    UnspentInsert(ops, k, s.ops[k]);
    assert ops[..k] + [s.ops[k]] + ops[k..] == s.ops;
    forall m | 0 <= m < |ops| ensures ops[m] == s.ops[if m < k then m else m + 1] { }
  }

  lemma EndOpKeeps(s: State, k: nat)
    requires Inv(s) && Enabled(s, EndOp(k))
    ensures Inv(Step(s, EndOp(k))) && DurableStep(s, Step(s, EndOp(k)))
  {
    hide Word; hide DecodeHead; hide Recovered; hide Reserved; hide GoodHeader;
    EndOpReserved(s, k);
  }

  lemma RecoveredAt(start: nat, disk: Disk, lh: seq<uint>)
    requires start + LOGBLOCKS < |disk| && HeadFits(disk[start])
    requires DecodeHead(disk[start]) == lh && Distinct(lh)
    ensures |Recovered(start, disk)| == |disk|
    ensures forall i :: 0 <= i < |lh| && lh[i] < |disk| ==> Recovered(start, disk)[lh[i]] == disk[start + 1 + i]
    ensures forall b :: 0 <= b < |disk| && b !in lh ==> Recovered(start, disk)[b] == disk[b]
  {
  }

  /** A log whose blocks are all in place recovers to the disk itself; so does an empty one. */
  lemma NothingToReplay(start: nat, disk: Disk, lh: seq<uint>)
    requires start + LOGBLOCKS < |disk| && HeadFits(disk[start])
    requires DecodeHead(disk[start]) == lh && GoodHeader(start, |disk|, lh)
    requires forall i :: 0 <= i < |lh| ==> disk[lh[i]] == disk[start + 1 + i]
    ensures SameHome(start, Recovered(start, disk), disk)
  {
  }

  /** Copying one log block to its home location does not change what the disk recovers to. */
  lemma InstallOne(start: nat, disk: Disk, lh: seq<uint>, t: nat)
    requires start + LOGBLOCKS < |disk| && HeadFits(disk[start])
    requires DecodeHead(disk[start]) == lh && GoodHeader(start, |disk|, lh)
    requires t < |lh|
    ensures SameHome(start, Recovered(start, disk[lh[t] := disk[start + 1 + t]]), Recovered(start, disk))
  {
  }

  /** Writing a log slot while the header on disk is empty changes nothing durable. */
  lemma WriteLogKeeps(s: State)
    requires Inv(s) && s.phase.WriteLog?
    ensures Inv(CommitNext(s)) && DurableStep(s, CommitNext(s))
  {
    hide Word; hide PutWord; hide EncodeHead; hide DecodeHead; hide Recovered;
    var s' := CommitNext(s);
    assert s'.disk[s.start] == s.disk[s.start];
    NothingToReplay(s.start, s.disk, []);
    NothingToReplay(s.start, s'.disk, []);
  }

  /** The single header write moves the durable contents from disk to view. */
  lemma CommitHeadCommits(s: State)
    requires Inv(s) && s.phase.CommitHead?
    ensures Inv(CommitNext(s))
    ensures SameHome(s.start, Recovered(s.start, s.disk), s.disk)
    ensures SameHome(s.start, Recovered(s.start, CommitNext(s).disk), s.view)
  {
    hide Word; hide PutWord; hide EncodeHead; hide DecodeHead; hide Recovered;
    var s' := CommitNext(s);
    HeadRoundTrip(s.view[s.start], s.lh);
    NothingToReplay(s.start, s.disk, []);
    LoggedRecover(s, s'.disk);
  }

  lemma LoggedRecover(s: State, disk: Disk)
    requires Sized(s) && GoodHeader(s.start, |s.disk|, s.lh) && OnlyLoggedDiffer(s) && Copied(s, |s.lh|)
    requires |disk| == |s.disk| && HeadFits(disk[s.start]) && DecodeHead(disk[s.start]) == s.lh
    requires forall b :: 0 <= b < |disk| && b != s.start ==> disk[b] == s.disk[b]
    ensures SameHome(s.start, Recovered(s.start, disk), s.view)
  {
    hide Word; hide DecodeHead; hide Recovered;
    RecoveredAt(s.start, disk, s.lh);
    forall b: nat | HomeBlock(s.start, |disk|, b)
      ensures Recovered(s.start, disk)[b] == s.view[b]
    {
      if b in s.lh {
        var i :| 0 <= i < |s.lh| && s.lh[i] == b;
        assert Recovered(s.start, disk)[s.lh[i]] == disk[s.start + 1 + i];
      }
    }
  }

  lemma InstallKeeps(s: State)
    requires Inv(s) && s.phase.Install?
    ensures Inv(CommitNext(s)) && DurableStep(s, CommitNext(s))
  {
    hide Word; hide PutWord; hide EncodeHead; hide DecodeHead; hide Recovered;
    var s' := CommitNext(s);
    var t := s.phase.tail;
    if t < |s.lh| {
      var slot := s.start + 1 + t;
      assert s.view[slot] == s.disk[slot] by { assert slot !in s.lh; }
      assert s'.view == s.view by { assert s.disk[slot] == s.view[s.lh[t]]; }
      InstallOne(s.start, s.disk, s.lh, t);
    }
  }

  lemma EraseHeadKeeps(s: State)
    requires Inv(s) && s.phase.EraseHead?
    ensures Inv(CommitNext(s)) && DurableStep(s, CommitNext(s))
  {
    hide Word; hide PutWord; hide EncodeHead; hide DecodeHead; hide Recovered;
    HeadRoundTrip(s.view[s.start], []);
    NothingToReplay(s.start, s.disk, s.lh);
    NothingToReplay(s.start, CommitNext(s).disk, []);
  }

  lemma ReplayKeeps(s: State)
    requires Inv(s) && s.phase.Replay?
    ensures Inv(RecoverNext(s)) && DurableStep(s, RecoverNext(s))
  {
    hide Word; hide PutWord; hide EncodeHead; hide DecodeHead; hide Recovered;
    if s.phase.tail < |s.lh| {
      InstallOne(s.start, s.disk, s.lh, s.phase.tail);
    }
  }

  lemma ReplayEraseKeeps(s: State)
    requires Inv(s) && s.phase.ReplayErase?
    ensures Inv(RecoverNext(s)) && DurableStep(s, RecoverNext(s))
  {
  }

  lemma StepKeeps(s: State, e: Event)
    requires Inv(s) && Enabled(s, e)
    ensures Inv(Step(s, e)) && DurableStep(s, Step(s, e))
  {
    hide Word; hide PutWord; hide EncodeHead; hide DecodeHead; hide Recovered; hide IndexOf;
    match e
    case BeginOp => BeginOpKeeps(s);
    case LogWrite(k, b, data) => LogWriteKeeps(s, k, b, data);
    case EndOp(k) => EndOpKeeps(s, k);
    case CommitStep =>
      match s.phase {
        case WriteLog(_) => WriteLogKeeps(s);
        case CommitHead => CommitHeadCommits(s);
        case Install(_) => InstallKeeps(s);
        case EraseHead => EraseHeadKeeps(s);
        case Committed =>
      }
    case Crash =>
    case RecoverStep =>
      match s.phase {
        case Booting =>
        case Replay(_) => ReplayKeeps(s);
        case ReplayErase => ReplayEraseKeeps(s);
      }
  }

  // ---- whole runs ---------------------------------------------------------

  ghost predicate Initial(s: State) {
    && Sized(s) && s.phase == Booting && s.lh == [] && s.ops == [] && s.view == s.disk
    && GoodHeader(s.start, |s.disk|, DecodeHead(s.disk[s.start]))
  }

  lemma {:induction false} RunKeepsInv(t: seq<State>, j: nat)
    requires IsRun(t) && j < |t| && Inv(t[0])
    ensures Inv(t[j]) && t[j].start == t[0].start && |t[j].disk| == |t[0].disk|
    ensures j > 0 ==> DurableStep(t[j - 1], t[j])
  {
    hide Inv; hide Sized; hide DurableStep; hide Step; hide Enabled;
    if j > 0 {
      RunKeepsInv(t, j - 1);
      assert Next(t[j - 1], t[j]);
      NextKeeps(t[j - 1], t[j]);
    }
  }

  lemma NextKeeps(s: State, s': State)
    requires Inv(s) && Next(s, s')
    ensures Inv(s') && DurableStep(s, s') && s'.start == s.start && |s'.disk| == |s.disk|
    ensures s.phase == CommitHead && s'.phase != Booting ==> SameHome(s.start, Recovered(s.start, s'.disk), s.view)
    ensures s.phase != CommitHead || s'.phase == Booting
            ==> SameHome(s.start, Recovered(s.start, s'.disk), Recovered(s.start, s.disk))
  {
    hide Word; hide PutWord; hide EncodeHead; hide DecodeHead; hide Recovered; hide IndexOf;
    var e :| Enabled(s, e) && s' == Step(s, e);
    StepKeeps(s, e);
    if s.phase == CommitHead && s'.phase != Booting {
      assert e == CommitStep;
      CommitHeadCommits(s);
    }
  }

  /** The ideal disk: contents that change only when a commit point replaces
      them, in one step, by the whole view. */
  ghost function IdealDisk(t: seq<State>, j: nat): Disk
    requires IsRun(t) && j < |t| && Inv(t[0])
  {
    if j == 0 then Recovered(t[0].start, t[0].disk)
    else if t[j - 1].phase == CommitHead && t[j].phase != Booting then t[j - 1].view
    else IdealDisk(t, j - 1)
  }

  /** Refinement: at every point of every run, with any number of crashes
      anywhere, including inside recovery, the disk recovers to the ideal disk. */
  lemma {:induction false} RecoversToIdeal(t: seq<State>, j: nat)
    requires IsRun(t) && j < |t| && Inv(t[0])
    ensures Inv(t[j]) && t[j].start == t[0].start
    ensures SameHome(t[0].start, Recovered(t[j].start, t[j].disk), IdealDisk(t, j))
  {
    hide Inv; hide Recovered; hide Step; hide Enabled; hide DurableStep;
    RunKeepsInv(t, j);
    if j > 0 {
      RunKeepsInv(t, j - 1);
      RecoversToIdeal(t, j - 1);
      assert Next(t[j - 1], t[j]);
      NextKeeps(t[j - 1], t[j]);
    }
  }

  /** Whenever the log is idle the disk holds the ideal contents, outside the
      blocks of operations still in progress; right after a recovery or a
      commit, everywhere. */
  lemma IdleDiskIsIdeal(t: seq<State>, j: nat)
    requires IsRun(t) && j < |t| && Inv(t[0]) && t[j].phase == Running
    ensures SameHome(t[0].start, t[j].disk, IdealDisk(t, j))
    ensures t[j].lh == [] ==> SameHome(t[0].start, t[j].view, IdealDisk(t, j))
  {
    hide Word; hide DecodeHead; hide Recovered; hide Step; hide Enabled;
    RecoversToIdeal(t, j);
    NothingToReplay(t[j].start, t[j].disk, []);
  }

  // ---- crash atomicity ----------------------------------------------------

  predicate BeforeCommitPoint(p: Phase) {
    p.WriteLog? || p.CommitHead?
  }

  ghost predicate OldOrNew(s: State, older: Disk, newer: Disk)
    requires Sized(s)
  {
    || (SameHome(s.start, Recovered(s.start, s.disk), older)
        && (BeforeCommitPoint(s.phase) ==> SameHome(s.start, s.view, newer)))
    || (SameHome(s.start, Recovered(s.start, s.disk), newer) && !BeforeCommitPoint(s.phase))
  }

  /** Without operations, write_log is entered from nowhere and touches only log blocks. */
  lemma QuietStep(s: State, s': State)
    requires Inv(s) && Next(s, s') && s.ops == [] && s'.ops == []
    ensures BeforeCommitPoint(s'.phase)
            ==> BeforeCommitPoint(s.phase) && s.phase != CommitHead && SameHome(s.start, s'.view, s.view)
    ensures s.phase == CommitHead && s'.phase != Booting ==> !BeforeCommitPoint(s'.phase)
  {
    hide Word; hide PutWord; hide EncodeHead; hide DecodeHead; hide Recovered; hide IndexOf;
    var e :| Enabled(s, e) && s' == Step(s, e);
  }

  lemma OldOrNewStep(s: State, s': State, older: Disk, newer: Disk)
    requires Inv(s) && Next(s, s') && s.ops == [] && s'.ops == []
    requires OldOrNew(s, older, newer)
    ensures Inv(s') && OldOrNew(s', older, newer)
  {
    NextKeeps(s, s');
    QuietStep(s, s');
    hide Recovered; hide Next; hide HomeBlock; hide PhaseInv; hide HeadFits; hide GoodHeader; hide Reserved;
  }

  lemma {:induction false} OldOrNewRun(t: seq<State>, j: nat, older: Disk, newer: Disk)
    requires IsRun(t) && j < |t| && Inv(t[0]) && OldOrNew(t[0], older, newer)
    requires forall i :: 0 <= i < |t| ==> t[i].ops == []
    ensures Inv(t[j]) && OldOrNew(t[j], older, newer)
  {
    hide Inv; hide Sized; hide OldOrNew; hide Step; hide Enabled;
    if j > 0 {
      OldOrNewRun(t, j - 1, older, newer);
      assert Next(t[j - 1], t[j]);
      OldOrNewStep(t[j - 1], t[j], older, newer);
    }
  }

  /** From the moment end_op starts a commit, through any crashes during
      commit() and during any number of recoveries, until the log is idle
      again: the home blocks are all as before or all as committed. */
  lemma CrashAtomicity(t: seq<State>)
    requires IsRun(t) && Inv(t[0]) && t[0].phase == WriteLog(0)
    requires forall i :: 0 <= i < |t| ==> t[i].ops == []
    requires t[|t| - 1].phase == Running
    ensures SameHome(t[0].start, t[|t| - 1].disk, t[0].disk) || SameHome(t[0].start, t[|t| - 1].disk, t[0].view)
  {
    hide Word; hide DecodeHead; hide Recovered; hide Step; hide Enabled;
    var last := t[|t| - 1];
    NothingToReplay(t[0].start, t[0].disk, []);
    OldOrNewRun(t, |t| - 1, t[0].disk, t[0].view);
    RunKeepsInv(t, |t| - 1);
    NothingToReplay(last.start, last.disk, []);
  }

  // ---- reservation --------------------------------------------------------

  /** In every reachable state: a commit excludes operations, the logged block
      numbers are distinct, and the header plus all unspent budgets fits. */
  lemma Reservation(t: seq<State>, j: nat)
    requires IsRun(t) && Initial(t[0]) && j < |t|
    ensures t[j].Committing() ==> t[j].ops == []
    ensures Distinct(t[j].lh)
    ensures |t[j].lh| + Unspent(t[j].ops) <= LOGBLOCKS
  {
    hide Word; hide DecodeHead; hide Step; hide Enabled;
    RunKeepsInv(t, j);
  }

  /** So an operation that still has budget never meets "too big a
      transaction", nor "log_write outside of trans". */
  lemma BudgetPreventsPanic(t: seq<State>, j: nat, k: nat)
    requires IsRun(t) && Initial(t[0]) && j < |t| && k < |t[j].ops| && |t[j].ops[k]| < MAXOPBLOCKS
    ensures !LogWritePanics(t[j])
  {
    hide Word; hide DecodeHead; hide Step; hide Enabled;
    RunKeepsInv(t, j);
    UnspentBounds(t[j].ops, k);
  }

  /** log_write inside an operation panics exactly when the log is full, and
      then every outstanding operation has spent its whole budget. */
  lemma PanicsExactlyWhenFull(t: seq<State>, j: nat, k: nat)
    requires IsRun(t) && Initial(t[0]) && j < |t| && k < |t[j].ops|
    ensures LogWritePanics(t[j]) <==> |t[j].lh| == LOGBLOCKS
    ensures LogWritePanics(t[j]) ==> |t[j].ops[k]| == MAXOPBLOCKS
  {
    hide Word; hide DecodeHead; hide Step; hide Enabled;
    RunKeepsInv(t, j);
    UnspentBounds(t[j].ops, k);
  }

  // ---- log_write tests for a full log before it looks for absorption ------

  function Clamp(m: int): nat {
    if m < 0 then 0 else if m > MAXOPBLOCKS then MAXOPBLOCKS else m
  }

  /** Three operations in progress which between them have logged blocks 33, 34, ... */
  ghost function Filling(m: nat): State
    requires m <= LOGBLOCKS
  {
    var disk: Disk := seq(64, i => ZeroBlock());
    State(2, disk, disk, seq(m, i requires 0 <= i < m => 33 + i),
          FillingOps(m), Running)
  }

  ghost function FillingOps(m: nat): seq<set<nat>> {
    seq(3, k requires 0 <= k < 3 => FillingOp(m, k))
  }

  ghost function FillingOp(m: nat, k: nat): set<nat>
    requires k < 3
  {
    BlockRange(33 + 10 * k, Clamp(m - 10 * k))
  }

  lemma FillingOpStep(m: nat, k: nat)
    requires m < LOGBLOCKS && k < 3
    ensures FillingOp(m + 1, k) == if k == m / 10 then FillingOp(m, k) + {33 + m} else FillingOp(m, k)
    ensures |FillingOp(m + 1, k)| <= MAXOPBLOCKS
  {
  }

  lemma FillingOpsStep(m: nat, k: nat)
    requires m < LOGBLOCKS && k == m / 10
    ensures |FillingOps(m)| == 3 && |FillingOps(m)[k] + {33 + m}| <= MAXOPBLOCKS
    ensures FillingOps(m)[k := FillingOps(m)[k] + {33 + m}] == FillingOps(m + 1)
  {
    hide FillingOp;
    forall j: nat | j < 3 { FillingOpStep(m, j); }
  }

  lemma FillingStep(m: nat)
    requires m < LOGBLOCKS
    ensures Next(Filling(m), Filling(m + 1))
  {
    hide Word; hide IndexOf; hide FillingOps;
    var s, b: uint := Filling(m), 33 + m;
    WordOfZero(0);
    var e := LogWrite(m / 10, b, s.view[b]);
    FillingOpsStep(m, m / 10);
    assert b !in s.lh;
    assert HomeBlock(s.start, |s.view|, b);
    assert Enabled(s, e);
    assert Step(s, e).lh == Filling(m + 1).lh;
    assert Step(s, e).view == s.view;
  }

  ghost function FillingRun(m: nat): seq<State>
    requires m <= LOGBLOCKS
  {
    if m == 0 then BootedRun() else FillingRun(m - 1) + [Filling(m)]
  }

  /** A fresh disk boots, then three operations begin. */
  ghost function BootedRun(): seq<State> {
    var idle := Filling(0).(ops := []);
    var none: set<nat> := {};
    [idle.(phase := Booting), idle.(phase := Replay(0)), idle.(phase := ReplayErase), idle,
     idle.(ops := [none]), idle.(ops := [none, none]), Filling(0)]
  }

  lemma BootedRunIsRun()
    ensures IsRun(BootedRun()) && Initial(BootedRun()[0]) && BootedRun()[6] == Filling(0)
  {
    hide Word;
    var t := BootedRun();
    WordOfZero(0);
    assert EncodeHead(ZeroBlock(), []) == ZeroBlock();
    var none: set<nat> := {};
    assert Filling(0).ops == [none, none, none];
    assert Next(t[0], t[1]) by { assert Step(t[0], RecoverStep) == t[1]; }
    assert Next(t[1], t[2]) by { assert Step(t[1], RecoverStep) == t[2]; }
    assert Next(t[2], t[3]) by { assert Step(t[2], RecoverStep) == t[3]; }
    assert Next(t[3], t[4]) by { assert Step(t[3], BeginOp) == t[4]; }
    assert Next(t[4], t[5]) by { assert Step(t[4], BeginOp) == t[5]; }
    assert Next(t[5], t[6]) by { assert Step(t[5], BeginOp) == t[6]; }
  }

  lemma {:induction false} FillingRunIsRun(m: nat)
    requires m <= LOGBLOCKS
    ensures IsRun(FillingRun(m)) && Initial(FillingRun(m)[0])
    ensures FillingRun(m)[|FillingRun(m)| - 1] == Filling(m)
  {
    hide Next; hide Initial; hide FillingOps;
    if m == 0 {
      BootedRunIsRun();
    } else {
      FillingRunIsRun(m - 1);
      FillingStep(m - 1);
    }
  }

  /** "An operation that logs at most MAXOPBLOCKS different blocks never
      panics" is false: logging one of them again can. */
  lemma RelogCanPanic()
    returns (t: seq<State>, k: nat, b: uint)
    ensures IsRun(t) && Initial(t[0])
    ensures k < |t[|t| - 1].ops| && b in t[|t| - 1].ops[k] && |t[|t| - 1].ops[k] + {b}| <= MAXOPBLOCKS
    ensures LogWritePanics(t[|t| - 1])
  {
    hide Next; hide Initial; hide FillingRun; hide BlockRange;
    FillingRunIsRun(LOGBLOCKS);
    assert FillingOp(LOGBLOCKS, 0) == BlockRange(33, 10);
    t, k, b := FillingRun(LOGBLOCKS), 0, 33;
    assert BlockRange(33, 10) + {b} == BlockRange(33, 10);
  }
}
