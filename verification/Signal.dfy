/** Signals as one process sees them: delivery at the end of usertrap (kernel/trap.c),
    sigreturn and signal (kernel/sysproc.c), and the store of a system call's result
    (kernel/syscall.c). */
module SignalModel {

  import opened Blocks

  const NSIG := 32
  const NREGS := 31
  /** Places of x10 and x11 among x1..x31. */
  const A0 := 9
  const A1 := 10
  /** argint() keeps 32 bits; a negative number is at least half of this. */
  const INT := 0x1_0000_0000
  const NO_HANDLER := 0xffff_ffff_ffff_ffff

  /** The user part of a trapframe: the pc and registers x1..x31. */
  datatype Frame = Frame(epc: nat, regs: seq<nat>)

  predicate FrameOk(f: Frame) { |f.regs| == NREGS }

  datatype SigState = SigState(tf: Frame, saved: Frame, handling: bool, pending: nat, handlers: seq<nat>)

  predicate SigOk(t: SigState) { FrameOk(t.tf) && FrameOk(t.saved) && |t.handlers| == NSIG && t.pending < Pow2(NSIG) }

  // ---- delivery -----------------------------------------------------------------------

  predicate Deliverable(t: SigState, i: nat)
    requires SigOk(t)
  {
    i < NSIG && BitOf(t.pending, i) && t.handlers[i] != NO_HANDLER
  }

  /** The first deliverable signal at or after k, or NSIG. */
  function FirstFrom(t: SigState, k: nat): nat
    requires SigOk(t)
    decreases NSIG - k
  {
    if k >= NSIG then NSIG else if Deliverable(t, k) then k else FirstFrom(t, k + 1)
  }

  lemma {:induction false} FirstIsLowest(t: SigState, k: nat, i: nat)
    requires SigOk(t) && k <= NSIG
    ensures FirstFrom(t, k) == NSIG || (k <= FirstFrom(t, k) && Deliverable(t, FirstFrom(t, k)))
    ensures k <= i < FirstFrom(t, k) ==> !Deliverable(t, i)
    decreases NSIG - k
  {
    if k < NSIG && !Deliverable(t, k) { FirstIsLowest(t, k + 1, i); }
  }

  /** The process after signal i has been delivered to it. */
  function Interrupted(t: SigState, i: nat): SigState
    requires SigOk(t) && i < NSIG
  {
    ClearBitOfBits(t.pending, i, 0);
    t.(pending := ClearBitOf(t.pending, i), saved := t.tf, tf := t.tf.(epc := t.handlers[i]), handling := true)
  }

  function Delivered(t: SigState): SigState
    requires SigOk(t)
  {
    if t.handling || FirstFrom(t, 0) >= NSIG then t else Interrupted(t, FirstFrom(t, 0))
  }

  /** What delivery promises: nothing happens inside a handler; otherwise the lowest
      pending signal that has a handler is taken, all others stay pending, the handler
      starts with every register as it was, and the interrupted context is kept. */
  lemma DeliveryIsLowestFirst(t: SigState, j: nat)
    requires SigOk(t)
    ensures SigOk(Delivered(t)) && Delivered(t).handlers == t.handlers
    ensures Delivered(t) == t || (!t.handling && Delivered(t).handling && Delivered(t).saved == t.tf
                                  && Delivered(t).tf.regs == t.tf.regs)
    ensures t.handling ==> Delivered(t) == t
    ensures !t.handling && Deliverable(t, j) ==>
              exists i :: 0 <= i <= j && Deliverable(t, i) && Delivered(t).tf.epc == t.handlers[i]
                  && !BitOf(Delivered(t).pending, i)
                && (forall k :: 0 <= k < i ==> !Deliverable(t, k))
    ensures BitOf(Delivered(t).pending, j) ==> BitOf(t.pending, j)
    ensures BitOf(t.pending, j) && !BitOf(Delivered(t).pending, j) ==>
              Deliverable(t, j) && !t.handling && Delivered(t).tf.epc == t.handlers[j]
  {
    var i := FirstFrom(t, 0);
    FirstIsLowest(t, 0, j);
    if i < NSIG {
      ClearBitOfBits(t.pending, i, j);
      ClearBitOfBits(t.pending, i, i);
      forall k | 0 <= k < i ensures !Deliverable(t, k) { FirstIsLowest(t, 0, k); }
    }
  }

  // ---- traps ----------------------------------------------------------------------------

  /** Why the process entered the kernel.  Other stands for every call that is not
      signal or sigreturn: it may leave any frame (exec does) but has no access to
      saved or handling; self is what it sends to its own process. */
  datatype Cause =
    | Interrupt
    | Signal
    | Sigreturn
    | Other(frame: Frame, self: seq<nat>)

  /** The process runs in user mode to the frame at, then traps; meanwhile and during
      the trap other processes send the signals in sent. */
  datatype Trap = Trap(at: Frame, cause: Cause, sent: seq<nat>)

  predicate TrapOk(e: Trap) {
    FrameOk(e.at) && (e.cause.Other? ==> FrameOk(e.cause.frame))
  }

  /** ksigsend() for each signal of the list; numbers outside 0..31 are refused. */
  function Sent(pending: nat, sigs: seq<nat>): (r: nat)
    requires pending < Pow2(NSIG)
    ensures r < Pow2(NSIG)
    decreases |sigs|
  {
    if sigs == [] then pending
    else
      var p := Sent(pending, sigs[..|sigs| - 1]);
      var i := sigs[|sigs| - 1];
      if i < NSIG then SetBitOfBound(p, i, NSIG); SetBitOf(p, i) else p
  }

  /** A send marks its signal and no other; a number outside 0..31 marks nothing. */
  lemma {:induction false} SentMarks(pending: nat, sigs: seq<nat>, j: nat)
    requires pending < Pow2(NSIG)
    ensures BitOf(Sent(pending, sigs), j) <==> BitOf(pending, j) || (j < NSIG && j in sigs)
    decreases |sigs|
  {
    if sigs != [] {
      var before, i := sigs[..|sigs| - 1], sigs[|sigs| - 1];
      SentMarks(pending, before, j);
      assert sigs == before + [i];
      if i < NSIG { SetBitOfBits(Sent(pending, before), i, j); }
    }
  }

  /** sys_signal() and the store of its result. */
  function Registered(t: SigState): SigState
    requires SigOk(t)
  {
    var sig, handler := t.tf.regs[A0] % INT, t.tf.regs[A1];
    if sig < NSIG then t.(handlers := t.handlers[sig := handler], tf := t.tf.(regs := t.tf.regs[A0 := 0]))
    else t.(tf := t.tf.(regs := t.tf.regs[A0 := NO_HANDLER]))
  }

  /** The first argument, as a 32-bit number, names the signal and the second is its
      handler from now on; a number outside 0..31 is refused with -1.  No other handler, no
      other register and no signal changes. */
  lemma RegisterSets(t: SigState, j: nat)
    requires SigOk(t) && j < NSIG
    ensures var t', sig := Registered(t), t.tf.regs[A0] % INT;
            && t' == t.(handlers := t'.handlers, tf := t.tf.(regs := t'.tf.regs)) && |t'.handlers| == NSIG
            && t'.handlers[j] == (if j == sig then t.tf.regs[A1] else t.handlers[j])
            && |t'.tf.regs| == NREGS && t'.tf.regs[A0] == (if sig < NSIG then 0 else NO_HANDLER)
            && forall k :: 0 <= k < NREGS && k != A0 ==> t'.tf.regs[k] == t.tf.regs[k]
  {
  }

  /** sys_sigreturn() and the store of its result: the value it returns is the a0 it has
      just restored. */
  function Returned(t: SigState): SigState
    requires SigOk(t)
  {
    var a0 := t.saved.regs[A0];
    t.(tf := t.saved.(regs := t.saved.regs[A0 := a0]), handling := false)
  }

  /** usertrap() up to the delivery of signals, by cause. */
  function Served(t: SigState, cause: Cause): (r: SigState)
    requires SigOk(t) && (cause.Other? ==> FrameOk(cause.frame))
    ensures SigOk(r)
  {
    var called := t.(tf := t.tf.(epc := t.tf.epc + 4));
    match cause
    case Interrupt => t
    case Signal => Registered(called)
    case Sigreturn => Returned(called)
    case Other(frame, self) => t.(tf := frame, pending := Sent(t.pending, self))
  }

  function Handled(t: SigState, e: Trap): (r: SigState)
    requires SigOk(t) && TrapOk(e)
    ensures SigOk(r)
  {
    Served(t.(tf := e.at, pending := Sent(t.pending, e.sent)), e.cause)
  }

  function Trapped(t: SigState, e: Trap): (r: SigState)
    requires SigOk(t) && TrapOk(e)
    ensures SigOk(r)
  {
    DeliveryIsLowestFirst(Handled(t, e), 0);
    Delivered(Handled(t, e))
  }

  /** No signal is lost: one that was pending, or that the trap brings, is pending after it,
      or its handler is what the process now enters. */
  lemma NoSignalLost(t: SigState, e: Trap, j: nat)
    requires SigOk(t) && TrapOk(e) && j < NSIG
    requires BitOf(t.pending, j) || j in e.sent || (e.cause.Other? && j in e.cause.self)
    ensures var t' := Trapped(t, e);
            || BitOf(t'.pending, j)
            || (t'.handling && !Handled(t, e).handling && t'.tf.epc == t'.handlers[j] != NO_HANDLER)
  {
    hide Sent;
    SentMarks(t.pending, e.sent, j);
    if e.cause.Other? { SentMarks(Sent(t.pending, e.sent), e.cause.self, j); }
    DeliveryIsLowestFirst(Handled(t, e), j);
  }

  /** What a trap resumes if it delivers no signal: after an interrupt the same frame, after
      signal the next instruction with the result in a0, after another call the frame that
      call left. */
  lemma TrapResumes(t: SigState, e: Trap)
    requires SigOk(t) && TrapOk(e) && e.cause != Sigreturn
    ensures Handled(t, e).saved == t.saved && Handled(t, e).handling == t.handling
    ensures e.cause.Interrupt? ==> Handled(t, e).tf == e.at
    ensures e.cause.Other? ==> Handled(t, e).tf == e.cause.frame
    ensures e.cause.Signal? ==>
              var tf := Handled(t, e).tf;
              && tf.epc == e.at.epc + 4 && tf.regs[A0] == (if e.at.regs[A0] % INT < NSIG then 0 else NO_HANDLER)
              && forall k :: 0 <= k < NREGS && k != A0 ==> tf.regs[k] == e.at.regs[k]
    ensures (forall j :: 0 <= j < NSIG ==> !Deliverable(Handled(t, e), j)) ==> Trapped(t, e) == Handled(t, e)
  {
    FirstIsLowest(Handled(t, e), 0, 0);
  }

  /** The states at the end of each trap of a run. */
  function Run(t: SigState, es: seq<Trap>): (r: SigState)
    requires SigOk(t) && forall e :: e in es ==> TrapOk(e)
    ensures SigOk(r)
    decreases |es|
  {
    if es == [] then t else Trapped(Run(t, es[..|es| - 1]), es[|es| - 1])
  }

  /** Inside a handler no trap but sigreturn changes the saved context, leaves the
      handler or starts another: the trap returns to the frame its call left. */
  lemma HandlerUndisturbed(t: SigState, e: Trap)
    requires SigOk(t) && TrapOk(e) && t.handling && e.cause != Sigreturn
    ensures Trapped(t, e) == Handled(t, e) && Trapped(t, e).saved == t.saved && Trapped(t, e).handling
  {
  }

  lemma {:induction false} SavedUntilSigreturn(t: SigState, es: seq<Trap>)
    requires SigOk(t) && t.handling && forall e :: e in es ==> TrapOk(e) && e.cause != Sigreturn
    ensures Run(t, es).saved == t.saved && Run(t, es).handling
    decreases |es|
  {
    if es != [] {
      SavedUntilSigreturn(t, es[..|es| - 1]);
      HandlerUndisturbed(Run(t, es[..|es| - 1]), es[|es| - 1]);
    }
  }

  /** sigreturn leaves the handler and restores every register and the pc, a0 included; or
      it hands the same context on to the next handler, if and only if another signal can be
      delivered. */
  lemma SigreturnRestores(t: SigState, e: Trap)
    requires SigOk(t) && TrapOk(e) && e.cause == Sigreturn
    ensures Handled(t, e).tf == t.saved && !Handled(t, e).handling
    ensures var t' := Trapped(t, e); if t'.handling then t'.saved == t.saved else t'.tf == t.saved
    ensures Trapped(t, e).handling <==> exists j :: 0 <= j < NSIG && Deliverable(Handled(t, e), j)
  {
    var h := Handled(t, e);
    FirstIsLowest(h, 0, 0);
    forall j | 0 <= j < NSIG && Deliverable(h, j) ensures Delivered(h).handling { FirstIsLowest(h, 0, j); }
  }

  ghost predicate AllHandling(t: SigState, es: seq<Trap>)
    requires SigOk(t) && forall e :: e in es ==> TrapOk(e)
  {
    forall n :: 0 <= n < |es| ==> Run(t, es[..n]).handling
  }

  /** Transparency: start from the delivery of a signal to a process with context ctx.
      Whatever the handlers do and however many run one after another, at the first
      return to user mode outside a handler the context is ctx again. */
  lemma {:induction false} ChainRestores(t: SigState, ctx: Frame, es: seq<Trap>)
    requires SigOk(t) && t.handling && t.saved == ctx
    requires forall e :: e in es ==> TrapOk(e)
    requires AllHandling(t, es)
    ensures var t' := Run(t, es); if t'.handling then t'.saved == ctx else t'.tf == ctx
    decreases |es|
  {
    if es != [] {
      var before, e := es[..|es| - 1], es[|es| - 1];
      assert AllHandling(t, before) by {
        forall n | 0 <= n < |before| ensures Run(t, before[..n]).handling { assert before[..n] == es[..n]; }
      }
      ChainRestores(t, ctx, before);
      var t1 := Run(t, before);
      assert t1.handling;
      if e.cause == Sigreturn { SigreturnRestores(t1, e); } else { HandlerUndisturbed(t1, e); }
    }
  }

  /** The same from the trap that delivers: its result would have been resumed. */
  lemma SignalTransparency(t: SigState, e: Trap, es: seq<Trap>)
    requires SigOk(t) && TrapOk(e) && !t.handling && e.cause != Sigreturn && forall e' :: e' in es ==> TrapOk(e')
    ensures var resumed := Handled(t, e).tf; var t1 := Trapped(t, e); var t' := Run(t1, es);
            AllHandling(t1, es) ==> t'.handling || t'.tf == resumed
  {
    var t1 := Trapped(t, e);
    DeliveryIsLowestFirst(Handled(t, e), 0);
    if AllHandling(t1, es) {
      assert es != [] ==> Run(t1, es[..0]).handling;
      if t1.handling { ChainRestores(t1, Handled(t, e).tf, es); }
    }
  }
}

/** The fields of struct proc that signals use, changed in place. */
module SignalCode {

  import opened Blocks
  import opened SignalModel

  class Process {

    var trapframe: Frame
    var savedTrapframe: Frame
    var handlingSignal: bool
    var pendingSignals: nat
    var signalHandlers: seq<nat>

    ghost function View(): SigState
      reads this
    {
      SigState(trapframe, savedTrapframe, handlingSignal, pendingSignals, signalHandlers)
    }

    /** allocproc(): no signal pending, none handled. */
    constructor (tf: Frame, stale: Frame)
      requires FrameOk(tf) && FrameOk(stale)
      ensures SigOk(View()) && trapframe == tf && savedTrapframe == stale && !handlingSignal && pendingSignals == 0
      ensures forall i :: 0 <= i < NSIG ==> signalHandlers[i] == NO_HANDLER
    {
      trapframe, savedTrapframe, handlingSignal := tf, stale, false;
      pendingSignals := 0;
      signalHandlers := seq(NSIG, _ => NO_HANDLER);
    }

    /** The delivery loop at the end of usertrap. */
    method Deliver()
      requires SigOk(View())
      modifies this
      ensures View() == Delivered(old(View()))
    {
      if !handlingSignal {
        ghost var t := View();
        var i := 0;
        while i < NSIG
          invariant 0 <= i <= NSIG && View() == t && FirstFrom(t, 0) == FirstFrom(t, i)
        {
          if BitOf(pendingSignals, i) && signalHandlers[i] != NO_HANDLER {
            ClearBitOfBits(pendingSignals, i, 0);
            pendingSignals := ClearBitOf(pendingSignals, i);
            savedTrapframe := trapframe;
            trapframe := trapframe.(epc := signalHandlers[i]);
            handlingSignal := true;
            break;
          }
          i := i + 1;
        }
      }
    }

    /** sys_signal(); the result goes to a0. */
    method Signal() returns (r: nat)
      requires SigOk(View())
      modifies this`signalHandlers
      ensures View().(tf := trapframe.(regs := trapframe.regs[A0 := r])) == Registered(old(View()))
    {
      var signum, handler := trapframe.regs[A0] % INT, trapframe.regs[A1];
      if signum >= NSIG { return NO_HANDLER; }
      signalHandlers := signalHandlers[signum := handler];
      return 0;
    }

    /** sys_sigreturn(); the result goes to a0. */
    method Sigreturn() returns (r: nat)
      requires SigOk(View())
      modifies this
      ensures FrameOk(trapframe) && View().(tf := trapframe.(regs := trapframe.regs[A0 := r])) == Returned(old(View()))
    {
      trapframe := savedTrapframe;
      handlingSignal := false;
      return trapframe.regs[A0];
    }

    /** ksigsend() on this process. */
    method Sigsend(signum: nat)
      requires SigOk(View())
      modifies this`pendingSignals
      ensures View() == old(View()).(pending := Sent(old(pendingSignals), [signum])) && SigOk(View())
    {
      assert [signum][..0] == [];
      if signum < NSIG {
        SetBitOfBound(pendingSignals, signum, NSIG);
        pendingSignals := SetBitOf(pendingSignals, signum);
      }
    }

    /** What the cause of a trap asks for, with the store of a call's result in a0. */
    method Serve(cause: Cause)
      requires SigOk(View()) && (cause.Other? ==> FrameOk(cause.frame))
      modifies this
      ensures View() == Served(old(View()), cause)
    {
      match cause {
        case Interrupt =>
        case Signal =>
          trapframe := trapframe.(epc := trapframe.epc + 4);
          var r := Signal();
          trapframe := trapframe.(regs := trapframe.regs[A0 := r]);
        case Sigreturn =>
          trapframe := trapframe.(epc := trapframe.epc + 4);
          var r := Sigreturn();
          trapframe := trapframe.(regs := trapframe.regs[A0 := r]);
        case Other(frame, self) =>
          trapframe := frame;
          pendingSignals := Sent(pendingSignals, self);
      }
    }

    /** usertrap(), with what other processes sent in the meantime. */
    method Usertrap(e: Trap)
      requires SigOk(View()) && TrapOk(e)
      modifies this
      ensures View() == Trapped(old(View()), e)
    {
      hide Sent; hide Delivered; hide Served;
      trapframe := e.at;
      pendingSignals := Sent(pendingSignals, e.sent);
      Serve(e.cause);
      Deliver();
    }
  }
}
