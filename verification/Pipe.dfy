/** kernel/pipe.c: a ring buffer with two counters that wrap at 32 bits.

    A method runs from the point where a caller gets the pipe's lock to the point where
    it releases it, to return or to sleep; any order of such sections is a run. */
module Pipes {

  import opened Blocks

  const PIPESIZE := 512
  /** Counters are of type uint. */
  const WRAP := 0x1_0000_0000

  datatype Outcome = Returns(r: int) | Sleeps

  /** Two counters that have advanced by at most PIPESIZE from one another. */
  lemma Counters(a: nat, b: nat)
    requires a <= b <= a + PIPESIZE
    ensures a % WRAP == b % WRAP <==> a == b
    ensures b % WRAP == (a % WRAP + PIPESIZE) % WRAP <==> b == a + PIPESIZE
    ensures a % WRAP % PIPESIZE == a % PIPESIZE
    ensures (a % WRAP + 1) % WRAP == (a + 1) % WRAP
  {
    SlotOfCounter(a);
    Wraps(a, PIPESIZE);
    Wraps(a, 1);
    SameWhenNear(a, b);
    SameWhenNear(b, a + PIPESIZE);
  }

  lemma SlotOfCounter(a: nat)
    ensures a % WRAP % PIPESIZE == a % PIPESIZE
  {
  }

  lemma Wraps(a: nat, k: nat)
    requires k < WRAP
    ensures (a % WRAP + k) % WRAP == (a + k) % WRAP
  {
  }

  lemma SameWhenNear(a: nat, b: nat)
    requires a <= b < a + WRAP
    ensures a % WRAP == b % WRAP <==> a == b
  {
  }

  class Channel {

    const data: array<byte>
    var nread: nat
    var nwrite: nat
    var readopen: bool
    var writeopen: bool
    /** Every byte ever taken from a writer, and every byte ever given to a reader. */
    ghost var accepted: seq<byte>
    ghost var delivered: seq<byte>

    ghost predicate Valid()
      reads this, data
    {
      && data.Length == PIPESIZE
      && delivered <= accepted && |accepted| <= |delivered| + PIPESIZE
      && nread == |delivered| % WRAP && nwrite == |accepted| % WRAP
      && forall k :: |delivered| <= k < |accepted| ==> data[k % PIPESIZE] == accepted[k]
    }

    /** pipealloc() */
    constructor ()
      ensures Valid() && accepted == [] && delivered == [] && readopen && writeopen && fresh(data)
    {
      data := new byte[PIPESIZE];
      nread, nwrite, readopen, writeopen := 0, 0, true, true;
      accepted, delivered := [], [];
    }

    /** data[nwrite++ % PIPESIZE] = ch */
    method Store(ch: byte)
      requires Valid() && |accepted| < |delivered| + PIPESIZE
      modifies this`nwrite, this`accepted, data
      ensures Valid() && accepted == old(accepted) + [ch]
    {
      Counters(|accepted|, |accepted|);
      ghost var n, d := |accepted|, |delivered|;
      forall k | d <= k < n ensures k % PIPESIZE != n % PIPESIZE { NotSameSlot(k, n); }
      data[nwrite % PIPESIZE] := ch;
      nwrite := (nwrite + 1) % WRAP;
      accepted := accepted + [ch];
    }

    /** ch = data[nread % PIPESIZE] */
    method Peek() returns (ch: byte)
      requires Valid() && delivered != accepted
      ensures ch == accepted[|delivered|]
    {
      Counters(|delivered|, |accepted|);
      ch := data[nread % PIPESIZE];
    }

    /** nread++ */
    method Advance(ghost ch: byte)
      requires Valid() && delivered != accepted && ch == accepted[|delivered|]
      modifies this`nread, this`delivered
      ensures Valid() && delivered == old(delivered) + [ch]
    {
      Counters(|delivered|, |accepted|);
      nread := (nread + 1) % WRAP;
      delivered := delivered + [ch];
    }

    method Empty() returns (e: bool)
      requires Valid()
      ensures e == (delivered == accepted)
    {
      Counters(|delivered|, |accepted|);
      e := nread == nwrite;
    }

    /** pipewrite() from byte i of src on.  Byte killAt is where the caller is found to
        have been killed and byte faultAt is where copyin fails. */
    method Write(src: seq<byte>, i0: nat, killAt: nat, faultAt: nat) returns (o: Outcome, i: nat)
      requires Valid() && i0 <= |src|
      modifies this`nwrite, this`accepted, data
      ensures Valid() && i0 <= i <= |src| && accepted == old(accepted) + src[i0..i]
      ensures match o
              case Returns(r) =>
                if r == -1 then i < |src| && (!readopen || i >= killAt)
                else r == i && (i == |src| || i >= faultAt) && (i > i0 ==> readopen)
              case Sleeps => i < |src| && readopen && |accepted| == |delivered| + PIPESIZE
    {
      i := i0;
      while i < |src|
        invariant Valid() && i0 <= i <= |src| && accepted == old(accepted) + src[i0..i] && (i > i0 ==> readopen)
      {
        if !readopen || i >= killAt { return Returns(-1), i; }
        Counters(|delivered|, |accepted|);
        if nwrite == (nread + PIPESIZE) % WRAP {
          return Sleeps, i;
        } else {
          if i >= faultAt { break; }
          assert src[i0..i + 1] == src[i0..i] + [src[i]];
          Store(src[i]);
          i := i + 1;
        }
      }
      return Returns(i), i;
    }

    /** piperead() of at most n bytes; out is what copyout has written.  killed tells
        whether the caller was killed while waiting and faultAt where copyout fails. */
    method Read(n: nat, killed: bool, faultAt: nat) returns (o: Outcome, out: seq<byte>)
      requires Valid()
      modifies this`nread, this`delivered
      ensures Valid() && delivered == old(delivered) + out && |out| <= n
      ensures match o
              case Returns(r) =>
                && (r != -1 ==> r == |out|)
                && (r == -1 ==>
                    out == [] && ((killed && writeopen && delivered == accepted) || (n > 0
                    && faultAt == 0)))
                && (r == 0 && n > 0 ==> !writeopen && delivered == accepted)
                && (r != -1 && |out| < n && |out| < faultAt ==> delivered == accepted)
              case Sleeps => out == [] && writeopen && delivered == accepted
    {
      hide Valid;
      out := [];
      var empty := Empty();
      if empty && writeopen { return if killed then Returns(-1) else Sleeps, []; }
      var i := 0;
      while i < n
        invariant Valid() && 0 <= i <= n && |out| == i && delivered == old(delivered) + out && (i > 0 ==> faultAt > 0)
        invariant i == 0 ==> delivered != accepted || !writeopen
      {
        empty := Empty();
        if empty { break; }
        var ch := Peek();
        if i >= faultAt { return Returns(if i == 0 then -1 else i), out; }
        Advance(ch);
        out := out + [ch];
        i := i + 1;
      }
      return Returns(i), out;
    }

    /** pipeclose(): the pipe is freed when both ends are closed. */
    method Close(writable: bool) returns (freed: bool)
      requires Valid()
      modifies this`readopen, this`writeopen
      ensures Valid() && freed == (!readopen && !writeopen)
      ensures if writable then !writeopen && readopen == old(readopen) else !readopen && writeopen == old(writeopen)
    {
      if writable { writeopen := false; } else { readopen := false; }
      freed := !readopen && !writeopen;
    }
  }

  lemma NotSameSlot(k: nat, n: nat)
    requires k < n < k + PIPESIZE
    ensures k % PIPESIZE != n % PIPESIZE
  {
  }
}
