/** do_rand of user/grind.c: Schrage's way of multiplying modulo 2^31 - 1 (Park and
    Miller, Communications of the ACM 31(10), 1988, p. 1195). */
module Rand {

  const M := 0x7fff_ffff
  const A := 16807
  /** The inverse of A modulo M. */
  const INV := 1407677000

  predicate InRange(c: int) { 0 <= c <= M - 2 }

  function Multiplied(a: int, c: int): int { (a * (c + 1)) % M - 1 }

  /** do_rand(): the seed is replaced by the returned value. */
  method DoRand(ctx: nat) returns (r: int)
    ensures InRange(r) && r == Multiplied(A, ctx % (M - 1))
  {
    var x := ctx % 0x7fff_fffe + 1;
    var hi, lo := x / 127773, x % 127773;
    ghost var x0 := x;
    WithinThirtyOneBits(x0);
    x := 16807 * lo - 2836 * hi;
    assert x == A * x0 - M * hi;
    Nonzero(x0);
    SchrageMod(A * x0, hi, x);
    if x < 0 { x := x + 0x7fff_ffff; }
    x := x - 1;
    r := x;
  }

  /** Neither product nor their difference leaves 31 bits and a sign. */
  lemma WithinThirtyOneBits(x: int)
    requires 1 <= x <= M - 1
    ensures 0 <= 16807 * (x % 127773) <= M && 0 <= 2836 * (x / 127773) <= M
    ensures -M <= 16807 * (x % 127773) - 2836 * (x / 127773) <= M
  {
    assert x / 127773 <= 16807;
  }

  lemma SchrageMod(y: int, q: int, x: int)
    requires x == y - M * q && -M < x < M
    ensures y % M == if x < 0 then x + M else x
  {
  }

  lemma ModTwice(a: int, b: int, x: int)
    ensures (a * ((b * x) % M)) % M == (a * b * x) % M
  {
    var y := b * x;
    var q, r := y / M, y % M;
    assert y == q * M + r;
    assert a * b * x == a * y == a * q * M + a * r;
    var s := (a * r) % M;
    assert a * r == a * r / M * M + s;
    var t := a * q + a * r / M;
    assert a * b * x == t * M + s;
    assert (t * M + s) == (t * M + s) / M * M + (t * M + s) % M;
    assert (t - (t * M + s) / M) * M == (t * M + s) % M - s;
  }

  /** A times its inverse is one. */
  lemma InverseOf(x: int)
    ensures (INV * ((A * x) % M)) % M == x % M && (A * ((INV * x) % M)) % M == x % M
  {
    ModTwice(INV, A, x);
    ModTwice(A, INV, x);
    assert INV * A == 11017 * M + 1;
    var s := x % M;
    assert INV * A * x == 11017 * x * M + x;
    assert x == x / M * M + s;
    var t := 11017 * x + x / M;
    assert INV * A * x == t * M + s;
    assert (t * M + s) == (t * M + s) / M * M + (t * M + s) % M;
    assert (t - (t * M + s) / M) * M == (t * M + s) % M - s;
  }

  lemma Nonzero(x: int)
    requires 1 <= x <= M - 1
    ensures (A * x) % M != 0 && (INV * x) % M != 0
  {
    InverseOf(x);
  }

  /** The step is a bijection on its range: multiplying by the inverse undoes it, and
      every value is the step of one. */
  lemma StepIsBijection(c: int)
    requires InRange(c)
    ensures InRange(Multiplied(A, c)) && Multiplied(INV, Multiplied(A, c)) == c
    ensures InRange(Multiplied(INV, c)) && Multiplied(A, Multiplied(INV, c)) == c
  {
    Nonzero(c + 1);
    InverseOf(c + 1);
  }
}
