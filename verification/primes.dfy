/** Prime numbers and how sieving finds them. */
module Primes {
  import opened Division

  predicate Divides(d: nat, n: nat) {
    d > 0 && n % d == 0
  }

  ghost predicate IsPrime(n: nat) {
    n >= 2 && forall d: nat | 2 <= d < n :: !Divides(d, n)
  }

  /** The primes up to `n`, ascending. */
  ghost function PrimesUpTo(n: nat): (ps: seq<nat>)
    ensures forall p | p in ps :: 2 <= p <= n && IsPrime(p)
    ensures forall p: nat | p <= n && IsPrime(p) :: p in ps
  {
    if n < 2 then []
    else if IsPrime(n) then PrimesUpTo(n - 1) + [n]
    else PrimesUpTo(n - 1)
  }

  lemma {:induction false} PrimesPrefix(m: nat, n: nat)
    requires m <= n
    ensures PrimesUpTo(m) <= PrimesUpTo(n)
  {
    if m < n {
      PrimesPrefix(m, n - 1);
    }
  }

  lemma {:induction false} PrimesAscending(n: nat)
    ensures forall i, j | 0 <= i < j < |PrimesUpTo(n)| :: PrimesUpTo(n)[i] < PrimesUpTo(n)[j]
  {
    if n >= 2 {
      PrimesAscending(n - 1);
      var ps := PrimesUpTo(n - 1);
      forall i | 0 <= i < |ps|
        ensures ps[i] < n
      {
        assert ps[i] in ps;
      }
    }
  }

  /** No number in `ps` divides `n`. */
  predicate Passes(ps: seq<nat>, n: nat) {
    forall j | 0 <= j < |ps| :: !Divides(ps[j], n)
  }

  lemma DividesTransitive(a: nat, b: nat, c: nat)
    requires Divides(a, b) && Divides(b, c)
    ensures Divides(a, c)
  {
    var x, y := b / a, c / b;
    assert b == x * a && c == y * b;
    assert c == (y * x) * a;
    DivUnique(c, a, y * x, 0);
  }

  /** Every number from 2 on has a divisor that is prime. */
  lemma {:induction false} PrimeDivisor(n: nat) returns (p: nat)
    requires n >= 2
    ensures 2 <= p <= n && IsPrime(p) && Divides(p, n)
  {
    if IsPrime(n) {
      p := n;
    } else {
      var d: nat :| 2 <= d < n && Divides(d, n);
      p := PrimeDivisor(d);
      DividesTransitive(p, d, n);
    }
  }

  /** A number passes the primes below it exactly if it is prime itself. */
  lemma PassesIffPrime(h: nat, n: nat)
    requires n == h + 1 && n >= 2
    ensures Passes(PrimesUpTo(h), n) <==> IsPrime(n)
  {
    hide Divides;
    var ps := PrimesUpTo(h);
    if IsPrime(n) {
      forall j | 0 <= j < |ps|
        ensures !Divides(ps[j], n)
      {
        assert ps[j] in ps;
      }
    } else {
      var p := PrimeDivisor(n);
      assert p in ps;
      var j :| 0 <= j < |ps| && ps[j] == p;
    }
  }

  /** The primes up to `h` sieve out everything up to the next prime. */
  lemma {:induction false} NextPrime(h: nat, v: nat)
    requires 1 <= h < v && forall n: nat | h < n < v :: !Passes(PrimesUpTo(h), n)
    ensures PrimesUpTo(v - 1) == PrimesUpTo(h)
    ensures Passes(PrimesUpTo(h), v) ==> IsPrime(v) && PrimesUpTo(v) == PrimesUpTo(h) + [v]
    decreases v - h
  {
    hide IsPrime, Passes;
    if v == h + 1 {
      PassesIffPrime(h, v);
    } else {
      NextPrime(h, v - 1);
      PassesIffPrime(v - 2, v - 1);
      assert !Passes(PrimesUpTo(h), v - 1);
      PassesIffPrime(v - 1, v);
    }
  }
}
