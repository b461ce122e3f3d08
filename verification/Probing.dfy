/** The number theory behind the encoder's double hashing: stepping by any nonzero displacement
    through a prime-sized table meets every slot before repeating one. */
module Probing {
  const HSIZE: nat := 5003

  ghost predicate IsPrime(p: nat) {
    2 <= p && forall m :: 2 <= m < p ==> p % m != 0
  }

  predicate NoDivisorUpTo(p: nat, m: nat) {
    if m < 2 then true else if p % m == 0 then false else NoDivisorUpTo(p, m - 1)
  }

  lemma {:induction false} NoDivisorBelow(p: nat, m: nat, d: nat)
    requires NoDivisorUpTo(p, m) && 2 <= d <= m
    ensures p % d != 0
  {
    if d < m { NoDivisorBelow(p, m - 1, d); }
  }

  lemma NoLargeDivisor(p: nat, s: nat, q: nat, m: nat)
    requires s < m < p < (s + 1) * (s + 1) && NoDivisorUpTo(p, s)
    ensures p != q * m
  {
    if p == q * m {
      CofactorSmall(p, q, m, s);
      MultipleMod(q, m);
      NoDivisorBelow(p, s, q);
    }
  }

  /** Trial division up to the square root suffices. */
  lemma TrialDivision(p: nat, s: nat)
    requires 2 <= p < (s + 1) * (s + 1) && NoDivisorUpTo(p, s)
    ensures IsPrime(p)
  {
    forall m | 2 <= m < p
      ensures p % m != 0
    {
      TrialDivisor(p, s, m);
    }
  }

  lemma TrialDivisor(p: nat, s: nat, m: nat)
    requires 2 <= m < p < (s + 1) * (s + 1) && NoDivisorUpTo(p, s)
    ensures p % m != 0
  {
    if m <= s {
      NoDivisorBelow(p, s, m);
    } else {
      var q := p / m;
      assert p == q * m + p % m;
      NoLargeDivisor(p, s, q, m);
    }
  }

  lemma CofactorSmall(p: nat, q: nat, m: nat, s: nat)
    requires p == q * m && s < m < p < (s + 1) * (s + 1)
    ensures 2 <= q <= s
  {
    if q > s { MulMonotone(s + 1, s + 1, q, m); }
  }

  lemma MulMonotone(a: nat, b: nat, c: nat, d: nat)
    requires a <= c && b <= d
    ensures a * b <= c * d
  {
    assert c * d - a * b == (c - a) * d + a * (d - b);
  }

  lemma MultipleMod(d: nat, k: int)
    requires d > 0
    ensures (d * k) % d == 0
  {
    var x := d * k;
    assert x == (x / d) * d + x % d;
    Distribute(k, x / d, d);
    NoSmallMultiple(k - x / d, d);
  }

  lemma HsizeIsPrime()
    ensures IsPrime(HSIZE)
  {
    assert NoDivisorUpTo(5003, 10);
    assert NoDivisorUpTo(5003, 20);
    assert NoDivisorUpTo(5003, 30);
    assert NoDivisorUpTo(5003, 40);
    assert NoDivisorUpTo(5003, 50);
    assert NoDivisorUpTo(5003, 60);
    assert NoDivisorUpTo(5003, 70);
    TrialDivision(HSIZE, 70);
  }

  lemma Distribute(a: int, b: int, d: int)
    ensures (a - b) * d == a * d - b * d
  {
  }

  lemma NoSmallMultiple(k: int, d: int)
    requires -d < k * d < d
    ensures k == 0
  {
  }

  /** Reducing a factor modulo `p` keeps a product a multiple of `p`. */
  lemma ReduceFactor(p: nat, a: nat, b: nat)
    requires 0 < a < p && (a * b) % p == 0
    ensures ((p % a) * b) % p == 0
  {
    var q, k := p / a, (a * b) / p;
    assert p % a == p - q * a;
    assert a * b == p * k;
    assert (p - q * a) * b == p * b - q * (a * b);
    assert q * (p * k) == p * (q * k);
    assert p * b - p * (q * k) == p * (b - q * k);
    MultipleMod(p, b - q * k);
  }

  /** Euclid's lemma for residues of a prime. */
  lemma {:induction false} NoZeroProduct(p: nat, a: nat, b: nat)
    requires IsPrime(p) && 0 < a < p && 0 < b < p
    ensures (a * b) % p != 0
    decreases a
  {
    if a == 1 {
      assert 1 * b == b;
    } else {
      assert p % a != 0;
      NoZeroProduct(p, p % a, b);
      if (a * b) % p == 0 { ReduceFactor(p, a, b); }
    }
  }

  /** The slot reached after `j` secondary probes from `start`. */
  function Slot(start: nat, disp: nat, j: nat): (s: nat)
    ensures s < HSIZE
  {
    (start - j * disp) % HSIZE
  }

  /** No slot is met twice within the first 5003 probes. */
  lemma ProbesDistinct(start: nat, disp: nat, i: nat, j: nat)
    requires 0 < disp < HSIZE && i < j < HSIZE
    ensures Slot(start, disp, i) != Slot(start, disp, j)
  {
    HsizeIsPrime();
    NoZeroProduct(HSIZE, j - i, disp);
    var x, y := start - i * disp, start - j * disp;
    if x % HSIZE == y % HSIZE {
      assert x - y == HSIZE * (x / HSIZE - y / HSIZE);
      assert x - y == (j - i) * disp;
      MultipleMod(HSIZE, x / HSIZE - y / HSIZE);
    }
  }

  /** One `i -= disp; if (i < 0) i += hsize` step. */
  lemma NextSlot(start: nat, disp: nat, j: nat)
    requires 0 < disp < HSIZE
    ensures var i := Slot(start, disp, j) - disp;
            Slot(start, disp, j + 1) == if i < 0 then i + HSIZE else i
  {
    var x := start - j * disp;
    assert start - (j + 1) * disp == x - disp;
    ModStep(x, disp, HSIZE);
  }

  lemma ModStep(x: int, d: nat, m: nat)
    requires 0 < d < m
    ensures (x - d) % m == if x % m - d < 0 then x % m - d + m else x % m - d
  {
    var k := if x % m - d < 0 then x / m - 1 else x / m;
    var r := if x % m - d < 0 then x % m - d + m else x % m - d;
    assert x == (x / m) * m + x % m;
    Distribute(x / m, 1, m);
    assert x - d == k * m + r;
    var y := x - d;
    assert y == (y / m) * m + y % m;
    Distribute(k, y / m, m);
    NoSmallMultiple(k - y / m, m);
  }
}
