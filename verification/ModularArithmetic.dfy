// Powers and residues, as far as the SRP exchange needs them.
module ModularArithmetic {

  function Pow(b: int, e: nat): int {
    if e == 0 then 1 else b * Pow(b, e - 1)
  }

  /** Modular exponentiation is specified as a power reduced once at the end. */
  function ModPow(b: nat, e: nat, n: nat): (r: nat)
    requires n > 0
    ensures r < n
  {
    PowNonNegative(b, e);
    Pow(b, e) % n
  }

  lemma Distribute(n: int, a: int, b: int)
    ensures n * (a + b) == n * a + n * b
    ensures n * (a - b) == n * a - n * b
  {
  }

  lemma Interchange(a: int, b: int, x: int, y: int)
    ensures (a * b) * (x * y) == (a * x) * (b * y)
  {
  }

  lemma {:induction false} PowNonNegative(b: nat, e: nat)
    ensures Pow(b, e) >= 0
  {
    if e > 0 {
      PowNonNegative(b, e - 1);
    }
  }

  lemma {:induction false} PowAdd(b: int, e: nat, f: nat)
    ensures Pow(b, e + f) == Pow(b, e) * Pow(b, f)
  {
    if e > 0 {
      PowAdd(b, e - 1, f);
      assert b * (Pow(b, e - 1) * Pow(b, f)) == (b * Pow(b, e - 1)) * Pow(b, f);
    }
  }

  lemma {:induction false} PowTimes(b: int, e: nat, f: nat)
    requires e * f >= 0
    ensures Pow(b, e * f) == Pow(Pow(b, e), f)
  {
    if f > 0 {
      assert e * (f - 1) >= 0 && e * f == e + e * (f - 1);
      PowTimes(b, e, f - 1);
      PowAdd(b, e, e * (f - 1));
    }
  }

  lemma {:induction false} PowOfProduct(a: int, b: int, e: nat)
    ensures Pow(a * b, e) == Pow(a, e) * Pow(b, e)
  {
    if e > 0 {
      PowOfProduct(a, b, e - 1);
      Interchange(a, b, Pow(a, e - 1), Pow(b, e - 1));
    }
  }

  // ---- residues ----

  lemma AtLeastOneMultiple(n: int, k: int)
    requires n > 0 && k >= 1
    ensures n * k >= n
  {
  }

  lemma QuotientUnique(n: int, q: int, r: int, q': int, r': int)
    requires 0 <= r < n && 0 <= r' < n && n * q + r == n * q' + r'
    ensures r == r'
  {
    Distribute(n, q, q');
    if q > q' {
      AtLeastOneMultiple(n, q - q');
    } else if q < q' {
      Distribute(n, q', q);
      AtLeastOneMultiple(n, q' - q);
    }
  }

  lemma AddMultiple(x: int, k: int, n: int)
    requires n > 0
    ensures (x + n * k) % n == x % n
  {
    var y := x + n * k;
    assert y == n * (y / n) + y % n;
    assert x == n * (x / n) + x % n;
    assert y == n * (x / n + k) + x % n;
    QuotientUnique(n, y / n, y % n, x / n + k, x % n);
  }

  lemma DifferByMultiple(x: int, x': int, n: int) returns (k: int)
    requires n > 0 && x % n == x' % n
    ensures x == x' + n * k
  {
    k := x / n - x' / n;
    Distribute(n, x / n, x' / n);
  }

  lemma CongruentAddLeft(x: int, x': int, y: int, n: int)
    requires n > 0 && x % n == x' % n
    ensures (x + y) % n == (x' + y) % n
  {
    var k := DifferByMultiple(x, x', n);
    AddMultiple(x' + y, k, n);
  }

  lemma CongruentAdd(x: int, x': int, y: int, y': int, n: int)
    requires n > 0 && x % n == x' % n && y % n == y' % n
    ensures (x + y) % n == (x' + y') % n
  {
    CongruentAddLeft(x, x', y, n);
    CongruentAddLeft(y, y', x', n);
  }

  /** Subtracting a residue instead of the number itself, from a sum shifted by n. */
  lemma SubtractResidue(n: int, s: int, masked: int, key: int)
    requires n > 0 && s % n == (masked + key) % n
    ensures ((n + s) - masked % n) % n == key % n
  {
    ResidueIdempotent(masked, n);
    var j := DifferByMultiple(masked, masked % n, n);
    var k := DifferByMultiple(s, masked + key, n);
    Distribute(n, k, j);
    Distribute(n, k + j, 1);
    AddMultiple(key, k + j + 1, n);
  }

  lemma ShiftedProduct(x: int, k: int, y: int, n: int)
    ensures (x + n * k) * y == x * y + n * (k * y)
  {
  }

  lemma CongruentTimesLeft(x: int, x': int, y: int, n: int)
    requires n > 0 && x % n == x' % n
    ensures (x * y) % n == (x' * y) % n
  {
    var k := DifferByMultiple(x, x', n);
    ShiftedProduct(x', k, y, n);
    AddMultiple(x' * y, k * y, n);
  }

  lemma CongruentTimes(x: int, x': int, y: int, y': int, n: int)
    requires n > 0 && x % n == x' % n && y % n == y' % n
    ensures (x * y) % n == (x' * y') % n
  {
    CongruentTimesLeft(x, x', y, n);
    CongruentTimesLeft(y, y', x', n);
  }

  lemma {:induction false} CongruentPow(x: int, x': int, e: nat, n: int)
    requires n > 0 && x % n == x' % n
    ensures Pow(x, e) % n == Pow(x', e) % n
  {
    if e > 0 {
      CongruentPow(x, x', e - 1, n);
      CongruentTimes(x, x', Pow(x, e - 1), Pow(x', e - 1), n);
    }
  }

  lemma ResidueIdempotent(x: int, n: int)
    requires n > 0
    ensures (x % n) % n == x % n
  {
  }
}
