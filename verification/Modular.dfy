/**
 Divisibility by a fixed modulus.  A congruence is stated as "this difference is a multiple of m".
 */
module Modular {
  function Times(k: int, m: int): int {
    k * m
  }

  ghost predicate Divides(m: int, a: int) {
    exists k :: a == Times(k, m)
  }

  lemma Multiple(m: int, k: int)
    ensures Divides(m, k * m)
  {
    assert k * m == Times(k, m);
  }

  lemma Quotient(m: int, a: int) returns (k: int)
    requires Divides(m, a)
    ensures a == k * m
  {
    k :| a == Times(k, m);
  }

  lemma Nothing(m: int)
    ensures Divides(m, 0)
  {
    assert 0 == Times(0, m);
  }

  // Divisible means without remainder.
  lemma NoRemainder(m: int, a: int)
    requires m > 0
    ensures Divides(m, a) <==> a % m == 0
  {
    if a % m == 0 {
      assert a == Times(a / m, m);
    }
    if Divides(m, a) {
      var k := Quotient(m, a);
      var q, r := a / m, a % m;
      assert (k - q) * m == r;
      assert k - q >= 1 ==> (k - q) * m >= m;
      assert k - q <= -1 ==> (k - q) * m <= -m;
    }
  }

  lemma Sum(m: int, a: int, b: int)
    requires m > 0 && Divides(m, a) && Divides(m, b)
    ensures Divides(m, a + b)
  {
    var j := Quotient(m, a);
    var k := Quotient(m, b);
    assert a + b == (j + k) * m;
    Multiple(m, j + k);
  }

  lemma Product(m: int, c: int, a: int)
    requires m > 0 && Divides(m, a)
    ensures Divides(m, c * a)
  {
    var k := Quotient(m, a);
    assert c * a == c * k * m;
    Multiple(m, c * k);
  }

  lemma Reduction(m: int, a: int)
    requires m > 0
    ensures Divides(m, a % m - a)
  {
    assert a % m - a == (-(a / m)) * m;
    Multiple(m, -(a / m));
  }

  // A factor that has an inverse can be cancelled.
  lemma Cancel(m: int, u: int, inv: int, a: int)
    requires m > 0 && Divides(m, inv * u - 1) && Divides(m, u * a)
    ensures Divides(m, a)
  {
    Product(m, inv, u * a);
    Product(m, -a, inv * u - 1);
    Sum(m, inv * (u * a), -a * (inv * u - 1));
    assert inv * (u * a) + -a * (inv * u - 1) == a;
  }

  // Equal residues.
  lemma Same(m: int, a: int, b: int)
    requires m > 0 && 0 <= a < m && 0 <= b < m && Divides(m, a - b)
    ensures a == b
  {
    var k := Quotient(m, a - b);
    assert k >= 1 ==> k * m >= m;
    assert k <= -1 ==> k * m <= -m;
  }
}
