/**
 Fermat's theorem: modulo a prime p, the power p - 2 of a number that p does not divide is its inverse.
 */
module Fermat {
  import opened Modular

  predicate Prime(p: int) {
    p > 1 && forall k :: 1 < k < p ==> p % k != 0
  }

  function Pow(b: int, e: nat): int
    decreases b, e
  {
    if e == 0 then 1 else b * Pow(b, e - 1)
  }

  // A prime that divides k * c divides c, if k is smaller.
  lemma {:induction false} Euclid(p: int, k: int, c: int)
    requires Prime(p) && 0 < k < p && Divides(p, k * c)
    ensures Divides(p, c)
    decreases k
  {
    if k > 1 {
      var q, r := p / k, p % k;
      assert r != 0;
      Product(p, -q, k * c);
      Multiple(p, c);
      Sum(p, c * p, -q * (k * c));
      assert r * c == c * p + -q * (k * c) by {
        Remainder(p, k, q, r, c);
      }
      Euclid(p, r, c);
    }
  }

  lemma Remainder(p: int, k: int, q: int, r: int, c: int)
    requires p == q * k + r
    ensures r * c == c * p + -q * (k * c)
  {
  }

  // ------------------------------------------------------------------
  // The binomial theorem
  // ------------------------------------------------------------------

  function Choose(n: nat, k: nat): nat
    decreases n
  {
    if k == 0 then 1 else if n == 0 then 0 else Choose(n - 1, k - 1) + Choose(n - 1, k)
  }

  lemma {:induction false} ChooseMany(n: nat, k: nat)
    requires k > n
    ensures Choose(n, k) == 0
  {
    if n > 0 {
      ChooseMany(n - 1, k - 1);
      ChooseMany(n - 1, k);
    }
  }

  lemma {:induction false} ChooseAll(n: nat)
    ensures Choose(n, n) == 1
  {
    if n > 0 {
      ChooseAll(n - 1);
      ChooseMany(n - 1, n);
    }
  }

  lemma {:induction false} Absorb(n: nat, k: nat)
    requires n > 0 && k > 0
    ensures k * Choose(n, k) == n * Choose(n - 1, k - 1)
    decreases n
  {
    if n == 1 {
      ChooseMany(0, k);
    } else {
      var x, y := Choose(n - 1, k - 1), Choose(n - 1, k);
      Absorb(n - 1, k);
      if k > 1 {
        Absorb(n - 1, k - 1);
        var u, v := Choose(n - 2, k - 2), Choose(n - 2, k - 1);
        AbsorbStep(n, k, x, y, u, v);
      }
    }
  }

  lemma AbsorbStep(n: int, k: int, x: int, y: int, u: int, v: int)
    requires x == u + v && (k - 1) * x == (n - 1) * u && k * y == (n - 1) * v
    ensures k * (x + y) == n * x
  {
    assert (n - 1) * x == (n - 1) * u + (n - 1) * v;
    assert k * (x + y) == k * x + k * y;
    assert (k - 1) * x == k * x - x && (n - 1) * x == n * x - x;
  }

  // The sum of the first k terms of (a + 1) to the power n.
  function Terms(a: int, n: nat, k: nat): int
    decreases k
  {
    if k == 0 then 0 else Terms(a, n, k - 1) + Choose(n, k - 1) * Pow(a, k - 1)
  }

  lemma {:induction false} TermsNext(a: int, n: nat, k: nat)
    ensures Terms(a, n + 1, k + 1) == Terms(a, n, k + 1) + a * Terms(a, n, k)
    decreases k
  {
    if k > 0 {
      TermsNext(a, n, k - 1);
      var c, d, w := Choose(n, k - 1), Choose(n, k), Pow(a, k - 1);
      assert Terms(a, n + 1, k + 1) == Terms(a, n + 1, k) + (c + d) * (a * w);
      assert Terms(a, n, k + 1) == Terms(a, n, k) + d * (a * w);
      assert Terms(a, n, k) == Terms(a, n, k - 1) + c * w;
      NextTerm(a, c, d, w, Terms(a, n, k - 1));
    }
  }

  lemma NextTerm(a: int, c: int, d: int, w: int, t: int)
    ensures a * (t + c * w) + d * (a * w) == a * t + (c + d) * (a * w)
  {
  }

  lemma {:induction false} Binomial(a: int, n: nat)
    ensures Pow(a + 1, n) == Terms(a, n, n + 1)
    decreases n
  {
    if n == 0 {
      assert Terms(a, 0, 1) == Terms(a, 0, 0) + Choose(0, 0) * Pow(a, 0);
    } else {
      Binomial(a, n - 1);
      TermsNext(a, n - 1, n);
      ChooseMany(n - 1, n);
      var t := Terms(a, n - 1, n);
      assert Terms(a, n - 1, n + 1) == t + 0 * Pow(a, n);
      assert (a + 1) * t == t + a * t;
    }
  }

  // ------------------------------------------------------------------
  // Modulo a prime
  // ------------------------------------------------------------------

  lemma ChooseDivides(p: int, k: nat)
    requires Prime(p) && 0 < k < p
    ensures Divides(p, Choose(p, k))
  {
    hide *;
    Absorb(p, k);
    var b, c := Choose(p - 1, k - 1), Choose(p, k);
    Multiple(p, b);
    assert k * c == b * p;
    Euclid(p, k, c);
  }

  lemma {:induction false} TermsDivide(p: int, a: int, k: nat)
    requires Prime(p) && 0 < k <= p
    ensures Divides(p, Terms(a, p, k) - 1)
    decreases k
  {
    if k == 1 {
      assert Terms(a, p, 1) == Terms(a, p, 0) + Choose(p, 0) * Pow(a, 0);
      Nothing(p);
    } else {
      TermsDivide(p, a, k - 1);
      ChooseDivides(p, k - 1);
      var c, w := Choose(p, k - 1), Pow(a, k - 1);
      Product(p, w, c);
      Sum(p, Terms(a, p, k - 1) - 1, w * c);
      assert Terms(a, p, k) == Terms(a, p, k - 1) + c * w;
    }
  }

  lemma {:induction false} PowerIsSelf(p: int, a: nat)
    requires Prime(p)
    ensures Divides(p, Pow(a, p) - a)
    decreases a
  {
    if a == 0 {
      assert Pow(0, p) == 0 * Pow(0, p - 1);
      Nothing(p);
    } else {
      var b := a - 1;
      PowerIsSelf(p, b);
      Binomial(b, p);
      TermsDivide(p, b, p);
      ChooseAll(p);
      assert Terms(b, p, p + 1) == Terms(b, p, p) + 1 * Pow(b, p);
      Sum(p, Terms(b, p, p) - 1, Pow(b, p) - b);
    }
  }

  // Powers of equal residues have equal residues.
  lemma {:induction false} PowResidue(p: int, a: int, d: int, n: nat)
    requires p > 0 && Divides(p, d - a)
    ensures Divides(p, Pow(d, n) - Pow(a, n))
    decreases n
  {
    if n == 0 {
      Nothing(p);
    } else {
      PowResidue(p, a, d, n - 1);
      var x, y := Pow(d, n - 1), Pow(a, n - 1);
      Product(p, d, x - y);
      Product(p, y, d - a);
      Sum(p, d * (x - y), y * (d - a));
      assert d * (x - y) + y * (d - a) == d * x - a * y;
    }
  }

  lemma PowerIsOne(p: int, d: int)
    requires Prime(p) && d % p != 0
    ensures Divides(p, Pow(d, p - 1) - 1)
  {
    var a := d % p;
    PowerIsSelf(p, a);
    assert Pow(a, p) == a * Pow(a, p - 1);
    hide Pow, Prime;
    assert Pow(a, p) - a == a * (Pow(a, p - 1) - 1);
    Euclid(p, a, Pow(a, p - 1) - 1);
    Reduction(p, d);
    Product(p, -1, a - d);
    assert -1 * (a - d) == d - a;
    PowResidue(p, a, d, p - 1);
    Sum(p, Pow(d, p - 1) - Pow(a, p - 1), Pow(a, p - 1) - 1);
  }

  // The reduced power p - 2 is the inverse.
  lemma Inverse(p: int, d: int)
    requires Prime(p) && d % p != 0
    ensures Divides(p, Pow(d, p - 2) % p * d - 1)
  {
    PowerIsOne(p, d);
    var w := Pow(d, p - 2);
    assert Pow(d, p - 1) == d * w;
    hide Pow;
    Reduction(p, w);
    Product(p, d, w % p - w);
    Sum(p, d * (w % p - w), d * w - 1);
    assert d * (w % p - w) + (d * w - 1) == w % p * d - 1;
  }
}
