/**
 Public keys on the curve secp256k1 (scripts/pubkey.py:22-64): double-and-add over the bits of
 the secret key, from the lowest.

 That the script's formulas compute the sum of two points, the mirror image of the third point on
 their chord or tangent, is proved in module Secp.  That the multiples of the base point form a cyclic
 group of order N under this sum is taken as given (section 2.2.1 of SEC 1, section 2.4.1 of SEC 2),
 as `Cyclic`, and so is that the field prime is a prime.  The script's constants are defaults: nothing
 that is proved depends on the field prime and the base point but through these properties.
 */
module PubKey {
  import opened Bits
  import opened Wrappers
  import opened Secp
  import Fermat
  import Modular

  // The field prime, the order of the base point, and the base point.
  const P: Modulus := 0xFFFFFFFF_FFFFFFFF_FFFFFFFF_FFFFFFFF_FFFFFFFF_FFFFFFFF_FFFFFFFE_FFFFFC2F
  const N: int := 0xFFFFFFFF_FFFFFFFF_FFFFFFFF_FFFFFFFE_BAAEDCE6_AF48A03B_BFD25E8C_D0364141
  const G: Point := (0x79BE667EF9DCBBAC55A06295CE870B07029BFCDB2DCE28D959F2815B16F81798,
                     0x483ADA7726A3C4655DA4FBFC0E1108A8FD17B448A68554199C47D08FFB10D4B8)

  // The order as the script writes it.
  lemma Order()
    ensures N == Pow2(256) - 0x14551231950B75FC4402DA1732FC9BEBF
  {
    assert Pow2(8) == 0x100;
    hide Pow2;
    Pow2Add(8, 8);
    assert Pow2(16) == 0x1_0000;
    Pow2Add(16, 16);
    assert Pow2(32) == 0x1_0000_0000;
    Pow2Add(32, 32);
    assert Pow2(64) == 0x1_0000_0000_0000_0000;
    Pow2Add(64, 64);
    Pow2Add(128, 128);
  }

  lemma {:induction false} Pow2Add(m: nat, n: nat)
    ensures Pow2(m + n) == Pow2(m) * Pow2(n)
    decreases m
  {
    if m > 0 {
      Pow2Add(m - 1, n);
    }
  }

  // A sum of two multiples, modulo N.
  function Reduced(k: int): int {
    if k > N then k - N else k
  }

  /**
   The points pt(k) are the multiples of a point of order N, modulo m.  Two of them that are neither equal
   nor inverse to each other have different abscissas, and none has the ordinate zero.
   */
  ghost predicate Cyclic(m: Modulus, pt: int -> Point) {
    && (forall a :: 0 < a < N ==> InField(m, pt(a)) && pt(a).1 != 0)
    && (forall a :: 0 < a < N ==> IsSum(m, pt(a), pt(a), pt(Reduced(a + a))))
    && (forall a, b :: Regular(a, b) ==> pt(a).0 != pt(b).0 && IsSum(m, pt(a), pt(b), pt(Reduced(a + b))))
  }

  // The pairs that the formulas add.
  predicate Regular(a: int, b: int) {
    0 < a < N && 0 < b < N && a != b && a + b != N
  }

  // sk & (1 << i)
  predicate Bit(sk: nat, i: nat) {
    Low(Shr(sk, i), 1) == 1
  }

  lemma LowNext(sk: nat, i: nat)
    ensures Low(sk, i + 1) == Low(sk, i) + if Bit(sk, i) then Pow2(i) else 0
  {
    Compose(sk, i, 1);
    ShlOne(i);
    ShlZero(i);
  }

  lemma {:induction false} ShlOne(i: nat)
    ensures Shl(1, i) == Pow2(i)
  {
    if i > 0 {
      ShlOne(i - 1);
    }
  }

  lemma {:induction false} ShlZero(i: nat)
    ensures Shl(0, i) == 0
  {
    if i > 0 {
      ShlZero(i - 1);
    }
  }

  lemma {:induction false} LowAtMost(sk: nat, i: nat)
    ensures Low(sk, i) <= sk
    decreases i
  {
    if i > 0 {
      LowAtMost(sk / 2, i - 1);
    }
  }

  lemma {:induction false} LowAll(sk: nat, i: nat)
    requires sk < Pow2(i)
    ensures Low(sk, i) == sk
    decreases i
  {
    if i > 0 {
      LowAll(sk / 2, i - 1);
    }
  }

  // 2^i modulo N.  Doubling never meets the point at infinity, because N is odd.
  ghost function Power(i: nat): (d: int)
    ensures 0 < d < N
    ensures Pow2(i) < N ==> d == Pow2(i)
  {
    if i == 0 then 1 else Reduced(Power(i - 1) + Power(i - 1))
  }

  // The multiple of G accumulated from the low i bits; none as long as they are zero.
  ghost function Sum(pt: int -> Point, sk: nat, i: nat): Option<Point> {
    if Low(sk, i) == 0 then None else Some(pt(Low(sk, i)))
  }

  // The accumulated multiple and the power added to it are apart and have a sum below N.
  lemma NextLow(sk: int, i: nat)
    requires 0 < sk < N && Bit(sk, i)
    ensures Power(i) == Pow2(i) && Low(sk, i) < Pow2(i) && Low(sk, i) + Power(i) == Low(sk, i + 1) <= sk
  {
    LowNext(sk, i);
    LowAtMost(sk, i + 1);
  }

  lemma NextSum(pt: int -> Point, sk: int, i: nat)
    requires 0 < sk < N
    ensures !Bit(sk, i) ==> Sum(pt, sk, i + 1) == Sum(pt, sk, i)
    ensures Bit(sk, i) && Low(sk, i) == 0 ==> Sum(pt, sk, i + 1) == Some(pt(Power(i)))
    ensures Bit(sk, i) && Low(sk, i) > 0 ==>
              Regular(Low(sk, i), Power(i)) && Sum(pt, sk, i + 1) == Some(pt(Reduced(Low(sk, i) + Power(i))))
  {
    LowNext(sk, i);
    hide Low, Bit, Pow2, Power;
    if Bit(sk, i) {
      NextLow(sk, i);
    }
  }

  // The divisor of the slope is not zero.
  lemma RunInverts(m: Modulus, pt: int -> Point, a: int, b: int)
    requires Cyclic(m, pt) && Fermat.Prime(m) && m > 2 && (Regular(a, b) || 0 < a == b < N)
    ensures Inverts(m, Run(pt(a), pt(b)))
  {
    hide Inverts, IsSum, Fermat.Prime;
    var p, q := pt(a), pt(b);
    if a == b {
      Odd(m);
      TwiceResidue(m, p.1);
    } else {
      DifferenceResidue(m, q.0, p.0);
    }
    Invertible(m, Run(p, q));
  }

  lemma Odd(m: Modulus)
    requires Fermat.Prime(m) && m > 2
    ensures m % 2 == 1
  {
  }

  lemma TwiceResidue(m: int, y: int)
    requires 0 < y < m && m % 2 == 1
    ensures 2 * y % m != 0
  {
    assert 2 * y % m == if 2 * y < m then 2 * y else 2 * y - m;
  }

  lemma DifferenceResidue(m: int, x: int, y: int)
    requires 0 <= x < m && 0 <= y < m && x != y
    ensures (x - y) % m != 0
  {
    assert (x - y) % m == if x < y then x - y + m else x - y;
  }

  // What the formulas compute is the only point that the group law allows.
  lemma AddIs(m: Modulus, pt: int -> Point, a: int, b: int)
    requires Cyclic(m, pt) && Fermat.Prime(m) && m > 2 && (Regular(a, b) || 0 < a == b < N)
    ensures Add(m, pt(a), pt(b)) == pt(Reduced(a + b)) && IsSum(m, pt(a), pt(b), pt(Reduced(a + b)))
    ensures OnCurve(m, pt(a)) && OnCurve(m, pt(b)) ==> OnCurve(m, pt(Reduced(a + b)))
  {
    var p, q, k := pt(a), pt(b), Reduced(a + b);
    hide Add, IsSum, Inverts, Run, OnCurve;
    assert 0 < k < N;
    assert IsSum(m, p, q, pt(k)) && InField(m, pt(k));
    RunInverts(m, pt, a, b);
    AddIsSum(m, p, q);
    SumUnique(m, p, q, Add(m, p, q), pt(k));
    if OnCurve(m, p) && OnCurve(m, q) {
      SumOnCurve(m, p, q, pt(k));
    }
  }

  // The script's add, called only where its formulas hold: on two different points that are not
  // inverse to each other, or to double a point.
  method AddPoints(m: Modulus, p: Point, q: Point, ghost pt: int -> Point, ghost a: int, ghost b: int) returns (r: Point)
    requires Cyclic(m, pt) && Fermat.Prime(m) && m > 2 && p == pt(a) && q == pt(b) && (Regular(a, b) || 0 < a == b < N)
    requires OnCurve(m, p) && OnCurve(m, q)
    ensures r == pt(Reduced(a + b)) && IsSum(m, p, q, r) && OnCurve(m, r)
  {
    hide PowMod, Cyclic, IsSum, OnCurve, Fermat.Prime;
    AddIs(m, pt, a, b);
    r := Add(m, p, q);
  }

  // sk_to_pk: the public key is sk times G, and an invalid secret key is refused.
  method SecretToPublic(sk: int, ghost pt: int -> Point, m: Modulus := P, base: Point := G) returns (pk: Option<Point>)
    requires pt(1) == base && OnCurve(m, base) && Cyclic(m, pt) && Fermat.Prime(m) && m > 2
    ensures pk == if 0 < sk < N then Some(pt(sk)) else None
    ensures pk.Some? ==> OnCurve(m, pk.value)
  {
    hide *;
    if !(0 < sk < N) {
      return None;
    }
    var g, ret: Option<Point> := base, None;
    Start(pt, sk);
    for i := 0 to 256
      invariant g == pt(Power(i)) && ret == Sum(pt, sk, i)
      invariant OnCurve(m, g) && (ret.Some? ==> OnCurve(m, ret.value))
    {
      NextSum(pt, sk, i);
      SumLow(pt, sk, i);
      if Bit(sk, i) {
        if ret.None? {
          ret := Some(g);
        } else {
          var r := AddPoints(m, ret.value, g, pt, Low(sk, i), Power(i));
          ret := Some(r);
        }
      }
      NextPower(i);
      g := AddPoints(m, g, g, pt, Power(i), Power(i));
    }
    Finish(pt, sk);
    pk := ret;
  }

  // The script's constants are as required.
  lemma BaseOnCurve()
    ensures OnCurve(P, G) && InField(P, G) && P > 2
  {
    var a := G.1 * G.1 - G.0 * G.0 * G.0 - 7;
    assert a % P == 0;
    Modular.NoRemainder(P, a);
  }

  lemma Start(pt: int -> Point, sk: nat)
    ensures Sum(pt, sk, 0) == None && Power(0) == 1
  {
  }

  lemma SumLow(pt: int -> Point, sk: nat, i: nat)
    ensures Sum(pt, sk, i) == if Low(sk, i) == 0 then None else Some(pt(Low(sk, i)))
  {
  }

  lemma NextPower(i: nat)
    ensures Power(i + 1) == Reduced(Power(i) + Power(i))
  {
  }

  // All bits of a valid key are within reach of the 256 rounds.
  lemma Finish(pt: int -> Point, sk: int)
    requires 0 < sk < N
    ensures Sum(pt, sk, 256) == Some(pt(sk))
  {
    Order();
    hide Pow2, Low;
    LowAll(sk, 256);
  }
}
