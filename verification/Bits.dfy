/**
 Bit fields of 16-bit instruction words (rosette/h/Ob.h, rosette/h/Opcode.h).

 A word is a natural number below 2^16.  `SetField` keeps the exact meaning of
 the C++ template: the field is cleared and the *unmasked* value is or-ed in, so
 an oversized value spills into the neighbouring fields.
 */
module Bits {

  const WORD: nat := 65536

  function Pow2(n: nat): (p: nat)
    ensures p >= 1
  {
    if n == 0 then 1 else 2 * Pow2(n - 1)
  }

  function BitOr(a: nat, b: nat): nat
    decreases a + b
  {
    if a == 0 && b == 0 then 0
    else (if a % 2 == 1 || b % 2 == 1 then 1 else 0) + 2 * BitOr(a / 2, b / 2)
  }

  // a << n
  function Shl(a: nat, n: nat): nat {
    if n == 0 then a else 2 * Shl(a, n - 1)
  }

  // a >> n
  function Shr(a: nat, n: nat): nat
    decreases a, n
  {
    if n == 0 then a else Shr(a / 2, n - 1)
  }

  // a & MASK_RANGE(0, n)
  function Low(a: nat, n: nat): (r: nat)
    ensures r < Pow2(n)
    decreases a, n
  {
    if n == 0 then 0 else a % 2 + 2 * Low(a / 2, n - 1)
  }

  // get_field<uint16_t>(x, i, wid)
  function GetField(x: nat, i: nat, wid: nat): nat {
    Low(Shr(x, i), wid)
  }

  // x & ~MASK_RANGE(i, i + wid)
  function Cleared(x: nat, i: nat, wid: nat): nat {
    Shl(Shl(Shr(Shr(x, i), wid), wid), i) + Low(x, i)
  }

  // set_field<uint16_t>(&x, i, wid, val)
  function SetField(x: nat, i: nat, wid: nat, val: nat): nat {
    BitOr(Cleared(x, i, wid), Shl(val, i)) % WORD
  }

  lemma {:induction false} OrZero(a: nat)
    ensures BitOr(a, 0) == a
    decreases a
  {
    if a != 0 {
      OrZero(a / 2);
    }
  }

  // Or-ing a multiple of 2^k with a number below 2^k adds them.
  lemma {:induction false} OrDisjoint(hi: nat, lo: nat, k: nat)
    requires lo < Pow2(k)
    ensures BitOr(Shl(hi, k), lo) == Shl(hi, k) + lo
    decreases k
  {
    if k == 0 {
      OrZero(hi);
    } else {
      OrDisjoint(hi, lo / 2, k - 1);
    }
  }

  // Bits below the shift are untouched by the or.
  lemma {:induction false} OrShifted(a: nat, b: nat, lo: nat, i: nat)
    requires lo < Pow2(i)
    ensures BitOr(Shl(a, i) + lo, Shl(b, i)) == Shl(BitOr(a, b), i) + lo
    decreases i
  {
    if i != 0 {
      OrShifted(a, b, lo / 2, i - 1);
    }
  }

  lemma {:induction false} ShlAdd(a: nat, b: nat, n: nat)
    ensures Shl(a + b, n) == Shl(a, n) + Shl(b, n)
    decreases n
  {
    if n != 0 {
      ShlAdd(a, b, n - 1);
    }
  }

  // A value that fits its field is stored by plain addition.
  lemma SetInRange(x: nat, i: nat, wid: nat, val: nat)
    requires val < Pow2(wid)
    ensures SetField(x, i, wid, val) == (Cleared(x, i, wid) + Shl(val, i)) % WORD
  {
    hide Shl, Shr, BitOr, Low, Pow2;
    OrField(Shr(Shr(x, i), wid), wid, val, i, Low(x, i));
  }

  lemma OrField(hi: nat, wid: nat, val: nat, i: nat, lo: nat)
    requires val < Pow2(wid) && lo < Pow2(i)
    ensures BitOr(Shl(Shl(hi, wid), i) + lo, Shl(val, i)) == Shl(Shl(hi, wid), i) + lo + Shl(val, i)
  {
    OrShifted(Shl(hi, wid), val, lo, i);
    OrDisjoint(hi, val, wid);
    ShlAdd(Shl(hi, wid), val, i);
  }

  // Shifting or masking by m + n bits is doing it by m and then by n.
  lemma {:induction false} Compose(a: nat, m: nat, n: nat)
    ensures Shl(a, m + n) == Shl(Shl(a, n), m)
    ensures Shr(a, m + n) == Shr(Shr(a, m), n)
    ensures Low(a, m + n) == Low(a, m) + Shl(Low(Shr(a, m), n), m)
    ensures Pow2(m + n) == Shl(Pow2(n), m)
    decreases m
  {
    if m != 0 {
      Compose(a / 2, m - 1, n);
      Compose(a, m - 1, n);
    }
  }

  // Closed forms for the shifts and widths of the instruction formats.
  ghost predicate Closed(a: nat, n: nat, p: nat)
    requires p > 0
  {
    Shl(a, n) == p * a && Shr(a, n) == a / p && Low(a, n) == a % p && Pow2(n) == p
  }

  lemma ClosedTo4(a: nat)
    ensures Closed(a, 0, 1) && Closed(a, 1, 2) && Closed(a, 3, 8) && Closed(a, 4, 16)
  {
    ClosedTo2(a);
    Compose(a, 2, 1);
    ClosedTo2(a / 4); ClosedTo2(2 * a); ClosedTo2(a / 4 % 2); ClosedTo2(2);
    Compose(a, 2, 2);
    ClosedTo2(4 * a); ClosedTo2(a / 4 % 4); ClosedTo2(4);
  }

  lemma ClosedTo2(a: nat)
    ensures Closed(a, 0, 1) && Closed(a, 1, 2) && Closed(a, 2, 4)
  {
    assert Shr(a / 2, 1) == Shr(a / 2 / 2, 0) == a / 4;
    assert Low(a / 2, 1) == a / 2 % 2;
    assert Shl(a, 1) == 2 * a;
  }

  lemma ClosedTo8(a: nat)
    ensures Closed(a, 8, 256)
  {
    Compose(a, 4, 4);
    ClosedTo4(a);
    ClosedTo4(a / 16);
    ClosedTo4(16 * a);
    ClosedTo4(a / 16 % 16);
    ClosedTo4(16);
  }

  lemma ClosedTo9(a: nat)
    ensures Closed(a, 9, 512)
  {
    Compose(a, 8, 1);
    ClosedTo8(a); ClosedTo8(2 * a); ClosedTo8(2); ClosedTo8(a / 256 % 2);
    ClosedTo4(a); ClosedTo4(a / 256);
  }

  lemma ClosedTo10(a: nat)
    ensures Closed(a, 10, 1024)
  {
    Compose(a, 9, 1);
    ClosedTo9(a); ClosedTo9(2 * a); ClosedTo9(2); ClosedTo9(a / 512 % 2);
    ClosedTo4(a); ClosedTo4(a / 512);
  }

  lemma ClosedTo11(a: nat)
    ensures Closed(a, 11, 2048)
  {
    Compose(a, 8, 3);
    ClosedTo8(a); ClosedTo8(8 * a); ClosedTo8(8); ClosedTo8(a / 256 % 8);
    ClosedTo4(a); ClosedTo4(a / 256);
  }

  lemma ClosedTo16(a: nat)
    ensures Closed(a, 16, 65536)
  {
    Compose(a, 8, 8);
    ClosedTo8(a); ClosedTo8(256 * a); ClosedTo8(256); ClosedTo8(a / 256 % 256);
    ClosedTo8(a / 256);
  }

  // The bit positions and widths that occur in the instruction formats, with their powers of two.
  ghost predicate Position(n: nat, p: nat) {
    (n, p) in {(0, 1), (1, 2), (3, 8), (4, 16), (8, 256), (9, 512), (10, 1024), (11, 2048), (16, 65536)}
  }

  lemma ClosedAt(a: nat, n: nat, p: nat)
    requires Position(n, p)
    ensures p > 0 && Closed(a, n, p)
  {
    if n <= 4 {
      ClosedTo4(a);
    } else if n == 8 {
      ClosedTo8(a);
    } else if n == 9 {
      ClosedTo9(a);
    } else if n == 10 {
      ClosedTo10(a);
    } else if n == 11 {
      ClosedTo11(a);
    } else {
      ClosedTo16(a);
    }
  }

  // get_field in closed form.
  lemma Get(x: nat, i: nat, wid: nat, p: nat, q: nat)
    requires Position(i, p) && Position(wid, q)
    ensures p > 0 && q > 0 && GetField(x, i, wid) == x / p % q
  {
    ClosedAt(x, i, p);
    ClosedAt(x / p, wid, q);
  }

  // set_field in closed form, for a value that fits a field of width wid = log2 q at i = log2 p.
  lemma Set(x: nat, i: nat, wid: nat, val: nat, p: nat, q: nat)
    requires Position(i, p) && Position(wid, q) && val < q
    ensures p > 0 && SetField(x, i, wid, val) == (p * (q * (x / p / q)) + x % p + p * val) % WORD
  {
    ClosedAt(x, i, p);
    ClosedAt(x / p, wid, q);
    ClosedAt(x / p / q, wid, q);
    ClosedAt(q * (x / p / q), i, p);
    ClosedAt(val, i, p);
    SetInRange(x, i, wid, val);
  }
}
