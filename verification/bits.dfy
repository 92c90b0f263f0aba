/** Shifts, masks and single bits of unsigned machine words, on plain numbers. */
module Bits {
  function Pow2(k: nat): (r: nat)
    ensures r > 0
  {
    if k == 0 then 1 else 2 * Pow2(k - 1)
  }

  function And(a: nat, b: nat): (r: nat)
    ensures r <= a && r <= b
  {
    if a == 0 || b == 0 then 0
    else (if a % 2 == 1 && b % 2 == 1 then 1 else 0) + 2 * And(a / 2, b / 2)
  }

  function Or(a: nat, b: nat): nat
    decreases a + b
  {
    if a == 0 then b else if b == 0 then a
    else (if a % 2 == 1 || b % 2 == 1 then 1 else 0) + 2 * Or(a / 2, b / 2)
  }

  function Shr(a: nat, k: nat): nat {
    var p := Pow2(k);
    assert a == (a / p) * p + a % p;
    MultipleOutside(a / p, p);
    a / p
  }

  /** A left shift in a 32-bit register drops what leaves it. */
  function Shl32(a: nat, k: nat): nat { a * Pow2(k) % 0x1_0000_0000 }

  lemma Shl32Fits(a: nat, k: nat)
    requires a * Pow2(k) < 0x1_0000_0000
    ensures Shl32(a, k) == a * Pow2(k)
  {
  }

  /** Masking with a power of two minus one is the remainder. */
  lemma {:induction false} AndMask(n: nat, k: nat)
    ensures And(n, Pow2(k) - 1) == n % Pow2(k)
  {
    if k > 0 {
      var p := Pow2(k - 1);
      AndMask(n / 2, k - 1);
      AndOdd(n, p - 1);
      HalfMod(n, p);
    }
  }

  lemma AndOdd(n: nat, m: nat)
    ensures And(n, 2 * m + 1) == n % 2 + 2 * And(n / 2, m)
  {
    var b := 2 * m + 1;
    assert b / 2 == m && b % 2 == 1;
  }

  lemma HalfMod(n: nat, p: nat)
    requires p > 0
    ensures n % (2 * p) == n % 2 + 2 * (n / 2 % p)
  {
    var q, r := n / 2 / p, n / 2 % p;
    assert n / 2 == q * p + r;
    assert n == q * (2 * p) + (n % 2 + 2 * r);
    ModUnique(n, q, n % 2 + 2 * r, 2 * p);
  }

  lemma MultipleOutside(k: int, d: int)
    requires d > 0
    ensures k >= 1 ==> k * d >= d
    ensures k <= -1 ==> k * d <= -d
  {
  }

  lemma ModUnique(x: nat, q: nat, r: nat, d: nat)
    requires d > 0 && r < d && x == q * d + r
    ensures x / d == q && x % d == r
  {
    var q', r' := x / d, x % d;
    assert x == q' * d + r';
    assert (q' - q) * d == q' * d - q * d;
    MultipleOutside(q' - q, d);
  }

  lemma WrapParts(x: nat, k: nat, d: nat, q: nat, r: nat, q': nat, r': nat)
    requires r' < d && x == q * d + r && r + k == q' * d + r'
    ensures (r + k) % d == r' && (x + k) % d == r'
  {
    assert (q + q') * d == q * d + q' * d;
    ModUnique(x + k, q + q', r', d);
    ModUnique(r + k, q', r', d);
  }

  /** Reducing a sum once more changes nothing. */
  lemma WrapTwice(x: nat, k: nat, d: nat)
    requires d > 0
    ensures (x % d + k) % d == (x + k) % d
  {
    var q, r := Divided(x, d);
    var q', r' := Divided(r + k, d);
    WrapParts(x, k, d, q, r, q', r');
    ModUnique(x, q, r, d);
  }

  /** A shifted number and one that fits below it are joined by `|` as by `+`. */
  lemma {:induction false} OrDisjoint(high: nat, low: nat, k: nat)
    requires low < Pow2(k)
    ensures Or(high * Pow2(k), low) == high * Pow2(k) + low
  {
    if k > 0 {
      var h := high * Pow2(k - 1);
      assert high * Pow2(k) == 2 * h by { Scaled(high, Pow2(k - 1), 2); }
      OrDisjoint(high, low / 2, k - 1);
      OrHalves(h, low);
    }
  }

  lemma Scaled(x: nat, p: nat, c: nat)
    ensures x * (c * p) == c * (x * p)
  {
  }

  lemma OrHalves(h: nat, low: nat)
    requires Or(h, low / 2) == h + low / 2
    ensures Or(2 * h, low) == 2 * h + low
  {
    assert (2 * h) / 2 == h && (2 * h) % 2 == 0;
  }

  lemma {:induction false} Pow2Add(a: nat, b: nat)
    ensures Pow2(a + b) == Pow2(a) * Pow2(b)
  {
    if a > 0 {
      Pow2Add(a - 1, b);
      Scaled(Pow2(b), Pow2(a - 1), 2);
      assert Pow2(a) == 2 * Pow2(a - 1);
    }
  }

  /** Two digits stay below the product of their bases. */
  lemma DigitsBelow(t: nat, q: nat, r: nat, p: nat)
    requires t < q && r < p
    ensures t * p + r < q * p
  {
    assert (q - t) * p == q * p - t * p;
    MultipleOutside(q - t, p);
  }

  lemma Regroup(z: nat, q: nat, t: nat, p: nat, r: nat)
    ensures (z * q + t) * p + r == z * (q * p) + (t * p + r)
  {
    assert (z * q + t) * p == z * q * p + t * p;
    assert z * q * p == z * (q * p);
  }

  lemma ProductPositive(p: nat, q: nat)
    requires p > 0 && q > 0
    ensures p * q == q * p > 0
  {
    MultipleOutside(q, p);
  }

  lemma DivDiv(x: nat, p: nat, q: nat)
    requires p > 0 && q > 0
    ensures p * q > 0 && x / (p * q) == x / p / q
  {
    ProductPositive(p, q);
    var y, r := Divided(x, p);
    var z, t := Divided(y, q);
    DivDivFrom(x, p, q, y, r, z, t);
  }

  lemma Divided(x: nat, p: nat) returns (y: nat, r: nat)
    requires p > 0
    ensures y == x / p && r < p && x == y * p + r
  {
    r := x % p;
    assert x == x / p * p + r;
    MultipleOutside(x / p, p);
    y := x / p;
  }

  lemma DivDivFrom(x: nat, p: nat, q: nat, y: nat, r: nat, z: nat, t: nat)
    requires r < p && x == y * p + r && t < q && y == z * q + t && p * q > 0
    ensures x / (p * q) == z
  {
    var d, low := q * p, t * p + r;
    DigitsBelow(t, q, r, p);
    Regroup(z, q, t, p, r);
    ModUnique(x, z, low, d);
  }

  // ---- Single bits ----

  predicate Bit(a: nat, i: nat) {
    if i == 0 then a % 2 == 1 else Bit(a / 2, i - 1)
  }

  /** The number of zero bits below the lowest one bit. */
  function TrailingZeros(a: nat): nat
    requires a > 0
  {
    if a % 2 == 1 then 0 else 1 + TrailingZeros(a / 2)
  }

  lemma {:induction false} BitAnd(a: nat, b: nat, i: nat)
    ensures Bit(And(a, b), i) <==> Bit(a, i) && Bit(b, i)
  {
    if a == 0 || b == 0 {
      NoBits(i);
    } else if i > 0 {
      BitAnd(a / 2, b / 2, i - 1);
      assert And(a, b) / 2 == And(a / 2, b / 2);
    }
  }

  lemma {:induction false} NoBits(i: nat)
    ensures !Bit(0, i)
  {
    if i > 0 { NoBits(i - 1); }
  }

  lemma {:induction false} BitOr(a: nat, b: nat, i: nat)
    ensures Bit(Or(a, b), i) <==> Bit(a, i) || Bit(b, i)
    decreases i
  {
    if a == 0 || b == 0 {
      NoBits(i);
    } else {
      OrParts(a, b);
      if i > 0 { BitOr(a / 2, b / 2, i - 1); }
    }
  }

  lemma OrParts(a: nat, b: nat)
    requires a > 0 && b > 0
    ensures Or(a, b) / 2 == Or(a / 2, b / 2) && (Or(a, b) % 2 == 1 <==> a % 2 == 1 || b % 2 == 1)
  {
    var bit: nat, rest := if a % 2 == 1 || b % 2 == 1 then 1 else 0, Or(a / 2, b / 2);
    assert Or(a, b) == bit + 2 * rest;
  }

  lemma {:induction false} BitPow2(k: nat, i: nat)
    ensures Bit(Pow2(k), i) <==> i == k
  {
    if k == 0 {
      if i > 0 { NoBits(i - 1); }
    } else if i > 0 {
      BitPow2(k - 1, i - 1);
      assert Pow2(k) / 2 == Pow2(k - 1);
    }
  }

  /** Complement within a word of `n` bits. */
  lemma {:induction false} BitNot(a: nat, n: nat, i: nat)
    requires a < Pow2(n)
    ensures Bit(Pow2(n) - 1 - a, i) <==> i < n && !Bit(a, i)
  {
    if n == 0 {
      NoBits(i);
    } else {
      assert (Pow2(n) - 1 - a) % 2 == 1 - a % 2 && (Pow2(n) - 1 - a) / 2 == Pow2(n - 1) - 1 - a / 2;
      if i > 0 { BitNot(a / 2, n - 1, i - 1); }
    }
  }

  lemma {:induction false} HighBits(a: nat, n: nat, i: nat)
    requires a < Pow2(n) && n <= i
    ensures !Bit(a, i)
  {
    if n == 0 { NoBits(i); } else { HighBits(a / 2, n - 1, i - 1); }
  }

  /** The lowest one bit is where the trailing zeros end. */
  lemma {:induction false} LowestBit(a: nat, i: nat)
    requires a > 0
    ensures Bit(a, TrailingZeros(a)) && (i < TrailingZeros(a) ==> !Bit(a, i))
  {
    if a % 2 == 0 { LowestBit(a / 2, if i > 0 then i - 1 else 0); }
  }

  /** Subtracting one flips the lowest one bit and everything below it. */
  lemma {:induction false} BitPred(a: nat, i: nat)
    requires a > 0
    ensures Bit(a - 1, i) <==> i < TrailingZeros(a) || (i > TrailingZeros(a) && Bit(a, i))
  {
    if a % 2 == 1 {
      assert (a - 1) / 2 == a / 2;
    } else {
      assert (a - 1) / 2 == a / 2 - 1;
      if i > 0 { BitPred(a / 2, i - 1); }
    }
  }

  /** `a & (a - 1)` is `a` without its lowest one bit. */
  lemma ClearLowest(a: nat, i: nat)
    requires a > 0
    ensures Bit(And(a, a - 1), i) <==> Bit(a, i) && i != TrailingZeros(a)
  {
    BitAnd(a, a - 1, i);
    BitPred(a, i);
    LowestBit(a, i);
  }

  /** Testing a bit with a mask. */
  lemma {:induction false} AndPow2(a: nat, k: nat)
    ensures And(a, Pow2(k)) == if Bit(a, k) then Pow2(k) else 0
  {
    if a == 0 {
      NoBits(k);
    } else if k == 0 {
      assert And(a / 2, 0) == 0;
    } else {
      AndPow2(a / 2, k - 1);
      assert Pow2(k) / 2 == Pow2(k - 1) && Pow2(k) % 2 == 0;
    }
  }
}
