/** Powers of two and bitwise conjunction on natural numbers. */
module Bits {

  function Pow2(n: nat): (p: nat)
    ensures 1 <= p
  {
    if n == 0 then 1 else 2 * Pow2(n - 1)
  }

  /** Bitwise AND, bit by bit from the least significant end. */
  function And(x: nat, y: nat): (r: nat)
    ensures r <= x && r <= y
  {
    if x == 0 || y == 0 then 0 else 2 * And(x / 2, y / 2) + Bit(x % 2, y % 2)
  }

  /** AND of two bits. */
  function Bit(a: nat, b: nat): (r: nat)
    ensures r <= 1 && (a <= 1 && b <= 1 ==> r <= a && r <= b)
  {
    if a == 1 && b == 1 then 1 else 0
  }

  /** Bitwise OR, by inclusion and exclusion of the bits. */
  function Or(x: nat, y: nat): nat {
    x + y - And(x, y)
  }

  lemma {:induction false} Pow2Add(a: nat, b: nat)
    ensures Pow2(a + b) == Pow2(a) * Pow2(b)
  {
    if a == 0 {
    } else {
      Pow2Add(a - 1, b);
      assert Pow2(a + b) == 2 * (Pow2(a - 1) * Pow2(b));
    }
  }

  lemma {:induction false} Pow2Monotone(a: nat, b: nat)
    requires a <= b
    ensures Pow2(a) <= Pow2(b)
    ensures a < b ==> 2 * Pow2(a) <= Pow2(b)
    decreases b - a
  {
    if a < b {
      Pow2Monotone(a + 1, b);
    }
  }

  lemma Pow2Bytes()
    ensures Pow2(1) == 2 && Pow2(2) == 4 && Pow2(3) == 8 && Pow2(4) == 16
    ensures Pow2(5) == 32 && Pow2(6) == 64 && Pow2(7) == 128 && Pow2(8) == 256
  {
    assert Pow2(3) == 8;
    assert Pow2(6) == 64;
  }

  /** Multiplying by a power of two and adding a smaller rest can be undone. */
  lemma DivMod(a: nat, m: nat, r: nat)
    requires r < m
    ensures (a * m + r) / m == a && (a * m + r) % m == r
  {
    var x := a * m + r;
    assert x == (x / m) * m + x % m;
    assert (x / m - a) * m == r - x % m;
    MulStrict(x / m - a, m);
  }

  lemma MulStrict(d: int, m: int)
    requires 0 < m
    ensures 0 < d ==> m <= d * m
    ensures d < 0 ==> d * m <= -m
  {
  }

  lemma {:induction false} AndCommutes(x: nat, y: nat)
    ensures And(x, y) == And(y, x)
  {
    if x != 0 && y != 0 {
      AndCommutes(x / 2, y / 2);
    }
  }

  /** One unrolling of And that also covers a zero operand. */
  lemma AndStep(x: nat, y: nat)
    ensures And(x, y) == 2 * And(x / 2, y / 2) + Bit(x % 2, y % 2)
  {
  }

  /** AndStep on numbers given by their last bit and the rest. */
  lemma AndDigits(v: nat, a: nat, b: nat, w: nat, c: nat, d: nat)
    requires v == 2 * a + b && w == 2 * c + d && b < 2 && d < 2
    ensures And(v, w) == 2 * And(a, c) + Bit(b, d)
  {
    assert v / 2 == a && v % 2 == b && w / 2 == c && w % 2 == d;
    hide And;
    AndStep(v, w);
  }

  lemma DoubleProduct(a: nat, p: nat)
    ensures a * (2 * p) == 2 * (a * p)
  {
  }

  /** AndDigits on numbers given by an even part and the rest. */
  lemma AndHalves(v: nat, x: nat, b: nat, w: nat, y: nat, d: nat)
    requires v == 2 * x + b && w == 2 * y + d
    ensures And(v, w) == 2 * And(x + b / 2, y + d / 2) + Bit(b % 2, d % 2)
  {
    AndDigits(v, x + b / 2, b % 2, w, y + d / 2, d % 2);
  }

  /** AND works separately on the low k bits and on the bits above them. */
  lemma AndSplit(k: nat, a: nat, b: nat, c: nat, d: nat)
    requires b < Pow2(k) && d < Pow2(k)
    ensures And(a * Pow2(k) + b, c * Pow2(k) + d) == And(a, c) * Pow2(k) + And(b, d)
  {
    AndSplitShifted(k, a, b, c, d);
  }

  function Shifted(a: nat, k: nat): nat {
    a * Pow2(k)
  }

  lemma ShiftedTwice(a: nat, k: nat)
    requires 0 < k
    ensures Shifted(a, k) == 2 * Shifted(a, k - 1)
  {
    DoubleProduct(a, Pow2(k - 1));
  }

  lemma {:induction false} AndSplitShifted(k: nat, a: nat, b: nat, c: nat, d: nat)
    requires b < Pow2(k) && d < Pow2(k)
    ensures And(Shifted(a, k) + b, Shifted(c, k) + d) == Shifted(And(a, c), k) + And(b, d)
    decreases k
  {
    if k == 0 {
    } else {
      hide And, Shifted;
      AndSplitShifted(k - 1, a, b / 2, c, d / 2);
      ShiftedTwice(a, k);
      ShiftedTwice(c, k);
      ShiftedTwice(And(a, c), k);
      AndHalves(Shifted(a, k) + b, Shifted(a, k - 1), b, Shifted(c, k) + d, Shifted(c, k - 1), d);
      AndStep(b, d);
    }
  }

  lemma {:induction false} AndSelf(x: nat)
    ensures And(x, x) == x
  {
    if x == 0 {
    } else {
      AndSelf(x / 2);
    }
  }

  lemma {:induction false} AndAllOnes(x: nat, n: nat)
    requires x < Pow2(n)
    ensures And(x, Pow2(n) - 1) == x
    decreases n
  {
    if n == 0 {
    } else {
      AndAllOnes(x / 2, n - 1);
      AndDigits(x, x / 2, x % 2, Pow2(n) - 1, Pow2(n - 1) - 1, 1);
    }
  }

  /** The mask with ones in the bits k to n - 1. */
  function HighMask(n: nat, k: nat): (m: nat)
    requires k <= n
  {
    Pow2Monotone(k, n);
    Pow2(n) - Pow2(k)
  }

  /** Rounding down to a multiple of 2^k, by clearing the low k bits. */
  function Floor(x: nat, k: nat): (r: nat)
    ensures r <= x
  {
    if k == 0 then x else 2 * Floor(x / 2, k - 1)
  }

  /** One unrolling of Floor on a number given by its last bit and the rest. */
  lemma FloorDigits(v: nat, q: nat, r: nat, k: nat)
    requires v == 2 * q + r && r < 2 && 0 < k
    ensures Floor(v, k) == 2 * Floor(q, k - 1)
  {
  }

  lemma {:induction false} FloorParts(q: nat, r: nat, k: nat)
    requires r < Pow2(k)
    ensures Floor(q * Pow2(k) + r, k) == q * Pow2(k)
    decreases k
  {
    if k == 0 {
    } else {
      var x := q * Pow2(k - 1);
      DoubleProduct(q, Pow2(k - 1));
      FloorParts(q, r / 2, k - 1);
      FloorDigits(q * Pow2(k) + r, x + r / 2, r % 2, k);
    }
  }

  /** Floor is division and multiplication by 2^k. */
  lemma FloorIsQuotient(x: nat, k: nat)
    ensures Floor(x, k) == x / Pow2(k) * Pow2(k)
  {
    var q, r := Divide(x, Pow2(k));
    FloorParts(q, r, k);
  }

  lemma Divide(x: nat, m: nat) returns (q: nat, r: nat)
    requires 0 < m
    ensures q == x / m && x == q * m + r && r < m
  {
    q, r := x / m, x % m;
  }

  /** Rounding down leaves alone what lies below the cleared bits' boundary. */
  lemma {:induction false} FloorSplit(p: nat, r: nat, j: nat, k: nat)
    requires r < Pow2(j)
    ensures Floor(p * Pow2(j) + r, j + k) == Floor(p, k) * Pow2(j)
    decreases j
  {
    if j == 0 {
    } else {
      var x := p * Pow2(j - 1);
      DoubleProduct(p, Pow2(j - 1));
      DoubleProduct(Floor(p, k), Pow2(j - 1));
      FloorSplit(p, r / 2, j - 1, k);
      FloorDigits(p * Pow2(j) + r, x + r / 2, r % 2, j + k);
    }
  }

  lemma {:induction false} FloorZeroTest(x: nat, k: nat)
    ensures Floor(x, k) == 0 <==> x < Pow2(k)
  {
    if k == 0 {
    } else {
      FloorZeroTest(x / 2, k - 1);
    }
  }

  lemma {:induction false} FloorAdd(a: nat, m: nat, b: nat, k: nat)
    requires k <= m
    ensures Floor(a * Pow2(m) + b, k) == a * Pow2(m) + Floor(b, k)
    decreases k
  {
    if k == 0 {
    } else {
      var x := a * Pow2(m - 1);
      DoubleProduct(a, Pow2(m - 1));
      FloorAdd(a, m - 1, b / 2, k - 1);
      FloorDigits(a * Pow2(m) + b, x + b / 2, b % 2, k);
      FloorDigits(b, b / 2, b % 2, k);
    }
  }

  /** Masking with ones above bit k rounds down to a multiple of 2^k. */
  lemma {:induction false} AndHighMask(x: nat, n: nat, k: nat)
    requires k <= n && x < Pow2(n)
    ensures And(x, HighMask(n, k)) == Floor(x, k)
    decreases k
  {
    if k == 0 {
      AndAllOnes(x, n);
    } else {
      AndHighMask(x / 2, n - 1, k - 1);
      AndDigits(x, x / 2, x % 2, HighMask(n, k), HighMask(n - 1, k - 1), 0);
    }
  }

  /** Clearing the low bits of all ones leaves the mask. */
  lemma {:induction false} FloorAllOnes(n: nat, k: nat)
    requires k <= n
    ensures Floor(Pow2(n) - 1, k) == HighMask(n, k)
    decreases k
  {
    if k == 0 {
    } else {
      FloorAllOnes(n - 1, k - 1);
    }
  }

  /** The result of a mask keeps nothing outside the mask. */
  lemma {:induction false} AndIdempotent(x: nat, m: nat)
    ensures And(And(x, m), m) == And(x, m)
  {
    if x != 0 && m != 0 {
      AndIdempotent(x / 2, m / 2);
      var r := Bit(x % 2, m % 2);
      AndDigits(And(x, m), And(x / 2, m / 2), r, m, m / 2, m % 2);
    }
  }

  /** Bit i of a number, counted from the least significant end. */
  function Nth(x: nat, i: nat): (b: nat)
    ensures b <= 1
  {
    if i == 0 then x % 2 else Nth(x / 2, i - 1)
  }

  /** A bit of the conjunction is set exactly when it is set in both numbers. */
  lemma {:induction false} AndBits(x: nat, y: nat, i: nat)
    ensures Nth(And(x, y), i) == 1 <==> Nth(x, i) == 1 && Nth(y, i) == 1
    decreases i
  {
    var r := And(x, y);
    AndStep(x, y);
    assert r / 2 == And(x / 2, y / 2) && r % 2 == Bit(x % 2, y % 2);
    hide And;
    if i == 0 {
    } else {
      AndBits(x / 2, y / 2, i - 1);
    }
  }

  /** The mask is ones shifted into place. */
  lemma HighMaskIsShifted(n: nat, k: nat)
    requires k <= n
    ensures HighMask(n, k) == (Pow2(n - k) - 1) * Pow2(k)
  {
    Pow2Add(n - k, k);
    LessOne(Pow2(n - k), Pow2(k));
  }

  lemma LessOne(a: nat, b: nat)
    ensures (a - 1) * b == a * b - b
  {
  }
}
