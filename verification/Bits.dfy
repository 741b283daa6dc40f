/** The shift-and-mask arithmetic of the hash table, on unbounded naturals.
    `BitAnd` and `Shr` are the C operators `&` and `>>` on unsigned operands. */
module Bits {

  function Pow2(k: nat): (r: nat)
    ensures r > 0
  {
    if k == 0 then 1 else 2 * Pow2(k - 1)
  }

  /** Bitwise and, bit by bit from the lowest. */
  function BitAnd(a: nat, b: nat): nat {
    if a == 0 || b == 0 then 0
    else 2 * BitAnd(a / 2, b / 2) + (if a % 2 == 1 && b % 2 == 1 then 1 else 0)
  }

  /** Logical shift right, one bit at a time. */
  function Shr(a: nat, k: nat): nat {
    if k == 0 then a else Shr(a / 2, k - 1)
  }

  lemma DivModPow(h: nat, m: nat)
    requires m > 0
    ensures h / (2 * m) == h / 2 / m
    ensures h % (2 * m) == 2 * (h / 2 % m) + h % 2
  {
    var q, r := h / 2 / m, h / 2 % m;
    assert h == 2 * (q * m + r) + h % 2;
    DivModUnique(h, 2 * m, q, 2 * r + h % 2);
  }

  lemma BigMultiple(d: int, m: nat)
    requires d != 0
    ensures d * m >= m || d * m <= -(m as int)
  {
  }

  lemma MulMonotone(x: nat, y: nat, m: nat)
    requires x <= y
    ensures x * m <= y * m
  {
  }

  lemma DivModUnique(h: nat, m: nat, q: nat, r: nat)
    requires r < m
    requires h == q * m + r
    ensures h / m == q && h % m == r
  {
    var q', r' := h / m, h % m;
    assert h == m * q' + r' && r' < m;
    assert (q' - q) * m == r - r';
    if q' != q { BigMultiple(q' - q, m); }
  }

  lemma BitAndStep(h: nat, m: nat)
    requires m > 0
    ensures BitAnd(h, 2 * m - 1) == 2 * BitAnd(h / 2, m - 1) + h % 2
  {
  }

  /** HASH_TO_BKT's mask is a remainder whenever the bucket count is a power of two. */
  lemma {:induction false} MaskIsMod(h: nat, k: nat)
    ensures BitAnd(h, Pow2(k) - 1) == h % Pow2(k)
  {
    if k > 0 {
      BitAndStep(h, Pow2(k - 1));
      MaskIsMod(h / 2, k - 1);
      DivModPow(h, Pow2(k - 1));
    }
  }

  lemma {:induction false} ShrIsDiv(n: nat, k: nat)
    ensures Shr(n, k) == n / Pow2(k)
  {
    if k > 0 {
      ShrIsDiv(n / 2, k - 1);
      DivModPow(n, Pow2(k - 1));
    }
  }

  /** `c` is the least integer not below `n / b`. */
  ghost predicate IsCeil(c: nat, n: nat, b: nat) {
    c * b >= n && forall d: nat :: d * b >= n ==> c <= d
  }

  /** ceil(n/b) as the macro writes it: a shift, plus one when the masked remainder is not zero. */
  function CeilByShift(n: nat, lb: nat): nat {
    Shr(n, lb) + if BitAnd(n, Pow2(lb) - 1) != 0 then 1 else 0
  }

  lemma CeilFromParts(n: nat, q: nat, r: nat, b: nat)
    requires r < b
    requires n == q * b + r
    ensures IsCeil(if r == 0 then q else q + 1, n, b)
  {
  }

  lemma DivModParts(n: nat, b: nat)
    requires b > 0
    ensures n == n / b * b + n % b && n % b < b
  {
  }

  lemma CeilByShiftIsCeil(n: nat, lb: nat)
    ensures IsCeil(CeilByShift(n, lb), n, Pow2(lb))
  {
    ShrIsDiv(n, lb);
    MaskIsMod(n, lb);
    var b := Pow2(lb);
    var q, r := n / b, n % b;
    DivModParts(n, b);
    CeilFromParts(n, q, r, b);
  }

  lemma CeilUnique(c: nat, d: nat, n: nat, b: nat)
    requires IsCeil(c, n, b) && IsCeil(d, n, b)
    ensures c == d
  {
  }

  /** The ceiling computed from a count that is one short is right exactly when the short count is no
      multiple of the divisor; otherwise it is one too small. */
  lemma CeilOneShort(n: nat, lb: nat)
    ensures IsCeil(CeilByShift(n, lb), n + 1, Pow2(lb)) <==> n % Pow2(lb) != 0
    ensures n % Pow2(lb) == 0 ==> IsCeil(CeilByShift(n, lb) + 1, n + 1, Pow2(lb))
  {
    hide IsCeil, Shr, BitAnd, Pow2;
    ShrIsDiv(n, lb);
    MaskIsMod(n, lb);
    var b := Pow2(lb);
    var q, r := n / b, n % b;
    DivModParts(n, b);
    if r + 1 < b {
      CeilFromParts(n + 1, q, r + 1, b);
    } else {
      assert n + 1 == (q + 1) * b + 0;
      CeilFromParts(n + 1, q + 1, 0, b);
    }
    if r == 0 && IsCeil(q, n + 1, b) { CeilUnique(q, q + 1, n + 1, b); }
  }

  /** `x` shifted left by `k`. */
  function Doubled(x: nat, k: nat): nat {
    if k == 0 then x else 2 * Doubled(x, k - 1)
  }

  /** A shifted mask picks the same bits of a shifted number. */
  lemma {:induction false} MaskShifted(a: nat, b: nat, k: nat)
    ensures BitAnd(a, Doubled(b, k)) == Doubled(BitAnd(Shr(a, k), b), k)
  {
    if k > 0 {
      MaskShifted(a / 2, b, k - 1);
      assert Doubled(b, k) / 2 == Doubled(b, k - 1);
    }
  }

  lemma TwelveTimes(x: nat)
    ensures Doubled(x, 12) == 0x1000 * x
  {
    assert Doubled(x, 1) == 2 * x;
    assert Doubled(x, 3) == 8 * x;
    assert Doubled(x, 5) == 32 * x;
    assert Doubled(x, 7) == 128 * x;
    assert Doubled(x, 9) == 512 * x;
    assert Doubled(x, 11) == 2048 * x;
  }

  /** The mask 0xF000 picks the fourth hexadecimal digit. */
  lemma DigitMask(a: nat)
    ensures BitAnd(a, 0xF000) == 0x1000 * (a / 0x1000 % 16)
  {
    hide Shr, BitAnd, Doubled;
    TwelveTimes(15);
    TwelveTimes(BitAnd(Shr(a, 12), 15));
    MaskShifted(a, 15, 12);
    ShrIsDiv(a, 12);
    MaskIsMod(a / 0x1000, 4);
    assert Pow2(4) == 16 && Pow2(8) == 256 && Pow2(12) == 0x1000;
  }

  lemma SplitParts(h: nat, n: nat, half: nat, odd: bool, r: nat)
    requires r < n
    requires h == (if odd then 2 * half + 1 else 2 * half) * n + r
    ensures h % (2 * n) == if odd then r + n else r
    ensures h % n == r
  {
    DivModUnique(h, n, if odd then 2 * half + 1 else 2 * half, r);
    assert 2 * half * n == half * (2 * n);
    assert (2 * half + 1) * n == half * (2 * n) + n;
    DivModUnique(h, 2 * n, half, if odd then r + n else r);
  }

  /** Doubling the bucket count leaves an item in bucket `i` or sends it to `i + n`. */
  lemma SplitBucket(h: nat, n: nat)
    requires n > 0
    ensures h % (2 * n) == h % n || h % (2 * n) == h % n + n
    ensures h % n < n && h % (2 * n) < 2 * n
  {
    DivModParts(h, n);
    var q, r := h / n, h % n;
    SplitParts(h, n, q / 2, q % 2 == 1, r);
  }
}
