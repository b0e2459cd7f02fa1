/** The mask arithmetic of boost/align, on unsigned numbers of `w` bits. */
module Align {

  function Pow2(k: nat): (r: nat)
    ensures r > 0
  {
    if k == 0 then 1 else 2 * Pow2(k - 1)
  }

  /** Bitwise and. */
  function And(a: nat, b: nat): nat {
    if a == 0 || b == 0 then 0 else (a % 2) * (b % 2) + 2 * And(a / 2, b / 2)
  }

  /** Bitwise complement in `w` bits. */
  function Not(a: nat, w: nat): nat
    requires a < Pow2(w)
  {
    Pow2(w) - 1 - a
  }

  predicate IsAligned(value: nat, alignment: nat)
    requires alignment > 0
  {
    And(value, alignment - 1) == 0
  }

  function AlignDown(value: nat, alignment: nat, w: nat): nat
    requires 0 < alignment <= Pow2(w)
  {
    And(value, Not(alignment - 1, w))
  }

  function AlignUp(value: nat, alignment: nat, w: nat): nat
    requires 0 < alignment <= Pow2(w)
  {
    And((value + (alignment - 1)) % Pow2(w), Not(alignment - 1, w))
  }

  // ---- Masks are remainders ----

  lemma {:induction false} ProductAtLeast(m: nat, d: nat)
    requires d >= 1
    ensures m * d >= m
  {
    if d > 1 {
      ProductAtLeast(m, d - 1);
      assert m * d == m * (d - 1) + m;
    }
  }

  lemma ProductStep(m: nat, a: nat, b: nat)
    requires a < b
    ensures m * b >= m * a + m
  {
    ProductAtLeast(m, b - a);
    assert m * b == m * a + m * (b - a);
  }

  lemma QuotientUnique(m: nat, q: nat, r: nat, q': nat, r': nat)
    requires m * q + r == m * q' + r' && r < m && r' < m
    ensures q == q' && r == r'
  {
    if q < q' {
      ProductStep(m, q, q');
    } else if q' < q {
      ProductStep(m, q', q);
    }
  }

  lemma RemainderUnique(x: nat, m: nat, q: nat, r: nat)
    requires m > 0 && x == m * q + r && r < m
    ensures x % m == r && x / m == q
  {
    QuotientUnique(m, q, r, x / m, x % m);
  }

  /** The remainder, by a name that can be hidden from the solver. */
  function Rem(x: nat, m: nat): nat
    requires m > 0
  {
    x % m
  }

  lemma HalfRem(x: nat, m: nat)
    requires m > 0
    ensures Rem(x, 2 * m) == x % 2 + 2 * Rem(x / 2, m)
  {
    HalfRemainder(x, m);
  }

  lemma HalfRemainder(x: nat, m: nat)
    requires m > 0
    ensures x % (2 * m) == x % 2 + 2 * ((x / 2) % m)
  {
    var q, r := (x / 2) / m, (x / 2) % m;
    assert x / 2 == m * q + r;
    assert (2 * m) * q == 2 * (m * q);
    RemainderUnique(x, 2 * m, q, x % 2 + 2 * r);
  }

  lemma Pow2Halves(k: nat)
    requires k > 0
    ensures Pow2(k) == 2 * Pow2(k - 1)
  {
  }

  lemma {:induction false} AndLowRem(x: nat, k: nat)
    ensures And(x, Pow2(k) - 1) == Rem(x, Pow2(k))
  {
    hide *;
    if k == 0 {
      AndZero(x);
    } else {
      Pow2Halves(k);
      var low := Pow2(k - 1);
      AndLowRem(x / 2, k - 1);
      HalfRem(x, low);
      AndOdd(x, low - 1);
      assert 2 * (low - 1) + 1 == Pow2(k) - 1;
    }
  }

  /** A low mask keeps the remainder. */
  lemma AndLowMask(x: nat, k: nat)
    ensures And(x, Pow2(k) - 1) == x % Pow2(k)
  {
    AndLowRem(x, k);
    hide And, Pow2;
  }

  lemma AndZero(x: nat)
    ensures And(x, Pow2(0) - 1) == Rem(x, Pow2(0))
  {
  }

  lemma HalfOfOdd(half: nat)
    ensures (2 * half + 1) / 2 == half && (2 * half + 1) % 2 == 1
  {
  }

  lemma HalfOfEven(half: nat)
    ensures (2 * half) / 2 == half && (2 * half) % 2 == 0
  {
  }

  lemma AndUnfolds(x: nat, y: nat)
    ensures And(x, y) == (x % 2) * (y % 2) + 2 * And(x / 2, y / 2)
  {
  }

  lemma AndOdd(x: nat, half: nat)
    ensures And(x, 2 * half + 1) == x % 2 + 2 * And(x / 2, half)
  {
    hide *;
    HalfOfOdd(half);
    AndUnfolds(x, 2 * half + 1);
    assert (x % 2) * 1 == x % 2;
  }

  lemma Pow2Monotone(a: nat, b: nat)
    requires a <= b
    ensures Pow2(a) <= Pow2(b)
  {
    if a < b {
      Pow2Monotone(a, b - 1);
    }
  }

  lemma RemOfSmall(x: nat, m: nat)
    requires x < m
    ensures Rem(x, m) == x
  {
    RemainderUnique(x, m, 0, x);
  }

  lemma RemByOne(x: nat)
    ensures Rem(x, Pow2(0)) == 0
  {
  }

  lemma AndAll(x: nat, w: nat)
    requires x < Pow2(w)
    ensures And(x, Pow2(w) - Pow2(0)) == x - Rem(x, Pow2(0))
  {
    assert Pow2(0) == 1;
    hide *;
    AndLowRem(x, w);
    RemOfSmall(x, Pow2(w));
    RemByOne(x);
  }

  lemma {:induction false} AndHighRem(x: nat, k: nat, w: nat)
    requires k <= w && x < Pow2(w)
    ensures Pow2(k) <= Pow2(w)
    ensures And(x, Pow2(w) - Pow2(k)) == x - Rem(x, Pow2(k))
  {
    hide *;
    Pow2Monotone(k, w);
    if k == 0 {
      AndAll(x, w);
    } else {
      Pow2Halves(k);
      Pow2Halves(w);
      AndHighRem(x / 2, k - 1, w - 1);
      HalfRem(x, Pow2(k - 1));
      AndEven(x, Pow2(w - 1) - Pow2(k - 1));
    }
  }

  /** A high mask takes the remainder away. */
  lemma AndHighMask(x: nat, k: nat, w: nat)
    requires k <= w && x < Pow2(w)
    ensures Pow2(k) <= Pow2(w)
    ensures And(x, Pow2(w) - Pow2(k)) == x - x % Pow2(k)
  {
    AndHighRem(x, k, w);
    hide And, Pow2;
  }

  lemma AndEven(x: nat, half: nat)
    ensures And(x, 2 * half) == 2 * And(x / 2, half)
  {
    hide *;
    HalfOfEven(half);
    AndUnfolds(x, 2 * half);
    assert (x % 2) * 0 == 0;
  }

  // ---- What the functions compute ----

  /** `is_aligned` is divisibility. */
  lemma IsAlignedExactly(value: nat, k: nat)
    ensures IsAligned(value, Pow2(k)) <==> value % Pow2(k) == 0
  {
    AndLowMask(value, k);
  }

  /** `align_down` is the greatest multiple not above the value. */
  lemma AlignDownExactly(value: nat, k: nat, w: nat)
    requires k <= w && value < Pow2(w)
    ensures Pow2(k) <= Pow2(w)
    ensures var r := AlignDown(value, Pow2(k), w); r % Pow2(k) == 0 && r <= value < r + Pow2(k)
  {
    AndHighMask(value, k, w);
    assert Not(Pow2(k) - 1, w) == Pow2(w) - Pow2(k);
    assert AlignDown(value, Pow2(k), w) == value - value % Pow2(k);
    hide *;
    MultipleBelow(value, Pow2(k));
  }

  lemma MultipleBelow(x: nat, m: nat)
    requires m > 0
    ensures (x - x % m) % m == 0 && 0 <= x - x % m <= x < x - x % m + m
  {
    assert x - x % m == m * (x / m) + 0;
    RemainderUnique(x - x % m, m, x / m, 0);
  }

  /** `align_up` is the least multiple not below the value, and it is so exactly when
      adding the mask does not overflow; otherwise it is zero. */
  lemma AlignUpExactly(value: nat, k: nat, w: nat)
    requires k <= w && value < Pow2(w)
    ensures Pow2(k) <= Pow2(w)
    ensures var r := AlignUp(value, Pow2(k), w);
            && (value <= r <==> value + Pow2(k) - 1 < Pow2(w))
            && (value <= r ==> r % Pow2(k) == 0 && r < value + Pow2(k))
            && (r < value ==> r == 0)
  {
    Pow2Monotone(k, w);
    hide *;
    if value + Pow2(k) - 1 < Pow2(w) {
      AlignUpInRange(value, k, w);
    } else {
      AlignUpOverflows(value, k, w);
    }
  }

  lemma AlignUpInRange(value: nat, k: nat, w: nat)
    requires k <= w && value + Pow2(k) - 1 < Pow2(w)
    ensures Pow2(k) <= Pow2(w)
    ensures var r := AlignUp(value, Pow2(k), w); r % Pow2(k) == 0 && value <= r < value + Pow2(k)
  {
    var m, sum := Pow2(k), value + (Pow2(k) - 1);
    AndHighMask(sum, k, w);
    RemOfSmall(sum, Pow2(w));
    assert Not(m - 1, w) == Pow2(w) - m;
    assert AlignUp(value, m, w) == sum - sum % m;
    hide *;
    MultipleBelow(sum, m);
  }

  lemma AlignUpOverflows(value: nat, k: nat, w: nat)
    requires k <= w && value < Pow2(w) <= value + Pow2(k) - 1
    ensures Pow2(k) <= Pow2(w)
    ensures value > 0 && AlignUp(value, Pow2(k), w) == 0
  {
    Pow2Monotone(k, w);
    var m, sum := Pow2(k), value + (Pow2(k) - 1);
    var wrapped := sum - Pow2(w);
    AndHighMask(wrapped, k, w);
    RemOfSmall(wrapped, m);
    RemainderUnique(sum, Pow2(w), 1, wrapped);
    assert Not(m - 1, w) == Pow2(w) - m;
    hide And, Pow2;
  }

  /** The largest odd value has no multiple of two above it: `align_up` answers zero. */
  lemma AlignUpCanWrap(w: nat)
    requires w >= 1
    ensures Pow2(1) == 2 <= Pow2(w)
    ensures AlignUp(Pow2(w) - 1, 2, w) == 0 < Pow2(w) - 1
  {
    Pow2Monotone(1, w);
    assert Pow2(1) == 2 * Pow2(0);
    AlignUpExactly(Pow2(w) - 1, 1, w);
  }

  /** The three agree on what is aligned. */
  lemma AlignmentAgrees(value: nat, k: nat, w: nat)
    requires k <= w && value + Pow2(k) - 1 < Pow2(w)
    ensures Pow2(k) <= Pow2(w)
    ensures IsAligned(value, Pow2(k)) <==> AlignUp(value, Pow2(k), w) == value
    ensures IsAligned(value, Pow2(k)) <==> AlignDown(value, Pow2(k), w) == value
    ensures IsAligned(AlignUp(value, Pow2(k), w), Pow2(k)) && IsAligned(AlignDown(value, Pow2(k), w), Pow2(k))
  {
    Pow2Monotone(k, w);
    AlignUpExactly(value, k, w);
    AlignDownExactly(value, k, w);
    IsAlignedExactly(value, k);
    var up, down := AlignUp(value, Pow2(k), w), AlignDown(value, Pow2(k), w);
    IsAlignedExactly(up, k);
    IsAlignedExactly(down, k);
    if value % Pow2(k) == 0 {
      NoMultipleBetween(value, up, Pow2(k));
      NoMultipleBetween(down, value, Pow2(k));
    }
  }

  lemma NoMultipleBetween(a: nat, b: nat, m: nat)
    requires m > 0 && a % m == 0 && b % m == 0 && a <= b < a + m
    ensures a == b
  {
    var p, q := a / m, b / m;
    assert a == m * p && b == m * q;
    if p < q {
      ProductStep(m, p, q);
    } else if q < p {
      ProductStep(m, q, p);
    }
  }
}
