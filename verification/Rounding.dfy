module Rounding {
  // Rounding half up as the decimals a reader sees (geodetic_engine/geodesy/_rounding.py).
  //
  // The reference rounds a decimal form of the double exactly and reads the result back as a
  // double. The fast branch multiplies, floors and divides in doubles. Wherever the code
  // takes it, it gives the reference's double, for every decimal form that reads back.

  import opened Doubles
  import opened Numbers
  import opened Options

  const EXACT_POWER := 22
  const MAX_DECIMALS := 400
  const FAST_LIMIT: real := 2251799813685248.0             // 2 to the 51
  const TIE_MARGIN: real := 1.0 / 70368744177664.0         // 2 to the -46
  const HIGHEST: real := 10000000000000000000000.0         // 10 to the 22

  function Ten(d: nat): (t: real)
    ensures t >= 1.0
  {
    if d == 0 then 1.0 else 10.0 * Ten(d - 1)
  }

  lemma {:induction false} TenAtMost(d: nat)
    requires d <= EXACT_POWER
    ensures Ten(d) * Ten(EXACT_POWER - d) == HIGHEST && Ten(d) <= HIGHEST
  {
    hide Ten;
    if d == 0 {
      TenNext(0);
      TopTen();
    } else {
      TenAtMost(d - 1);
      TenNext(d - 1);
      TenNext(EXACT_POWER - d);
      var a, b := Ten(d), Ten(EXACT_POWER - d);
      Regrouped(Ten(d - 1), b);
      assert a * b == HIGHEST;
      AtMost(a, b);
    }
  }

  lemma TenNext(d: nat)
    ensures Ten(0) == 1.0 && Ten(d + 1) == 10.0 * Ten(d)
  {}

  lemma Regrouped(a: real, b: real)
    ensures (10.0 * a) * b == a * (10.0 * b)
  {}

  lemma FourTens(d: nat)
    ensures Ten(d + 4) == 10000.0 * Ten(d)
  {
    TenNext(d);
    TenNext(d + 1);
    TenNext(d + 2);
    TenNext(d + 3);
    hide Ten;
  }

  lemma TopTen()
    ensures Ten(EXACT_POWER) == HIGHEST
  {
    hide Ten;
    TenNext(0);
    TenNext(1);
    FourTens(2);
    FourTens(6);
    FourTens(10);
    FourTens(14);
    FourTens(18);
  }

  lemma AtMost(x: real, y: real)
    requires x >= 1.0 && y >= 1.0
    ensures x <= x * y
  {}

  function Times(x: real, s: real): (r: real)
    requires s >= 1.0
    ensures x >= 0.0 ==> r >= 0.0
  {
    if x >= 0.0 then
      Positive(x, s);
      x * s
    else x * s
  }

  /** 10.0 ** decimals. */
  function Scale(d: nat): (s: real)
    ensures s >= 1.0
  {
    Ten(d)
  }

  // ----- the fast branch

  /** Whether a product is farther from a tie than the margin, in doubles. */
  predicate IsFar(u: Units, product: real)
    requires product >= 0.0
  {
    var fraction := Rn(u, product - product.Floor as real);
    Rn(u, Distance(fraction, 0.5)) > Rn(u, product * TIE_MARGIN)
  }

  function Product(u: Units, x: real, d: nat): (p: real)
    requires x >= 0.0
    ensures p >= 0.0
  {
    Rn(u, Times(x, Scale(d)))
  }

  predicate IsFast(u: Units, x: real, d: nat)
    requires x >= 0.0
  {
    d <= EXACT_POWER && Product(u, x, d) < FAST_LIMIT && IsFar(u, Product(u, x, d))
  }

  /** The floor of a product and a half. */
  function Whole(u: Units, product: real): (n: int)
    requires product >= 0.0
    ensures n >= 0
  {
    Rn(u, product + 0.5).Floor
  }

  function Quotient(u: Units, n: int, d: nat): (r: real)
    requires n >= 0
    ensures r >= 0.0
  {
    Rn(u, n as real / Scale(d))
  }

  function Fast(u: Units, x: real, d: nat): (r: real)
    requires x >= 0.0
    ensures r >= 0.0
  {
    Quotient(u, Whole(u, Product(u, x, d)), d)
  }

  /** The decimal form rounded, and read back as a double. */
  function Exact(u: Units, shown: real, d: nat): (r: real)
    requires shown >= 0.0
    ensures r >= 0.0
  {
    Quotient(u, (Times(shown, Scale(d)) + 0.5).Floor, d)
  }

  // ----- what the reference is

  function Tens(d: nat): (t: nat)
    ensures t > 0
  {
    if d == 0 then 1 else 10 * Tens(d - 1)
  }

  /** A decimal in units of the d-th. */
  function InUnits(x: real, d: nat): real {
    x * Tens(d) as real
  }

  /** So many units of the d-th decimal. */
  function OfUnits(k: nat, d: nat): (x: real)
    ensures x >= 0.0
  {
    WholeOver(k, Tens(d) as real);
    k as real / Tens(d) as real
  }

  lemma WholeOver(k: nat, t: real)
    requires t > 0.0
    ensures k as real / t >= 0.0
  {}

  /** A decimal rounds to k of the last decimal kept: it is less than half of one from it, or half of one below. */
  ghost predicate IsHalfUp(shown: real, d: nat, k: nat) {
    k as real - 0.5 <= InUnits(shown, d) < k as real + 0.5
  }

  /** r is the double nearest to the decimal, rounded half up to d decimals. */
  ghost predicate RoundsHalfUp(u: Units, shown: real, d: nat, r: real) {
    exists k: nat :: IsHalfUp(shown, d, k) && IsNearest(u, OfUnits(k, d), r)
  }

  lemma {:induction false} TenIsTens(d: nat)
    ensures Ten(d) == Tens(d) as real
  {
    if d > 0 {
      TenIsTens(d - 1);
    }
  }

  lemma HalfUpFloor(x: real)
    requires x >= 0.0
    ensures (x + 0.5).Floor >= 0 && (x + 0.5).Floor as real - 0.5 <= x < (x + 0.5).Floor as real + 0.5
  {}

  lemma ExactMeans(u: Units, shown: real, d: nat)
    requires shown >= 0.0
    ensures InUnits(shown, d) >= 0.0
    ensures var k := (InUnits(shown, d) + 0.5).Floor; k >= 0 && Exact(u, shown, d) == Rn(u, OfUnits(k, d))
  {
    hide *;
    TimesMeans(shown, d);
    HalfUpFloor(InUnits(shown, d));
    ExactIsQuotient(u, shown, d);
    QuotientMeans(u, (InUnits(shown, d) + 0.5).Floor, d);
  }

  lemma TimesMeans(x: real, d: nat)
    requires x >= 0.0
    ensures Times(x, Scale(d)) == InUnits(x, d) >= 0.0
  {
    TenIsTens(d);
    hide Ten, Tens;
  }

  lemma ExactIsQuotient(u: Units, shown: real, d: nat)
    requires shown >= 0.0 && (Times(shown, Scale(d)) + 0.5).Floor >= 0
    ensures Exact(u, shown, d) == Quotient(u, (Times(shown, Scale(d)) + 0.5).Floor, d)
  {
    hide Times, Scale, Quotient;
  }

  lemma QuotientMeans(u: Units, n: nat, d: nat)
    ensures Quotient(u, n, d) == Rn(u, OfUnits(n, d))
  {
    TenIsTens(d);
    hide Rn, Ten, Tens;
  }

  lemma ExactIsHalfUp(u: Units, shown: real, d: nat)
    requires shown >= 0.0
    ensures RoundsHalfUp(u, shown, d, Exact(u, shown, d))
  {
    ExactMeans(u, shown, d);
    var k := (InUnits(shown, d) + 0.5).Floor;
    HalfUpFloor(InUnits(shown, d));
    RnIsTheNearest(u, OfUnits(k, d));
    hide Exact, Rn, InUnits, OfUnits, IsNearest;
    assert IsHalfUp(shown, d, k);
  }

  /** The decimal has no more than d decimals: it is k of the last. */
  ghost predicate IsWhole(shown: real, d: nat, k: nat) {
    InUnits(shown, d) == k as real
  }

  /** A decimal with no more than d decimals is no other once rounded. */
  lemma ExactKeeps(u: Units, shown: real, d: nat, k: nat)
    requires IsWhole(shown, d, k) && shown >= 0.0
    ensures Exact(u, shown, d) == Rn(u, shown)
  {
    WholeFloor(k);
    UnitsUndone(shown, d, k);
    hide InUnits, OfUnits, Exact, Rn;
    ExactMeans(u, shown, d);
  }

  lemma UnitsUndone(shown: real, d: nat, k: nat)
    requires InUnits(shown, d) == k as real
    ensures OfUnits(k, d) == shown
  {
    Undone(shown, Tens(d) as real, k as real);
    hide Tens;
  }

  lemma WholeFloor(k: nat)
    ensures (k as real + 0.5).Floor == k
  {}

  lemma Undone(x: real, t: real, y: real)
    requires t > 0.0 && x * t == y
    ensures x == y / t
  {}

  /** |x - y| <= b scaled by s. */
  lemma Scaled(x: real, y: real, b: real, s: real)
    requires s > 0.0 && Distance(x, y) <= b
    ensures Distance(x * s, y * s) <= b * s
  {
    assert (x - y) * s == x * s - y * s && (y - x) * s == y * s - x * s;
    if x < y {
      Positive(b - (y - x), s);
      assert (b - (y - x)) * s == b * s - (y - x) * s;
    } else {
      Positive(b - (x - y), s);
      assert (b - (x - y)) * s == b * s - (x - y) * s;
    }
    SameOrder(x, y, s);
  }

  lemma Positive(x: real, s: real)
    requires x >= 0.0 && s > 0.0
    ensures x * s >= 0.0
  {}

  lemma SameOrder(x: real, y: real, s: real)
    requires s > 0.0
    ensures x < y <==> x * s < y * s
  {}

  /** The least double is lost beside any power of ten the fast branch uses. */
  lemma TinyScaled(u: Units, s: real)
    requires 1.0 <= s <= HIGHEST
    ensures 0.0 < 0.5 / u as real <= 0.5 / u as real * s <= EPSILON / 1000.0
  {
    var t := 0.5 / u as real;
    assert t * u as real == 0.5;
    var v := u as real - LARGE as real;
    assert t > 0.0 && v >= 0.0;
    assert t * (LARGE as real + v) == t * LARGE as real + t * v;
    Positive(v, t);
    assert t * LARGE as real <= 0.5;
    Positive(HIGHEST - s, t);
    assert (HIGHEST - s) * t == HIGHEST * t - s * t;
    AtMostScaled(t, s);
  }

  lemma AtMostScaled(t: real, s: real)
    requires t > 0.0 && s >= 1.0
    ensures t <= t * s
  {}

  /** The product is near the decimal scaled exactly. */
  lemma ProductNear(exact: real, scaled: real, product: real, tiny: real, tiny': real)
    requires exact >= 0.0 && scaled >= 0.0 && product >= 0.0 && 0.0 < tiny <= tiny' <= EPSILON / 1000.0
    requires Distance(scaled, exact) <= exact * EPSILON + tiny'
    requires Distance(product, scaled) <= scaled * EPSILON + tiny
    ensures Distance(product, exact) <= 3.0 * EPSILON * product + 3.0 * tiny'
  {}

  /** A product the guard lets through is farther from a tie than all the errors together. */
  lemma FarFromTie(product: real, part: real, fraction: real, far: real, limit: real, tiny: real, tiny': real)
    requires product >= 0.25 && 0.0 <= part < 1.0 && 0.0 < tiny <= tiny' <= EPSILON / 1000.0
    requires Distance(fraction, part) <= part * EPSILON + tiny
    requires Distance(far, Distance(fraction, 0.5)) <= Distance(fraction, 0.5) * EPSILON + tiny
    requires Distance(limit, product * TIE_MARGIN) <= product * TIE_MARGIN * EPSILON + tiny
    requires far > limit
    ensures Distance(part, 0.5) > 3.0 * EPSILON * product + 3.0 * tiny' + (product + 0.5) * EPSILON + tiny
  {
    var near := Distance(fraction, 0.5);
    assert near <= Distance(part, 0.5) + EPSILON + tiny;
    assert far <= near + 0.6 * EPSILON + tiny;
    assert limit >= 127.0 * EPSILON * product - tiny;
  }

  /** Two values within a drift of one farther than that from a tie floor alike. */
  lemma FloorAlike(whole: int, part: real, value: real, drift: real)
    requires 0.0 <= part < 1.0 && Distance(part, 0.5) > drift >= 0.0
    requires Distance(value, whole as real + part + 0.5) <= drift
    ensures value.Floor == if part < 0.5 then whole else whole + 1
  {
    if part < 0.5 {
      assert whole as real <= value < whole as real + 1.0;
    } else {
      assert whole as real + 1.0 <= value < whole as real + 2.0;
      assert (whole + 1) as real == whole as real + 1.0;
    }
  }

  /** All the errors of the fast branch at once: the decimal scaled, exactly, and the product
      have the same half-up floor, even after the sum with a half is rounded. */
  lemma SameHalfUp(exact: real, scaled: real, product: real, fraction: real, far: real, limit: real, sum: real,
                   tiny: real, tiny': real)
    requires exact >= 0.0 && scaled >= 0.0 && product >= 0.0 && 0.0 < tiny <= tiny' <= EPSILON / 1000.0
    requires Distance(scaled, exact) <= exact * EPSILON + tiny'
    requires Distance(product, scaled) <= scaled * EPSILON + tiny
    requires var part := product - product.Floor as real; Distance(fraction, part) <= part * EPSILON + tiny
    requires Distance(far, Distance(fraction, 0.5)) <= Distance(fraction, 0.5) * EPSILON + tiny
    requires Distance(limit, product * TIE_MARGIN) <= product * TIE_MARGIN * EPSILON + tiny
    requires Distance(sum, product + 0.5) <= (product + 0.5) * EPSILON + tiny
    requires far > limit && sum >= 0.0
    ensures sum.Floor == (exact + 0.5).Floor
  {
    var part := product - product.Floor as real;
    ProductNear(exact, scaled, product, tiny, tiny');
    if product < 0.25 {
      assert 0.0 <= exact + 0.5 < 1.0 && 0.0 <= sum < 1.0;
    } else {
      var drift := 3.0 * EPSILON * product + 3.0 * tiny' + (product + 0.5) * EPSILON + tiny;
      FarFromTie(product, part, fraction, far, limit, tiny, tiny');
      FloorAlike(product.Floor, part, exact + 0.5, drift);
      FloorAlike(product.Floor, part, sum, drift);
    }
  }

  lemma FloorsAgree(u: Units, exact: real, scaled: real, tiny': real)
    requires exact >= 0.0 && scaled >= 0.0 && 0.0 < 0.5 / u as real <= tiny' <= EPSILON / 1000.0
    requires Distance(scaled, exact) <= exact * EPSILON + tiny'
    requires IsFar(u, Rn(u, scaled))
    ensures Whole(u, Rn(u, scaled)) == (exact + 0.5).Floor
  {
    hide Rn;
    var product := Rn(u, scaled);
    var part := product - product.Floor as real;
    var fraction := Rn(u, part);
    RnError(u, scaled);
    RnError(u, part);
    RnError(u, Distance(fraction, 0.5));
    RnError(u, product * TIE_MARGIN);
    RnError(u, product + 0.5);
    SameHalfUp(exact, scaled, product, fraction, Rn(u, Distance(fraction, 0.5)), Rn(u, product * TIE_MARGIN),
               Rn(u, product + 0.5), 0.5 / u as real, tiny');
  }

  lemma ScaledFacts(u: Units, x: real, shown: real, s: real)
    requires x >= 0.0 && shown >= 0.0 && Rn(u, shown) == x && 1.0 <= s <= HIGHEST
    ensures 0.0 < 0.5 / u as real <= Times(0.5 / u as real, s) <= EPSILON / 1000.0
    ensures Distance(Times(x, s), Times(shown, s)) <= Times(shown, s) * EPSILON + Times(0.5 / u as real, s)
  {
    hide Rn, Distance;
    TinyScaled(u, s);
    ScaledError(u, x, shown, s);
  }

  /** Where the fast branch is taken, it gives the reference's double: whatever decimal form
      of the double is rounded, if only it reads back as the double. */
  lemma FastIsReference(u: Units, x: real, shown: real, d: nat)
    requires x >= 0.0 && shown >= 0.0 && Rn(u, shown) == x
    requires IsFast(u, x, d)
    ensures Fast(u, x, d) == Exact(u, shown, d)
  {
    TenAtMost(d);
    assert Scale(d) <= HIGHEST;
    hide Rn, Scale, Times, IsFar, Whole, Quotient, Distance;
    ScaledFacts(u, x, shown, Scale(d));
    FloorsAgree(u, Times(shown, Scale(d)), Times(x, Scale(d)), Times(0.5 / u as real, Scale(d)));
  }

  lemma ScaledError(u: Units, x: real, shown: real, s: real)
    requires x >= 0.0 && shown >= 0.0 && Rn(u, shown) == x && s > 0.0
    ensures Distance(x * s, shown * s) <= shown * s * EPSILON + 0.5 / u as real * s
  {
    var tiny := 0.5 / u as real;
    hide Rn;
    RnError(u, shown);
    Scaled(x, shown, shown * EPSILON + tiny, s);
    assert (shown * EPSILON + tiny) * s == shown * s * EPSILON + tiny * s;
  }

  // ----- powers of ten up to the 22nd are doubles

  function Five(d: nat): (f: nat)
    ensures f > 0
  {
    if d == 0 then 1 else 5 * Five(d - 1)
  }

  lemma {:induction false} FiveGrows(d: nat, e: nat)
    requires d <= e
    ensures Five(d) <= Five(e)
    decreases e
  {
    if d < e {
      FiveGrows(d, e - 1);
    }
  }

  lemma {:induction false} TenInParts(d: nat)
    ensures Ten(d) == (Five(d) * Pow2(d)) as real
  {
    if d > 0 {
      TenInParts(d - 1);
      assert Five(d) * Pow2(d) == 10 * (Five(d - 1) * Pow2(d - 1));
    }
  }

  lemma {:induction false} DoubledIsCount(n: nat, k: nat)
    requires IsCount(n)
    ensures IsCount(n * Pow2(k))
  {
    if k > 0 {
      DoubledIsCount(n, k - 1);
      var m := n * Pow2(k - 1);
      assert n * Pow2(k) == 2 * m;
      assert 2 * m % 2 == 0 && 2 * m / 2 == m;
    } else {
      assert n * Pow2(0) == n;
    }
  }

  /** The counts that are doubles are those of 53 bits, doubled any number of times. */
  ghost predicate HasSignificand(n: nat, m: nat, k: nat) {
    m < 9007199254740992 && n == m * Pow2(k)
  }

  lemma {:induction false} CountExactly(n: nat)
    ensures IsCount(n) <==> exists m: nat, k: nat :: HasSignificand(n, m, k)
  {
    if m: nat, k: nat :| HasSignificand(n, m, k) {
      DoubledIsCount(m, k);
    }
    if IsCount(n) {
      if n < SIGNIFICANDS {
        assert n * Pow2(0) == n;
        assert HasSignificand(n, n, 0);
      } else {
        CountExactly(n / 2);
        var m: nat, k: nat :| HasSignificand(n / 2, m, k);
        assert m * Pow2(k + 1) == 2 * (m * Pow2(k));
        assert HasSignificand(n, m, k + 1);
      }
    }
  }

  /** The scale is exact, so dividing by it is correctly rounded. */
  lemma ScaleIsDouble(least: nat, d: nat)
    requires d <= EXACT_POWER && Pow2(least) >= LARGE
    ensures IsDouble(Pow2(least), Scale(d)) && Rn(Pow2(least), Scale(d)) == Scale(d)
  {
    ScaleIsCount(least, d);
    TenInParts(d);
    MultipleIsDouble(Pow2(least), Five(d) * Pow2(d), Scale(d));
  }

  lemma MultipleIsDouble(u: Units, m: nat, x: real)
    requires IsCount(m * u) && x == m as real
    ensures IsDouble(u, x) && Rn(u, x) == x
  {
    hide IsCount, Rn;
    OverUnits(m, u);
    RnKeepsDoubles(u, x);
  }

  lemma ScaleIsCount(least: nat, d: nat)
    requires d <= EXACT_POWER
    ensures IsCount(Five(d) * Pow2(d) * Pow2(least))
  {
    FiveIsSmall(d);
    assert IsCount(Five(d));
    hide IsCount, Five;
    Pow2Adds(d, least);
    DoubledIsCount(Five(d), d + least);
    Regroup(Five(d), Pow2(d), Pow2(least));
  }

  lemma Regroup(x: int, y: int, z: int)
    ensures x * (y * z) == x * y * z
  {}

  lemma FiveIsSmall(d: nat)
    requires d <= EXACT_POWER
    ensures Five(d) < SIGNIFICANDS
  {
    FiveGrows(d, 22);
    assert Five(11) == 48828125;
    assert Five(22) == 2384185791015625;
  }

  lemma OverUnits(m: nat, u: nat)
    requires u > 0
    ensures (m * u) as real / u as real == m as real
  {
    assert (m * u) as real == m as real * u as real;
  }

  // ----- arrays of floats

  type Size = x: real | x >= 0.0

  /** A float; a finite one by its sign and its size, so that -0.0 is told from 0.0. */
  datatype Float = NaN | Infinite(negative: bool) | Finite(negative: bool, size: Size)

  /** repr() shows a decimal that reads back as the double. */
  ghost predicate Shows(u: Units, repr: real -> Size) {
    forall x :: IsDouble(u, x) ==> Rn(u, repr(x)) == x
  }

  ghost predicate AreDoubles(u: Units, values: seq<Float>) {
    forall i :: 0 <= i < |values| && values[i].Finite? ==> IsDouble(u, values[i].size)
  }

  predicate TakesFast(u: Units, v: Float, d: nat) {
    v.Finite? && IsFast(u, v.size, d)
  }

  predicate TakesExact(u: Units, v: Float, d: nat) {
    v.Finite? && !IsFast(u, v.size, d)
  }

  function FastValue(u: Units, v: Float, d: nat): Float {
    if v.Finite? then Finite(v.negative, Fast(u, v.size, d)) else v
  }

  function ExactValue(u: Units, repr: real -> Size, v: Float, d: nat): Float {
    if v.Finite? then Finite(v.negative, Exact(u, repr(v.size), d)) else v
  }

  /** What adding 0.0 gives. */
  function Unsigned(v: Float): Float {
    if v.Finite? && v.size == 0.0 then Finite(false, 0.0) else v
  }

  /** The reference: each finite value by its decimal form, -0.0 as 0.0, others kept. */
  function Reference(u: Units, repr: real -> Size, v: Float, d: nat): Float {
    Unsigned(ExactValue(u, repr, v, d))
  }

  /** What a value is rounded to: the double nearest to its decimal, rounded half up; of its sign, but for zero,
      which has none; and what is not finite as it is. */
  ghost predicate IsRounded(u: Units, repr: real -> Size, v: Float, d: nat, w: Float) {
    if v.Finite? then
      && w.Finite? && RoundsHalfUp(u, repr(v.size), d, w.size)
      && (w.negative <==> v.negative && w.size > 0.0)
    else w == v
  }

  /** What has no more than d decimals comes back. */
  ghost predicate ComesBack(repr: real -> Size, v: Float, d: nat, w: Float) {
    v.Finite? && (exists k: nat :: IsWhole(repr(v.size), d, k)) ==> w.Finite? && w.size == v.size
  }

  lemma ReferenceIsRounded(u: Units, repr: real -> Size, v: Float, d: nat)
    requires Shows(u, repr) && (v.Finite? ==> IsDouble(u, v.size))
    ensures IsRounded(u, repr, v, d, Reference(u, repr, v, d)) && ComesBack(repr, v, d, Reference(u, repr, v, d))
  {
    if v.Finite? {
      assert Rn(u, repr(v.size)) == v.size;
      ExactIsHalfUp(u, repr(v.size), d);
      if k: nat :| IsWhole(repr(v.size), d, k) {
        ExactKeeps(u, repr(v.size), d, k);
      }
    }
    hide Exact, Rn, RoundsHalfUp, IsDouble, IsWhole, Shows;
  }

  lemma FastValueIsExact(u: Units, repr: real -> Size, v: Float, d: nat)
    requires Shows(u, repr) && (v.Finite? ==> IsDouble(u, v.size)) && TakesFast(u, v, d)
    ensures FastValue(u, v, d) == ExactValue(u, repr, v, d)
  {
    FastIsReference(u, v.size, repr(v.size), d);
  }

  /** Overwrite the values the mask names by the fast branch, then those of the other mask by
      the reference's own steps, then every value by its sum with 0.0. */
  method RoundInPlace(u: Units, repr: real -> Size, a: array<Float>, d: nat)
    requires Shows(u, repr) && AreDoubles(u, a[..])
    modifies a
    ensures forall i :: 0 <= i < a.Length ==> a[i] == Reference(u, repr, old(a[i]), d)
  {
    hide TakesFast, TakesExact, FastValue, ExactValue;
    ghost var was := a[..];
    var exact := new bool[a.Length](i requires 0 <= i < a.Length reads a => TakesExact(u, a[i], d));
    var fast := new bool[a.Length](i requires 0 <= i < a.Length reads a => TakesFast(u, a[i], d));
    ghost var exactly, fastly := exact[..], fast[..];
    for i := 0 to a.Length
      invariant exact[..] == exactly && fast[..] == fastly
      invariant forall j :: 0 <= j < a.Length ==>
        a[j] == if j < i && fastly[j] then ExactValue(u, repr, was[j], d) else was[j]
    {
      if fast[i] {
        FastValueIsExact(u, repr, was[i], d);
        a[i] := FastValue(u, a[i], d);
      }
    }
    for i := 0 to a.Length
      invariant exact[..] == exactly
      invariant forall j :: 0 <= j < a.Length ==>
        a[j] == if fastly[j] || (j < i && exactly[j]) then ExactValue(u, repr, was[j], d) else was[j]
    {
      if exact[i] {
        MasksAreDisjoint(u, was[i], d);
        a[i] := ExactValue(u, repr, a[i], d);
      }
    }
    forall j | 0 <= j < a.Length ensures a[j] == ExactValue(u, repr, was[j], d) {
      OthersAreKept(u, repr, was[j], d);
    }
    for i := 0 to a.Length
      invariant forall j :: 0 <= j < a.Length ==>
        a[j] == if j < i then Reference(u, repr, was[j], d) else ExactValue(u, repr, was[j], d)
    {
      a[i] := Unsigned(a[i]);
    }
  }

  lemma MasksAreDisjoint(u: Units, v: Float, d: nat)
    ensures !(TakesFast(u, v, d) && TakesExact(u, v, d))
  {}

  lemma OthersAreKept(u: Units, repr: real -> Size, v: Float, d: nat)
    ensures !TakesFast(u, v, d) && !TakesExact(u, v, d) ==> ExactValue(u, repr, v, d) == v
  {}

  /** A new array, each value rounded as the reference rounds it; None for decimals that are
      not a whole number from 0 to 400. */
  method RoundHalfUp(u: Units, repr: real -> Size, values: seq<Float>, decimals: int)
    returns (r: Option<array<Float>>)
    requires Shows(u, repr) && AreDoubles(u, values)
    ensures r.Some? <==> 0 <= decimals <= 400
    ensures r.Some? ==> r.value.Length == |values|
    ensures r.Some? ==> forall i :: 0 <= i < |values| ==> r.value[i] == Reference(u, repr, values[i], decimals)
    ensures r.Some? ==> forall i :: 0 <= i < |values| ==>
      IsRounded(u, repr, values[i], decimals, r.value[i]) && ComesBack(repr, values[i], decimals, r.value[i])
  {
    hide Reference, IsRounded, ComesBack;
    if decimals < 0 || decimals > MAX_DECIMALS {
      return None;
    }
    var out := new Float[|values|](i requires 0 <= i < |values| => values[i]);
    assert out[..] == values;
    RoundInPlace(u, repr, out, decimals);
    forall i | 0 <= i < |values|
      ensures IsRounded(u, repr, values[i], decimals, out[i]) && ComesBack(repr, values[i], decimals, out[i])
    {
      assert out[..][i] == out[i];
      ReferenceIsRounded(u, repr, values[i], decimals);
    }
    return Some(out);
  }
}
