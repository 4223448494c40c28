/** Round-to-nearest arithmetic on IEEE 754 doubles (section 4.3.1 of IEEE 754-2019),
    built from the integers: a double is counted in units of the least one.
    No value is too large: an overflow rounds here to a number no finite double reaches. */
module Doubles {
  import opened Numbers

  const SIGNIFICANDS := 0x20_0000_0000_0000          // 2 to the 53
  const EPSILON: real := 1.0 / 9007199254740992.0    // 2 to the -53
  const LARGE := 1000000000000000000000000000000000000000000000000     // 10 to the 48

  /** How many of the least double make one: 2 to the 1074, by LeastDouble below. */
  type Units = u: nat | u >= LARGE witness LARGE

  // ----- counts of units

  /** Counts that are doubles: a significand of 53 bits, doubled any number of times. */
  predicate IsCount(n: nat) {
    n < SIGNIFICANDS || (n % 2 == 0 && IsCount(n / 2))
  }

  function Nearest(z: real): (n: int)
    ensures -0.5 <= n as real - z <= 0.5
    ensures z >= 0.0 ==> n >= 0
  {
    var below := z.Floor;
    var part := z - below as real;
    if part < 0.5 || (part == 0.5 && below % 2 == 0) then below else below + 1
  }

  /** The double nearest to z, both in units; a tie goes to the even significand. */
  function RoundCount(z: real): (n: nat)
    requires z >= 0.0
    decreases z.Floor
  {
    if z < SIGNIFICANDS as real then Nearest(z) else 2 * RoundCount(z / 2.0)
  }

  function Distance(x: real, y: real): real {
    if x < y then y - x else x - y
  }

  lemma {:induction false} RoundCountError(z: real)
    requires z >= 0.0
    ensures Distance(RoundCount(z) as real, z) <= if z < SIGNIFICANDS as real then 0.5 else z * EPSILON
    decreases z.Floor
  {
    if z >= SIGNIFICANDS as real {
      RoundCountError(z / 2.0);
    }
  }

  lemma {:induction false} RoundCountIsCount(z: real)
    requires z >= 0.0
    ensures IsCount(RoundCount(z))
    decreases z.Floor
  {
    if z >= SIGNIFICANDS as real {
      RoundCountIsCount(z / 2.0);
    }
  }

  lemma Doubled(m: real, n: real, half: real, z: real)
    requires Distance(m, z / 2.0) <= Distance(half, z / 2.0)
    requires n == 2.0 * half || n <= 2.0 * half <= z
    ensures Distance(2.0 * m, z) <= Distance(n, z)
  {}

  /** No double is nearer. */
  lemma {:induction false} RoundCountIsNearest(z: real, n: nat)
    requires z >= 0.0 && IsCount(n)
    ensures Distance(RoundCount(z) as real, z) <= Distance(n as real, z)
    decreases z.Floor
  {
    if z >= SIGNIFICANDS as real {
      var half: nat := if n >= SIGNIFICANDS then n / 2 else SIGNIFICANDS / 2;
      assert IsCount(half) && (n >= SIGNIFICANDS ==> n == 2 * half);
      RoundCountIsNearest(z / 2.0, half);
      var m := RoundCount(z / 2.0);
      assert RoundCount(z) == 2 * m;
      Doubled(m as real, n as real, half as real, z);
      assert RoundCount(z) as real == 2.0 * m as real;
    } else {
      NearestIsNearest(z, n);
    }
  }

  lemma NearestIsNearest(z: real, n: int)
    ensures Distance(Nearest(z) as real, z) <= Distance(n as real, z)
  {
    var below := z.Floor;
    if n <= below {
      assert n as real <= below as real <= z;
    } else {
      assert n as real >= (below + 1) as real == below as real + 1.0 > z;
    }
    var m := Nearest(z) as real;
    assert m == below as real || m == below as real + 1.0;
    assert Distance(m, z) <= z - below as real && Distance(m, z) <= below as real + 1.0 - z;
  }

  // ----- doubles as reals

  ghost predicate IsDouble(u: Units, x: real) {
    x >= 0.0 && exists n: nat :: IsCount(n) && x == n as real / u as real
  }

  function Rounded(z: real): nat
    requires z >= 0.0
  {
    RoundCount(z)
  }

  /** A magnitude rounded to the nearest double. */
  function Rn(u: Units, x: real): (r: real)
    requires x >= 0.0
    ensures r >= 0.0
  {
    Rounded(x * u as real) as real / u as real
  }

  lemma DivideBound(a: real, b: real, u: real)
    requires u > 0.0 && a <= b
    ensures a / u <= b / u
  {}

  lemma OneScaled(n: real, x: real, u: real)
    requires u > 0.0
    ensures Distance(n / u, x) == Distance(n, x * u) / u
  {
    assert x * u / u == x;
    assert (n - x * u) / u == n / u - x && (x * u - n) / u == x - n / u;
    if n < x * u {
      DivideLess(n, x * u, u);
    } else {
      DivideBound(x * u, n, u);
    }
  }

  lemma DivideLess(a: real, b: real, u: real)
    requires u > 0.0 && a < b
    ensures a / u < b / u
  {}

  lemma ErrorUnscaled(n: real, x: real, u: real)
    requires u > 0.0 && Distance(n, x * u) <= x * u * EPSILON + 0.5
    ensures Distance(n / u, x) <= x * EPSILON + 0.5 / u
  {
    OneScaled(n, x, u);
    DivideBound(Distance(n, x * u), x * u * EPSILON + 0.5, u);
    Unscaled(x, u);
  }

  lemma Unscaled(x: real, u: real)
    requires u > 0.0
    ensures (x * u * EPSILON + 0.5) / u == x * EPSILON + 0.5 / u
  {
    assert x * u * EPSILON == x * EPSILON * u;
    assert (x * EPSILON * u + 0.5) / u == x * EPSILON + 0.5 / u;
  }

  /** The error of rounding: relative, and absolute where doubles are least. */
  lemma RnError(u: Units, x: real)
    requires x >= 0.0
    ensures Distance(Rn(u, x), x) <= x * EPSILON + 0.5 / u as real
  {
    hide RoundCount;
    RoundedClose(x * u as real);
    ErrorUnscaled(Rounded(x * u as real) as real, x, u as real);
  }

  lemma RoundedClose(z: real)
    requires z >= 0.0
    ensures Distance(Rounded(z) as real, z) <= z * EPSILON + 0.5
  {
    RoundCountError(z);
  }

  lemma CloserUnscaled(m: real, n: real, x: real, u: real)
    requires u > 0.0 && Distance(m, x * u) <= Distance(n, x * u)
    ensures Distance(m / u, x) <= Distance(n / u, x)
  {
    OneScaled(m, x, u);
    OneScaled(n, x, u);
    DivideBound(Distance(m, x * u), Distance(n, x * u), u);
  }

  /** Rn is rounding to nearest: its result is a double, and no double is nearer. */
  lemma RnIsNearest(u: Units, x: real, d: real)
    requires x >= 0.0 && IsDouble(u, d)
    ensures IsDouble(u, Rn(u, x)) && Distance(Rn(u, x), x) <= Distance(d, x)
  {
    RnIsDouble(u, x);
    var n: nat :| IsCount(n) && d == n as real / u as real;
    RnIsCloser(u, x, n);
  }

  lemma RnIsDouble(u: Units, x: real)
    requires x >= 0.0
    ensures IsDouble(u, Rn(u, x))
  {
    RoundCountIsCount(x * u as real);
  }

  lemma RoundedIsNearest(z: real, n: nat)
    requires z >= 0.0 && IsCount(n)
    ensures Distance(Rounded(z) as real, z) <= Distance(n as real, z)
  {
    RoundCountIsNearest(z, n);
  }

  lemma RnIsCloser(u: Units, x: real, n: nat)
    requires x >= 0.0 && IsCount(n)
    ensures Distance(Rn(u, x), x) <= Distance(n as real / u as real, x)
  {
    hide RoundCount;
    RoundedIsNearest(x * u as real, n);
    CloserUnscaled(Rounded(x * u as real) as real, n as real, x, u as real);
  }

  // ----- ties

  /** The significand is even: what is left of the count once halved to 53 bits. */
  predicate IsEven(n: nat) {
    if n < SIGNIFICANDS then n % 2 == 0 else IsEven(n / 2)
  }

  /** Of two counts as near, the one rounded to has the even significand. */
  lemma {:induction false} TiesToEven(z: real, n: nat)
    requires z >= 0.0 && IsCount(n) && n != RoundCount(z)
    requires Distance(n as real, z) == Distance(RoundCount(z) as real, z)
    ensures IsEven(RoundCount(z))
    decreases z.Floor
  {
    if z < SIGNIFICANDS as real {
      NearestTies(z, n);
    } else {
      RoundCountIsNearest(z, SIGNIFICANDS);
      var m := RoundCount(z / 2.0);
      RoundCountIsNearest(z / 2.0, SIGNIFICANDS / 2);
      AtLeastHalf(z, m);
      if n >= SIGNIFICANDS {
        var half := n / 2;
        assert n == 2 * half && n as real == 2.0 * half as real;
        assert RoundCount(z) == 2 * m && RoundCount(z) as real == 2.0 * m as real;
        TiesToEven(z / 2.0, half);
      }
    }
  }

  lemma AtLeastHalf(z: real, m: nat)
    requires z >= SIGNIFICANDS as real
    requires Distance(m as real, z / 2.0) <= Distance((SIGNIFICANDS / 2) as real, z / 2.0)
    ensures m >= SIGNIFICANDS / 2
  {}

  lemma NearestTies(z: real, n: nat)
    requires 0.0 <= z < SIGNIFICANDS as real && n != Nearest(z)
    requires Distance(n as real, z) == Distance(Nearest(z) as real, z)
    ensures Nearest(z) >= 0 && IsEven(Nearest(z))
  {
    var below := z.Floor;
    var part := z - below as real;
    if n <= below {
      assert n as real <= below as real;
    } else {
      assert n as real >= (below + 1) as real == below as real + 1.0;
    }
    assert part == 0.5;
    assert Nearest(z) % 2 == 0 && Nearest(z) <= SIGNIFICANDS;
    assert SIGNIFICANDS / 2 % 2 == 0;
  }

  /** r is the double nearest to x, and where two are, the one of even significand. */
  ghost predicate IsNearest(u: Units, x: real, r: real) {
    exists n: nat :: IsNearestCount(u, x, n) && r == n as real / u as real
  }

  ghost predicate IsNearestCount(u: Units, x: real, n: nat) {
    && IsCount(n)
    && forall m: nat :: IsCount(m) ==>
         && Distance(n as real, x * u as real) <= Distance(m as real, x * u as real)
         && (m != n && Distance(n as real, x * u as real) == Distance(m as real, x * u as real) ==> IsEven(n))
  }

  lemma RnIsTheNearest(u: Units, x: real)
    requires x >= 0.0
    ensures IsNearest(u, x, Rn(u, x))
  {
    var z := x * u as real;
    var n := RoundCount(z);
    RoundCountIsCount(z);
    forall m: nat | IsCount(m)
      ensures Distance(n as real, z) <= Distance(m as real, z)
      ensures m != n && Distance(n as real, z) == Distance(m as real, z) ==> IsEven(n)
    {
      RoundCountIsNearest(z, m);
      if m != n && Distance(n as real, z) == Distance(m as real, z) {
        TiesToEven(z, m);
      }
    }
    hide RoundCount, IsCount, IsEven;
    assert IsNearestCount(u, x, n);
  }

  lemma RnKeepsDoubles(u: Units, x: real)
    requires IsDouble(u, x)
    ensures Rn(u, x) == x
  {
    RnIsNearest(u, x, x);
  }

  // ----- powers

  lemma Pow2IsLarge(n: nat)
    requires n >= 160
    ensures Pow2(n) >= LARGE
  {
    hide Pow2;
    Pow2Ten();
    Pow2Adds(10, 10);
    Pow2Adds(20, 20);
    Pow2Adds(40, 40);
    Pow2Adds(80, 80);
    Pow2Monotone(160, n);
  }

  lemma Pow2Ten()
    ensures Pow2(10) == 1024
  {}

  /** A double's least value is 2 to the -1074. */
  function LeastDouble(): Units {
    Pow2IsLarge(1074);
    Pow2(1074)
  }

  // ----- rounding up to a power of two

  /** Rounded, a number reaches a doubled least normal significand exactly from half a unit in the last place below. */
  lemma {:induction false} RoundCountReaches(z: real, n: nat)
    requires z >= 0.0
    ensures RoundCount(z) >= SIGNIFICANDS * Pow2(n) <==> z >= Short(n)
    decreases n
  {
    ShortDoubles(n);
    if z < SIGNIFICANDS as real {
      NearestReaches(z);
      Pow2Monotone(0, n);
    } else if n == 0 {
      RoundCountKeeps(z);
    } else {
      RoundCountReaches(z / 2.0, n - 1);
    }
    hide IsCount, Nearest, Short;
  }

  /** Half a unit in the last place below so often doubled. */
  function Short(n: nat): real {
    (SIGNIFICANDS as real - 0.5) * Pow2(n) as real
  }

  lemma ShortDoubles(n: nat)
    ensures n > 0 ==> Short(n) == 2.0 * Short(n - 1) && Short(n) >= 2.0 * (SIGNIFICANDS as real - 0.5)
    ensures Short(0) == SIGNIFICANDS as real - 0.5
  {
    if n > 0 {
      assert Pow2(n) as real == 2.0 * Pow2(n - 1) as real;
      Pow2Monotone(1, n);
    }
  }

  lemma NearestReaches(z: real)
    requires 0.0 <= z < SIGNIFICANDS as real
    ensures Nearest(z) <= SIGNIFICANDS && (Nearest(z) >= SIGNIFICANDS <==> z >= SIGNIFICANDS as real - 0.5)
  {}

  lemma RoundCountKeeps(z: real)
    requires z >= SIGNIFICANDS as real
    ensures RoundCount(z) >= SIGNIFICANDS
  {
    assert IsCount(SIGNIFICANDS);
    RoundCountIsNearest(z, SIGNIFICANDS);
    hide RoundCount, IsCount;
    assert Distance(RoundCount(z) as real, z) <= Distance(SIGNIFICANDS as real, z);
  }
}
