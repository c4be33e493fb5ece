/** The fee as a number: the exact real product, rounded half-up once to five places. */
module TakerFeeValue {
  import opened Common
  import opened TakerFee

  /** The decimal stands for the real `v`: its coefficient with the point moved by its exponent. */
  predicate Denotes(d: Dec, v: real)
    decreases Abs(d.exp)
  {
    if d.exp == 0 then v == d.coef as real
    else if d.exp > 0 then Denotes(Dec(d.coef, d.exp - 1), v / 10.0)
    else Denotes(Dec(d.coef, d.exp + 1), 10.0 * v)
  }

  /** `n` is the integer nearest to `x`, and the larger in magnitude of two equally near. */
  predicate NearestHalfUp(n: int, x: real) {
    && -0.5 <= n as real - x <= 0.5
    && (n as real - x == 0.5 ==> x > 0.0)
    && (n as real - x == -0.5 ==> x < 0.0)
  }

  // ---------- moving the point ----------

  lemma {:induction false} PointRight(c: int, e: int, v: real)
    ensures Denotes(Dec(c, e + 1), 10.0 * v) <==> Denotes(Dec(c, e), v)
  {
    if e >= 0 {
      assert (10.0 * v) / 10.0 == v;
    }
  }

  lemma {:induction false} TenfoldCoefficient(c: int, e: int, v: real)
    ensures Denotes(Dec(10 * c, e), v) <==> Denotes(Dec(c, e + 1), v)
    decreases Abs(e)
  {
    if e > 0 {
      TenfoldCoefficient(c, e - 1, v / 10.0);
    } else if e < 0 {
      TenfoldCoefficient(c, e + 1, 10.0 * v);
      PointRight(c, e + 1, v);
    } else {
      assert Denotes(Dec(c, 1), v) <==> Denotes(Dec(c, 0), v / 10.0);
    }
  }

  lemma {:induction false} Regroup(c: int, p: int)
    ensures (10 * c) * p == c * (10 * p)
  {
  }

  lemma {:induction false} WholeDecimal(c: int, k: nat, v: real)
    ensures Denotes(Dec(c, k), v) <==> v == (c * Pow10(k)) as real
    decreases k
  {
    if k > 0 {
      WholeDecimal(10 * c, k - 1, v);
      TenfoldCoefficient(c, k - 1, v);
      Regroup(c, Pow10(k - 1));
    }
  }

  lemma {:induction false} PowerIsOne(k: nat)
    ensures Denotes(Dec(Pow10(k), 0 - k), 1.0)
  {
    if k > 0 {
      PowerIsOne(k - 1);
      TenfoldCoefficient(Pow10(k - 1), 0 - k, 1.0);
    }
  }

  /** Every decimal denotes one real only. */
  lemma {:induction false} DenotesOne(d: Dec, v: real, w: real)
    requires Denotes(d, v) && Denotes(d, w)
    ensures v == w
    decreases Abs(d.exp)
  {
    if d.exp > 0 {
      DenotesOne(Dec(d.coef, d.exp - 1), v / 10.0, w / 10.0);
    } else if d.exp < 0 {
      DenotesOne(Dec(d.coef, d.exp + 1), 10.0 * v, 10.0 * w);
    }
  }

  // ---------- the exact value ----------

  lemma {:induction false} DifferenceDenotes(a: int, b: int, e: int, v: real, w: real)
    requires Denotes(Dec(a, e), v) && Denotes(Dec(b, e), w)
    ensures Denotes(Dec(a - b, e), v - w)
    decreases Abs(e)
  {
    if e > 0 {
      DifferenceDenotes(a, b, e - 1, v / 10.0, w / 10.0);
      assert v / 10.0 - w / 10.0 == (v - w) / 10.0;
    } else if e < 0 {
      DifferenceDenotes(a, b, e + 1, 10.0 * v, 10.0 * w);
      assert 10.0 * v - 10.0 * w == 10.0 * (v - w);
    }
  }

  lemma {:induction false} ComplementDenotes(p: Dec, v: real)
    requires Denotes(p, v)
    ensures Denotes(Complement(p), 1.0 - v)
  {
    if p.exp >= 0 {
      WholeComplement(p.coef, p.exp, v, Complement(p));
    } else {
      PlacesComplement(p.coef, -p.exp, v, Complement(p));
    }
  }

  lemma {:induction false} WholeComplement(c: int, e: nat, v: real, q: Dec)
    requires Denotes(Dec(c, e), v) && q == Dec(1 - c * Pow10(e), 0)
    ensures Denotes(q, 1.0 - v)
  {
    WholeDecimal(c, e, v);
  }

  lemma {:induction false} PlacesComplement(c: int, k: nat, v: real, q: Dec)
    requires Denotes(Dec(c, 0 - k), v) && q == Dec(Pow10(k) - c, 0 - k)
    ensures Denotes(q, 1.0 - v)
  {
    var power := PowerDenoted(k);
    OneMinus(power, c, 0 - k, v);
  }

  lemma {:induction false} PowerDenoted(k: nat) returns (power: int)
    ensures power == Pow10(k) && Denotes(Dec(power, 0 - k), 1.0)
  {
    PowerIsOne(k);
    power := Pow10(k);
  }

  lemma {:induction false} OneMinus(power: int, c: int, e: int, v: real)
    requires Denotes(Dec(power, e), 1.0) && Denotes(Dec(c, e), v)
    ensures Denotes(Dec(power - c, e), 1.0 - v)
  {
    DifferenceDenotes(power, c, e, 1.0, v);
  }

  lemma {:induction false} TenthOfProduct(x: real, y: real)
    ensures 10.0 * ((x / 10.0) * y) == x * y && 10.0 * (x * (y / 10.0)) == x * y
  {
  }

  lemma {:induction false} TenfoldProduct(x: real, y: real)
    ensures (10.0 * x) * y == 10.0 * (x * y) && x * (10.0 * y) == 10.0 * (x * y)
  {
  }

  lemma {:induction false} WholeProduct(a: int, b: int)
    ensures (a * b) as real == a as real * b as real
  {
  }

  lemma {:induction false} WholeFactorDenotes(a: int, e: int, b: int, x: real, y: real, xy: real)
    requires Denotes(Dec(a, e), x) && y == b as real && xy == x * y
    ensures Denotes(Dec(a * b, e), xy)
    decreases Abs(e)
  {
    if e > 0 {
      var tenth := (x / 10.0) * y;
      TenthOfProduct(x, y);
      WholeFactorDenotes(a, e - 1, b, x / 10.0, y, tenth);
      PointRight(a * b, e - 1, tenth);
      assert 10.0 * tenth == xy;
    } else if e < 0 {
      TenfoldProduct(x, y);
      WholeFactorDenotes(a, e + 1, b, 10.0 * x, y, 10.0 * xy);
      PointRight(a * b, e, xy);
    } else {
      WholeProduct(a, b);
    }
  }

  /** The product of what two decimals denote is denoted by their exact product. */
  lemma {:induction false} ProductDenotes(a: int, e: int, b: int, f: int, c: int, x: real, y: real, xy: real)
    requires Denotes(Dec(a, e), x) && Denotes(Dec(b, f), y) && c == a * b && xy == x * y
    ensures Denotes(Dec(c, e + f), xy)
    decreases Abs(f)
  {
    if f > 0 {
      var tenth := x * (y / 10.0);
      TenthOfProduct(x, y);
      ProductDenotes(a, e, b, f - 1, c, x, y / 10.0, tenth);
      PointRight(c, e + f - 1, tenth);
      assert 10.0 * tenth == xy;
    } else if f < 0 {
      TenfoldProduct(x, y);
      ProductDenotes(a, e, b, f + 1, c, x, 10.0 * y, 10.0 * xy);
      PointRight(c, e + f, xy);
    } else {
      WholeFactorDenotes(a, e, b, x, y, xy);
    }
  }

  lemma {:induction false} ExactProduct(a: Dec, b: Dec, x: real, y: real, xy: real)
    requires Denotes(a, x) && Denotes(b, y) && xy == x * y
    ensures Denotes(Product(a, b), xy)
  {
    ProductDenotes(a.coef, a.exp, b.coef, b.exp, a.coef * b.coef, x, y, xy);
  }

  /** What the code calls the raw fee denotes shares times rate times price times one minus price. */
  lemma {:induction false} RawDenotes(shares: Dec, rate: Dec, price: Dec, s: real, r: real, p: real, exact: real)
    requires Denotes(shares, s) && Denotes(rate, r) && Denotes(price, p)
    requires exact == s * r * p * (1.0 - p)
    ensures Denotes(Raw(shares, rate, price), exact)
  {
    var sr := s * r;
    var srp := sr * p;
    ExactProduct(shares, rate, s, r, sr);
    ExactProduct(Product(shares, rate), price, sr, p, srp);
    ComplementDenotes(price, p);
    ExactProduct(Product(Product(shares, rate), price), Complement(price), srp, 1.0 - p, exact);
  }

  // ---------- the one rounding ----------

  lemma {:induction false} TimesTen(t: int, p: int)
    ensures t * (10 * p) == 10 * (t * p)
  {
  }

  lemma {:induction false} Distribute(a: int, b: int, p: int)
    ensures (a + b) * p == a * p + b * p
  {
  }

  lemma {:induction false} SmallProduct(r: int, p: int)
    requires 0 <= r <= 9 && p >= 1
    ensures 0 <= r * p <= 9 * p
    ensures r >= 5 ==> r * p >= 5 * p
    ensures r <= 4 ==> r * p <= 4 * p
  {
  }

  lemma {:induction false} DropBounds(n: nat, k: nat)
    ensures Drop(n, k) * Pow10(k) <= n < Drop(n, k) * Pow10(k) + Pow10(k)
    decreases k
  {
    if k > 0 {
      DropBounds(n / 10, k - 1);
      TimesTen(Drop(n / 10, k - 1), Pow10(k - 1));
    }
  }

  /** The distance from `n` to `q * m`, in halves of `m`: at most one, and one only upwards. */
  predicate HalfUnit(n: int, q: int, m: int) {
    0 - m < 2 * (n - q * m) < m || 2 * (q * m - n) == m
  }

  lemma {:induction false} DropHalfUpBounds(n: nat, k: nat)
    ensures HalfUnit(n, DropHalfUp(n, k), Pow10(k))
  {
    if k > 0 {
      var t, p := Drop(n, k - 1), Pow10(k - 1);
      DropBounds(n, k - 1);
      assert t == 10 * (t / 10) + t % 10;
      HalfUpArithmetic(n, t / 10, t % 10, p);
    }
  }

  lemma {:induction false} HalfUpArithmetic(n: int, h: int, r: int, p: int)
    requires p >= 1 && 0 <= r <= 9 && (10 * h + r) * p <= n < (10 * h + r) * p + p
    ensures HalfUnit(n, h + if r >= 5 then 1 else 0, 10 * p)
  {
    SmallProduct(r, p);
    TimesTen(h, p);
    TimesTen(h + 1, p);
    Distribute(10 * h, r, p);
    Distribute(h, 1, p);
    TenTimes(h, p);
    HalfUnitOfTen(n, h * p, r, r * p, p, h, 10 * p);
  }

  lemma {:induction false} TenTimes(h: int, p: int)
    ensures (10 * h) * p == 10 * (h * p)
  {
  }

  /** The same with the products named: `hp` is h times p, `rp` is r times p, `m` the unit. */
  lemma {:induction false} HalfUnitOfTen(n: int, hp: int, r: int, rp: int, p: int, h: int, m: int)
    requires p >= 1 && 0 <= r <= 9 && m == 10 * p && h * m == 10 * hp && (h + 1) * m == 10 * hp + 10 * p
    requires 0 <= rp <= 9 * p && (r >= 5 ==> rp >= 5 * p) && (r <= 4 ==> rp <= 4 * p)
    requires 10 * hp + rp <= n < 10 * hp + rp + p
    ensures HalfUnit(n, h + if r >= 5 then 1 else 0, m)
  {
  }

  /** A number with `k` places becomes whole when multiplied by the power. */
  lemma {:induction false} PlacesTimesPower(c: int, k: nat, y: real)
    requires Denotes(Dec(c, 0 - k), y)
    ensures y * Pow10(k) as real == c as real
  {
    if k > 0 {
      PlacesTimesPower(c, k - 1, 10.0 * y);
      PowerRegroups(y, Pow10(k - 1));
    }
  }

  lemma {:induction false} PowerRegroups(y: real, p: int)
    ensures (10.0 * y) * p as real == y * (10 * p) as real
  {
    assert (10 * p) as real == 10.0 * p as real;
    TenfoldProduct(y, p as real);
  }

  lemma {:induction false} GapProduct(q: int, m: int, y: real, c: int)
    requires y * m as real == c as real
    ensures (q as real - y) * m as real == (q * m - c) as real
  {
    WholeProduct(q, m);
  }

  /** Multiplying by a positive unit keeps the order against half of it. */
  lemma {:induction false} GapAgainstHalf(gap: real, u: real, d: real)
    requires u > 0.0 && gap * u == d
    ensures gap > 0.5 ==> 2.0 * d > u
    ensures gap < -0.5 ==> 2.0 * d < -u
    ensures gap == 0.5 ==> 2.0 * d == u
    ensures gap == -0.5 ==> 2.0 * d == -u
  {
    if gap > 0.5 {
      PositiveProduct(gap - 0.5, u);
    } else if gap < -0.5 {
      PositiveProduct(-0.5 - gap, u);
    }
  }

  lemma {:induction false} PositiveProduct(x: real, y: real)
    requires x > 0.0 && y > 0.0
    ensures x * y > 0.0
  {
  }

  lemma {:induction false} SignOfQuotient(y: real, u: real, c: int)
    requires u > 0.0 && y * u == c as real
    ensures c > 0 <==> y > 0.0
    ensures c < 0 <==> y < 0.0
  {
    if y > 0.0 {
      PositiveProduct(y, u);
    } else if y < 0.0 {
      PositiveProduct(-y, u);
    }
  }

  lemma {:induction false} NearestFromUnits(c: int, q: int, m: int, y: real)
    requires m >= 1 && y * m as real == c as real
    requires c >= 0 && q >= 0 ==> HalfUnit(c, q, m)
    requires c < 0 || q < 0 ==> c < 0 && q <= 0 && HalfUnit(-c, -q, m)
    ensures NearestHalfUp(q, y)
  {
    var u := m as real;
    GapProduct(q, m, y, c);
    GapAgainstHalf(q as real - y, u, (q * m - c) as real);
    SignOfQuotient(y, u, c);
    NegatedProduct(q, m);
    if c == 0 {
      ZeroRoundsToZero(q, m);
    }
  }

  lemma {:induction false} NegatedProduct(q: int, m: int)
    ensures (-q) * m == -(q * m)
  {
  }

  lemma {:induction false} ZeroRoundsToZero(q: nat, m: int)
    requires m >= 1 && HalfUnit(0, q, m)
    ensures q == 0
  {
    if q >= 1 {
      AtLeastOne(q, m);
      assert false;
    }
  }

  lemma {:induction false} AtLeastOne(q: nat, m: int)
    requires q >= 1 && m >= 1
    ensures q * m >= m
  {
  }

  lemma {:induction false} HalfUpIsNearest(c: int, k: nat, y: real)
    requires Denotes(Dec(c, 0 - k), y)
    ensures NearestHalfUp(HalfUp(c, k), y)
  {
    var m, q := InUnits(c, k, y);
    SignedNearest(c, q, m, y, HalfUp(c, k));
  }

  /** The unit a number with `k` places is counted in, and how often it goes, half up. */
  lemma {:induction false} InUnits(c: int, k: nat, y: real) returns (m: int, q: nat)
    requires Denotes(Dec(c, 0 - k), y)
    ensures m >= 1 && y * m as real == c as real && HalfUnit(Abs(c), q, m)
    ensures HalfUp(c, k) == if c < 0 then 0 - q else q
  {
    m, q := Pow10(k), DropHalfUp(Abs(c), k);
    PlacesTimesPower(c, k, y);
    DropHalfUpBounds(Abs(c), k);
  }

  lemma {:induction false} SignedNearest(c: int, q: nat, m: int, y: real, n: int)
    requires m >= 1 && y * m as real == c as real && HalfUnit(Abs(c), q, m)
    requires n == if c < 0 then 0 - q else q
    ensures NearestHalfUp(n, y)
  {
    NearestFromUnits(c, n, m, y);
  }

  lemma {:induction false} FivePlaces(d: Dec, x: real)
    requires Denotes(d, x)
    ensures Denotes(Dec(d.coef, d.exp + 5), 100000.0 * x)
  {
    PointRight(d.coef, d.exp, x);
    PointRight(d.coef, d.exp + 1, 10.0 * x);
    PointRight(d.coef, d.exp + 2, 100.0 * x);
    PointRight(d.coef, d.exp + 3, 1000.0 * x);
    PointRight(d.coef, d.exp + 4, 10000.0 * x);
  }

  /** Rescaling to five places is the half-up rounding of the number denoted. */
  lemma {:induction false} RescaledIsNearest(d: Dec, x: real)
    requires Denotes(d, x)
    ensures NearestHalfUp(Rescaled(d), 100000.0 * x)
  {
    FivePlaces(d, x);
    if d.exp >= QUANTUM_EXPONENT {
      WholeDecimal(d.coef, d.exp + 5, 100000.0 * x);
    } else {
      HalfUpIsNearest(d.coef, QUANTUM_EXPONENT - d.exp, 100000.0 * x);
    }
  }

  lemma {:induction false} QuantumDenotes(n: int)
    ensures Denotes(Dec(n, QUANTUM_EXPONENT), n as real / 100000.0)
  {
    var v := n as real / 100000.0;
    PointRight(n, -5, v);
    PointRight(n, -4, 10.0 * v);
    PointRight(n, -3, 100.0 * v);
    PointRight(n, -2, 1000.0 * v);
    PointRight(n, -1, 10000.0 * v);
  }

  /** For every finite input that stays within the exponent range, the fee is the exact product of shares,
      rate, price and one minus price, rounded half-up once, and so within half a quantum of it. */
  lemma {:induction false} FeeIsExactProductRoundedOnce(shares: Dec, rate: Dec, price: Dec, s: real, r: real, p: real, exact: real)
    requires Fits(shares, rate, price)
    requires Denotes(shares, s) && Denotes(rate, r) && Denotes(price, p) && exact == s * r * p * (1.0 - p)
    ensures Fee(shares, rate, price).Success?
    ensures var fee := Fee(shares, rate, price).value;
            var paid := fee.coef as real / 100000.0;
            && Denotes(fee, paid)
            && NearestHalfUp(fee.coef, 100000.0 * exact)
            && -0.000005 <= paid - exact <= 0.000005
  {
    var raw := DenotedRaw(shares, rate, price, s, r, p, exact);
    RescaledIsNearest(raw, exact);
    QuantumDenotes(Rescaled(raw));
    WithinHalfQuantum(Rescaled(raw), exact);
  }

  /** What the fee rescales. */
  lemma {:induction false} DenotedRaw(shares: Dec, rate: Dec, price: Dec, s: real, r: real, p: real, exact: real) returns (raw: Dec)
    requires Fits(shares, rate, price)
    requires Denotes(shares, s) && Denotes(rate, r) && Denotes(price, p) && exact == s * r * p * (1.0 - p)
    ensures Denotes(raw, exact) && Fee(shares, rate, price) == Success(Dec(Rescaled(raw), QUANTUM_EXPONENT))
  {
    raw := Raw(shares, rate, price);
    FeeRoundsOnce(shares, rate, price);
    RawDenotes(shares, rate, price, s, r, p, exact);
  }

  lemma {:induction false} WithinHalfQuantum(n: int, exact: real)
    requires NearestHalfUp(n, 100000.0 * exact)
    ensures -0.000005 <= n as real / 100000.0 - exact <= 0.000005
  {
  }

  /** No other integer is the nearest half-up, so the fee is determined by the exact value alone. */
  lemma {:induction false} NearestIsUnique(a: int, b: int, x: real)
    requires NearestHalfUp(a, x) && NearestHalfUp(b, x)
    ensures a == b
  {
  }
}
