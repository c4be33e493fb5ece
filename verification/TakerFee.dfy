/** The taker fee in decimal arithmetic: why the chosen precision leaves exactly one rounding. */
module TakerFee {
  import opened Common

  const MINIMUM_FEE_PRECISION := 28
  const QUANTUM_EXPONENT := -5
  const EMAX := 999999
  const EMIN := -999999
  const MAX_PREC := 999999999999999999

  /** A finite decimal: its signed coefficient and its exponent. */
  datatype Dec = Dec(coef: int, exp: int)

  datatype Fault = PrecisionOutOfRange | Overflow | InvalidOperation

  const ONE := Dec(1, 0)
  const QUANTUM := Dec(1, QUANTUM_EXPONENT)

  function Abs(x: int): nat { if x < 0 then -x else x }

  function Pow10(n: nat): (r: nat)
    ensures r >= 1
  {
    if n == 0 then 1 else 10 * Pow10(n - 1)
  }

  function Digits(n: nat): (r: nat)
    ensures r >= 1
  {
    if n < 10 then 1 else 1 + Digits(n / 10)
  }

  /** A coefficient without its last `k` digits. */
  function Drop(n: nat, k: nat): nat
    decreases k
  {
    if k == 0 then n else Drop(n / 10, k - 1)
  }

  /** The same, raised by one when the first digit dropped is five or more. */
  function DropHalfUp(n: nat, k: nat): nat {
    if k == 0 then n
    else
      var t := Drop(n, k - 1);
      t / 10 + if t % 10 >= 5 then 1 else 0
  }

  function HalfUp(c: int, k: nat): int {
    var q: int := DropHalfUp(Abs(c), k);
    if c < 0 then -q else q
  }

  function Etiny(prec: int): int { EMIN - prec + 1 }

  /** A result brought into its context: rounded to `prec` digits, refused beyond the largest exponent. */
  function Finalize(d: Dec, prec: int): Result<Dec, Fault>
    requires prec >= 1
  {
    if d.coef == 0 then
      Success(Dec(0, if d.exp < Etiny(prec) then Etiny(prec) else if d.exp > EMAX then EMAX else d.exp))
    else
      var length := Digits(Abs(d.coef));
      if length + d.exp - 1 > EMAX then Failure(Overflow)
      else
        var least := if length + d.exp - prec < Etiny(prec) then Etiny(prec) else length + d.exp - prec;
        if d.exp >= least then Success(d)
        else
          var rounded := HalfUp(d.coef, least - d.exp);
          if Digits(Abs(rounded)) <= prec then Success(Dec(rounded, least))
          else if least + 1 > EMAX - prec + 1 then Failure(Overflow)
          else Success(Dec(if rounded < 0 then -(Abs(rounded) / 10) else rounded / 10, least + 1))
  }

  /** The exact product and the exact difference from one, before any context applies. */
  function Product(a: Dec, b: Dec): Dec { Dec(a.coef * b.coef, a.exp + b.exp) }

  function Complement(p: Dec): Dec {
    if p.exp >= 0 then Dec(1 - p.coef * Pow10(p.exp), 0)
    else Dec(Pow10(-p.exp) - p.coef, p.exp)
  }

  function Mul(a: Dec, b: Dec, prec: int): Result<Dec, Fault>
    requires prec >= 1
  {
    Finalize(Product(a, b), prec)
  }

  /** The coefficient of a decimal brought to exponent -5, rounding half-up where digits are lost. */
  function Rescaled(d: Dec): int {
    if d.exp >= QUANTUM_EXPONENT then d.coef * Pow10(d.exp - QUANTUM_EXPONENT)
    else HalfUp(d.coef, QUANTUM_EXPONENT - d.exp)
  }

  predicate TooLarge(d: Dec) {
    d.coef != 0 && Digits(Abs(d.coef)) + d.exp - 1 > EMAX
  }

  function Quantize(d: Dec, prec: int): Result<Dec, Fault>
    requires prec >= 1
  {
    if d.coef == 0 then Finalize(Dec(0, QUANTUM_EXPONENT), prec)
    else if TooLarge(d) || Digits(Abs(d.coef)) + d.exp - QUANTUM_EXPONENT > prec then Failure(InvalidOperation)
    else
      var r := Dec(Rescaled(d), QUANTUM_EXPONENT);
      if TooLarge(r) || Digits(Abs(r.coef)) > prec then Failure(InvalidOperation)
      else Finalize(r, prec)
  }

  function Weight(d: Dec): nat { Digits(Abs(d.coef)) + Abs(d.exp) }

  function Precision(shares: Dec, rate: Dec, price: Dec): (r: nat)
    ensures r >= MINIMUM_FEE_PRECISION
  {
    var needed := Weight(shares) + Weight(rate) + Weight(price) + Weight(price) + Weight(QUANTUM) + 1;
    if needed < MINIMUM_FEE_PRECISION then MINIMUM_FEE_PRECISION else needed
  }

  function Fee(shares: Dec, rate: Dec, price: Dec): Result<Dec, Fault> {
    var prec := Precision(shares, rate, price);
    if prec > MAX_PREC then Failure(PrecisionOutOfRange)
    else FeeAt(shares, rate, price, prec)
  }

  /** Left to right: shares by rate, by price, then by what one minus price gives. */
  function FeeAt(shares: Dec, rate: Dec, price: Dec, prec: int): Result<Dec, Fault>
    requires prec >= 1
  {
    match Mul(shares, rate, prec)
    case Failure(f) => Failure(f)
    case Success(first) =>
      match Mul(first, price, prec)
      case Failure(f) => Failure(f)
      case Success(second) =>
        match Finalize(Complement(price), prec)
        case Failure(f) => Failure(f)
        case Success(rest) =>
          match Mul(second, rest, prec)
          case Failure(f) => Failure(f)
          case Success(raw) => Quantize(raw, prec)
  }

  // ---------- digits ----------

  lemma {:induction false} Pow10Add(a: nat, b: nat)
    ensures Pow10(a + b) == Pow10(a) * Pow10(b)
  {
    if a > 0 {
      Pow10Add(a - 1, b);
      assert Pow10(a + b) == 10 * (Pow10(a - 1) * Pow10(b));
    }
  }

  lemma {:induction false} MulGrows(x: nat, y: nat)
    requires y >= 1
    ensures x <= x * y
  {
  }

  lemma {:induction false} MulBelow(a: nat, b: nat, x: nat, y: nat)
    requires a < x && b < y
    ensures a * b < x * y
  {
    assert a * b <= a * y;
    assert a * y < x * y;
  }

  lemma {:induction false} DigitsBound(n: nat)
    ensures n < Pow10(Digits(n))
    ensures n > 0 ==> Pow10(Digits(n) - 1) <= n
  {
    if n >= 10 {
      DigitsBound(n / 10);
    }
  }

  lemma {:induction false} DigitsLeast(n: nat, k: nat)
    requires k >= 1 && n < Pow10(k)
    ensures Digits(n) <= k
  {
    if n >= 10 {
      DigitsLeast(n / 10, k - 1);
    }
  }

  lemma {:induction false} ProductDigits(a: Dec, b: Dec)
    ensures Digits(Abs(Product(a, b).coef)) <= Digits(Abs(a.coef)) + Digits(Abs(b.coef))
  {
    var x, y := Abs(a.coef), Abs(b.coef);
    DigitsBound(x);
    DigitsBound(y);
    MulBelow(x, y, Pow10(Digits(x)), Pow10(Digits(y)));
    Pow10Add(Digits(x), Digits(y));
    AbsProduct(a.coef, b.coef);
    DigitsLeast(x * y, Digits(x) + Digits(y));
  }

  lemma {:induction false} AbsProduct(a: int, b: int)
    ensures Abs(a * b) == Abs(a) * Abs(b)
  {
  }

  lemma {:induction false} ScaledComplementBelow(c: int, x: nat, y: nat)
    requires Abs(c) < x && y >= 1
    ensures Abs(1 - c * y) <= x * y
  {
    AbsProduct(c, y);
    assert Abs(c) * y <= (x - 1) * y;
    assert (x - 1) * y == x * y - y;
  }

  lemma {:induction false} ComplementBelow(p: Dec, x: nat, y: nat)
    requires Abs(p.coef) < x && y == Pow10(Abs(p.exp))
    ensures Abs(Complement(p).coef) <= x * y + x * y && x * y >= 1
  {
    MulGrows(y, x);
    MulGrows(x, y);
    if p.exp >= 0 {
      ScaledComplementBelow(p.coef, x, y);
    }
  }

  lemma {:induction false} ComplementDigits(p: Dec)
    ensures Digits(Abs(Complement(p).coef)) <= Weight(p) + 1
  {
    var d, e := Digits(Abs(p.coef)), Abs(p.exp);
    DigitsBound(Abs(p.coef));
    Pow10Add(d, e);
    ComplementBelow(p, Pow10(d), Pow10(e));
    DigitsLeast(Abs(Complement(p).coef), d + e + 1);
  }

  lemma {:induction false} DropShrinks(n: nat, k: nat)
    ensures Drop(n, k) <= n
    decreases k
  {
    if k > 0 {
      DropShrinks(n / 10, k - 1);
    }
  }

  lemma {:induction false} HalfUpShrinks(c: int, k: nat)
    ensures Abs(HalfUp(c, k)) <= Abs(c)
  {
    if k > 0 {
      DropShrinks(Abs(c), k - 1);
    }
  }

  lemma {:induction false} RescaledDigits(d: Dec, prec: int)
    requires Digits(Abs(d.coef)) <= prec && Digits(Abs(d.coef)) + d.exp - QUANTUM_EXPONENT <= prec
    ensures Digits(Abs(Rescaled(d))) <= prec
  {
    if d.exp >= QUANTUM_EXPONENT {
      var n, k := Digits(Abs(d.coef)), d.exp - QUANTUM_EXPONENT;
      DigitsBound(Abs(d.coef));
      Pow10Add(n, k);
      AbsProduct(d.coef, Pow10(k));
      MulBelowScaled(Abs(d.coef), Pow10(n), Pow10(k));
      DigitsLeast(Abs(Rescaled(d)), n + k);
    } else {
      HalfUpShrinks(d.coef, QUANTUM_EXPONENT - d.exp);
      DigitsMonotone(Abs(Rescaled(d)), Abs(d.coef));
    }
  }

  lemma {:induction false} MulBelowScaled(a: nat, x: nat, y: nat)
    requires a < x && y >= 1
    ensures a * y < x * y
  {
  }

  lemma {:induction false} DigitsMonotone(a: nat, b: nat)
    requires a <= b
    ensures Digits(a) <= Digits(b)
  {
    DigitsBound(b);
    DigitsLeast(a, Digits(b));
  }

  // ---------- the chosen precision is enough ----------

  /** Within its digits and above its smallest exponent, a result only fails to fit by being too large. */
  lemma {:induction false} FinalizeKeeps(d: Dec, prec: int)
    requires prec >= Digits(Abs(d.coef)) && -prec <= d.exp
    ensures TooLarge(d) ==> Finalize(d, prec) == Failure(Overflow)
    ensures d.coef != 0 && !TooLarge(d) ==> Finalize(d, prec) == Success(d)
    ensures d.coef == 0 ==> Finalize(d, prec).Success? && Finalize(d, prec).value.coef == 0
  {
  }

  function Raw(shares: Dec, rate: Dec, price: Dec): Dec {
    Product(Product(Product(shares, rate), price), Complement(price))
  }

  /** The overflow guards: no exact intermediate value, nor the rounded fee, is beyond the largest exponent. */
  predicate Fits(shares: Dec, rate: Dec, price: Dec) {
    && Precision(shares, rate, price) <= MAX_PREC
    && !TooLarge(Product(shares, rate))
    && !TooLarge(Product(Product(shares, rate), price))
    && !TooLarge(Complement(price))
    && !TooLarge(Raw(shares, rate, price))
    && !TooLarge(Dec(Rescaled(Raw(shares, rate, price)), QUANTUM_EXPONENT))
  }

  /** Every intermediate value has at most the chosen number of digits, above the smallest exponent. */
  predicate WithinPrecision(d: Dec, prec: int) {
    Digits(Abs(d.coef)) <= prec && -prec <= d.exp
  }

  lemma {:induction false} ProductsFitPrecision(shares: Dec, rate: Dec, price: Dec)
    ensures WithinPrecision(Product(shares, rate), Precision(shares, rate, price))
    ensures WithinPrecision(Product(Product(shares, rate), price), Precision(shares, rate, price))
    ensures Digits(Abs(Product(Product(shares, rate), price).coef)) <=
            Digits(Abs(shares.coef)) + Digits(Abs(rate.coef)) + Digits(Abs(price.coef))
  {
    ProductDigits(shares, rate);
    ProductDigits(Product(shares, rate), price);
  }

  lemma {:induction false} RawFitsPrecision(shares: Dec, rate: Dec, price: Dec)
    ensures var prec := Precision(shares, rate, price);
            var raw := Raw(shares, rate, price);
            && WithinPrecision(Complement(price), prec) && WithinPrecision(raw, prec)
            && Digits(Abs(raw.coef)) + raw.exp - QUANTUM_EXPONENT <= prec
  {
    var second := Product(Product(shares, rate), price);
    ProductsFitPrecision(shares, rate, price);
    ComplementDigits(price);
    ProductDigits(second, Complement(price));
    WeightsBound(shares, rate, price, second, Complement(price), Raw(shares, rate, price),
                 Precision(shares, rate, price));
  }

  /** The digit and exponent sums, once the digits of the factors are known. */
  lemma {:induction false} WeightsBound(shares: Dec, rate: Dec, price: Dec, second: Dec, rest: Dec, raw: Dec, prec: int)
    requires prec >= Weight(shares) + Weight(rate) + Weight(price) + Weight(price) + 7
    requires Digits(Abs(second.coef)) <= Digits(Abs(shares.coef)) + Digits(Abs(rate.coef)) + Digits(Abs(price.coef))
    requires Digits(Abs(rest.coef)) <= Weight(price) + 1
    requires Digits(Abs(raw.coef)) <= Digits(Abs(second.coef)) + Digits(Abs(rest.coef))
    requires second.exp == shares.exp + rate.exp + price.exp && raw.exp == second.exp + rest.exp
    requires rest.exp == if price.exp >= 0 then 0 else price.exp
    ensures WithinPrecision(rest, prec) && WithinPrecision(raw, prec)
    ensures Digits(Abs(raw.coef)) + raw.exp - QUANTUM_EXPONENT <= prec
  {
  }

  lemma {:induction false} ZeroQuantizes(d: Dec, prec: int)
    requires prec >= MINIMUM_FEE_PRECISION && d.coef == 0
    ensures Quantize(d, prec) == Success(Dec(0, QUANTUM_EXPONENT)) && Rescaled(d) == 0
  {
    if d.exp < QUANTUM_EXPONENT {
      HalfUpShrinks(0, QUANTUM_EXPONENT - d.exp);
    }
  }

  lemma {:induction false} QuantizeKeeps(d: Dec, prec: int)
    requires prec >= MINIMUM_FEE_PRECISION && WithinPrecision(d, prec)
    requires Digits(Abs(d.coef)) + d.exp - QUANTUM_EXPONENT <= prec && !TooLarge(d)
    ensures Quantize(d, prec) ==
            var r := Dec(Rescaled(d), QUANTUM_EXPONENT);
            if TooLarge(r) then Failure(InvalidOperation) else Success(r)
  {
    if d.coef == 0 {
      ZeroQuantizes(d, prec);
    } else {
      var r := Dec(Rescaled(d), QUANTUM_EXPONENT);
      RescaledDigits(d, prec);
      FinalizeKeeps(r, prec);
    }
  }

  /** A zero keeps every product zero, whatever exponent the context gave it. */
  lemma {:induction false} FeeWithZeroProduct(shares: Dec, rate: Dec, price: Dec, prec: int)
    requires prec >= MINIMUM_FEE_PRECISION && WithinPrecision(Complement(price), prec)
    requires WithinPrecision(Product(Product(shares, rate), price), prec) && WithinPrecision(Product(shares, rate), prec)
    requires Product(Product(shares, rate), price).coef == 0
    ensures FeeAt(shares, rate, price, prec) ==
            if TooLarge(Product(shares, rate)) || TooLarge(Complement(price)) then Failure(Overflow)
            else Success(Dec(0, QUANTUM_EXPONENT))
  {
    FinalizeKeeps(Product(shares, rate), prec);
    FinalizeKeeps(Complement(price), prec);
    var first := Finalize(Product(shares, rate), prec);
    if first.Success? {
      var second := Finalize(Product(first.value, price), prec);
      assert Product(first.value, price).coef == 0;
      if Finalize(Complement(price), prec).Success? {
        var rest := Finalize(Complement(price), prec).value;
        assert Product(second.value, rest).coef == 0;
        ZeroQuantizes(Finalize(Product(second.value, rest), prec).value, prec);
      }
    }
  }

  /** The four operations, each of which can only be too large. */
  lemma {:induction false} FeeWithProduct(shares: Dec, rate: Dec, price: Dec, prec: int, first: Dec, second: Dec, rest: Dec, raw: Dec)
    requires prec >= MINIMUM_FEE_PRECISION
    requires first == Product(shares, rate) && second == Product(first, price)
    requires rest == Complement(price) && raw == Product(second, rest)
    requires WithinPrecision(first, prec) && WithinPrecision(second, prec)
    requires WithinPrecision(rest, prec) && WithinPrecision(raw, prec)
    requires first.coef != 0 && second.coef != 0 && rest.coef != 0 && raw.coef != 0
    ensures FeeAt(shares, rate, price, prec) ==
            if TooLarge(first) || TooLarge(second) || TooLarge(rest) || TooLarge(raw) then Failure(Overflow)
            else Quantize(raw, prec)
  {
    FinalizeKeeps(first, prec);
    FinalizeKeeps(second, prec);
    FinalizeKeeps(rest, prec);
    FinalizeKeeps(raw, prec);
  }

  lemma {:induction false} FeeAtParPrice(shares: Dec, rate: Dec, price: Dec, prec: int, first: Dec, second: Dec)
    requires prec >= MINIMUM_FEE_PRECISION
    requires first == Product(shares, rate) && second == Product(first, price)
    requires WithinPrecision(first, prec) && WithinPrecision(second, prec) && WithinPrecision(Complement(price), prec)
    requires first.coef != 0 && second.coef != 0 && Complement(price).coef == 0
    ensures FeeAt(shares, rate, price, prec) ==
            if TooLarge(first) || TooLarge(second) then Failure(Overflow)
            else Success(Dec(0, QUANTUM_EXPONENT))
  {
    FinalizeKeeps(first, prec);
    FinalizeKeeps(second, prec);
    FinalizeKeeps(Complement(price), prec);
    var rest := Finalize(Complement(price), prec).value;
    assert Product(second, rest).coef == 0;
    ZeroQuantizes(Finalize(Product(second, rest), prec).value, prec);
  }

  lemma {:induction false} ZeroFactors(shares: Dec, rate: Dec, price: Dec)
    ensures Product(shares, rate).coef == 0 ==> Product(Product(shares, rate), price).coef == 0
    ensures Raw(shares, rate, price).coef == 0 <==>
            Product(Product(shares, rate), price).coef == 0 || Complement(price).coef == 0
  {
  }

  /** The fee succeeds exactly when nothing is too large, and is then the exact raw product rounded once:
      the chosen precision itself never rounds an intermediate value and never refuses the quantum. */
  lemma {:induction false} FeeRoundsOnce(shares: Dec, rate: Dec, price: Dec)
    ensures Fee(shares, rate, price).Success? <==> Fits(shares, rate, price)
    ensures Fits(shares, rate, price) ==>
              Fee(shares, rate, price).value == Dec(Rescaled(Raw(shares, rate, price)), QUANTUM_EXPONENT)
  {
    var prec := Precision(shares, rate, price);
    var first, second, rest, raw := Product(shares, rate), Product(Product(shares, rate), price), Complement(price),
                                    Raw(shares, rate, price);
    ProductsFitPrecision(shares, rate, price);
    RawFitsPrecision(shares, rate, price);
    ZeroFactors(shares, rate, price);
    if raw.coef == 0 {
      ZeroQuantizes(raw, prec);
    }
    if second.coef == 0 {
      FeeWithZeroProduct(shares, rate, price, prec);
    } else if rest.coef == 0 {
      FeeAtParPrice(shares, rate, price, prec, first, second);
    } else {
      FeeWithProduct(shares, rate, price, prec, first, second, rest, raw);
      if !TooLarge(raw) {
        QuantizeKeeps(raw, prec);
      }
    }
  }

  /** Inputs whose digits and exponents together stay within the exponent range always succeed. */
  lemma {:induction false} OrdinaryInputsFit(shares: Dec, rate: Dec, price: Dec)
    requires Precision(shares, rate, price) <= EMAX
    ensures Fits(shares, rate, price)
  {
    ProductsFitPrecision(shares, rate, price);
    RawFitsPrecision(shares, rate, price);
    RescaledDigits(Raw(shares, rate, price), Precision(shares, rate, price));
    ProductDigits(shares, rate);
    ProductDigits(Product(shares, rate), price);
    ComplementDigits(price);
  }

  /** Not all finite inputs do: here the first product already overflows, although the fee would be zero. */
  lemma {:induction false} HugeExponentsFail()
    ensures Fee(Dec(1, 600000), Dec(1, 600000), ONE) == Failure(Overflow)
    ensures Raw(Dec(1, 600000), Dec(1, 600000), ONE).coef == 0
  {
    assert Pow10(0) == 1;
    assert Product(Dec(1, 600000), Dec(1, 600000)) == Dec(1, 1200000);
  }
}
