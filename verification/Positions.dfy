/** Signed-position accounting: adds, reductions, exact closes and flips, over exact numbers. */
module Positions {
  import opened Common

  datatype Side = Buy | Sell

  datatype Fill = Fill(side: Side, size: real, price: real)

  /** What is held: a signed size and, when it is known, its average basis. */
  datatype Position = Position(size: real, basis: Option<real>)

  datatype Transition = Transition(after: Position, realized: Option<real>)

  datatype Error = FillSizeNotPositive | FillPriceNotPositive | FlatWithBasis | BasisNotPositive

  const FLAT := Position(0.0, None)

  function Abs(x: real): real { if x < 0.0 then -x else x }

  function Signed(fill: Fill): real { if fill.side.Buy? then fill.size else -fill.size }

  function InputFault(p: Position, fill: Fill): Option<Error> {
    if fill.size <= 0.0 then Some(FillSizeNotPositive)
    else if fill.price <= 0.0 then Some(FillPriceNotPositive)
    else if p.size == 0.0 && p.basis.Some? then Some(FlatWithBasis)
    else if p.basis.Some? && p.basis.value <= 0.0 then Some(BasisNotPositive)
    else None
  }

  function WeightedBasis(p: Position, fill: Fill, next: real): Option<real>
    requires next != 0.0
  {
    if p.basis.None? then None
    else Some((Abs(p.size) * p.basis.value + Abs(Signed(fill)) * fill.price) / Abs(next))
  }

  function RealizedDelta(p: Position, closed: real, price: real): Option<real> {
    if p.basis.None? then None
    else Some(closed * if p.size > 0.0 then price - p.basis.value else p.basis.value - price)
  }

  /** Same direction: both long or both short. */
  predicate Adds(p: Position, fill: Fill) {
    (p.size > 0.0 && Signed(fill) > 0.0) || (p.size < 0.0 && Signed(fill) < 0.0)
  }

  function Apply(p: Position, fill: Fill): Result<Transition, Error> {
    if InputFault(p, fill).Some? then Failure(InputFault(p, fill).value)
    else Success(Moved(p, fill))
  }

  function Moved(p: Position, fill: Fill): Transition
    requires InputFault(p, fill).None?
  {
    var next := p.size + Signed(fill);
    if p.size == 0.0 then Transition(Position(next, Some(fill.price)), Some(0.0))
    else if Adds(p, fill) then Transition(Position(next, WeightedBasis(p, fill, next)), Some(0.0))
    else
      var closed := if Abs(p.size) < fill.size then Abs(p.size) else fill.size;
      var basis :=
        if next == 0.0 then None
        else if (p.size > 0.0) != (next > 0.0) then Some(fill.price)
        else p.basis;
      Transition(Position(next, basis), RealizedDelta(p, closed, fill.price))
  }

  // ---------- whole histories ----------

  /** A position whose basis is known, as every position reached from flat is. */
  predicate Known(p: Position) {
    && (p.size == 0.0 <==> p.basis.None?)
    && (p.basis.Some? ==> p.basis.value > 0.0)
  }

  predicate ValidFill(fill: Fill) { fill.size > 0.0 && fill.price > 0.0 }

  function Basis(p: Position): real { if p.basis.Some? then p.basis.value else 0.0 }

  /** What the open position cost, signed like it. */
  function Cost(p: Position): real { p.size * Basis(p) }

  function CashFlow(fill: Fill): real { -(Signed(fill) * fill.price) }

  function Held(fills: seq<Fill>): Position
    requires forall f | f in fills :: ValidFill(f)
    ensures Known(Held(fills))
  {
    if fills == [] then FLAT
    else
      var before := Held(fills[..|fills| - 1]);
      var fill := fills[|fills| - 1];
      assert ValidFill(fill);
      KnownIsKept(before, fill);
      Moved(before, fill).after
  }

  function Realized(fills: seq<Fill>): real
    requires forall f | f in fills :: ValidFill(f)
  {
    if fills == [] then 0.0
    else
      var before := Held(fills[..|fills| - 1]);
      var fill := fills[|fills| - 1];
      assert ValidFill(fill);
      KnownIsKept(before, fill);
      Realized(fills[..|fills| - 1]) + Moved(before, fill).realized.value
  }

  function Cash(fills: seq<Fill>): real {
    if fills == [] then 0.0 else Cash(fills[..|fills| - 1]) + CashFlow(fills[|fills| - 1])
  }

  lemma {:induction false} PositiveQuotient(x: real, y: real)
    requires x > 0.0 && y > 0.0
    ensures x / y > 0.0 && (x / y) * y == x
  {
  }

  lemma {:induction false} PositiveProduct(x: real, y: real)
    requires x > 0.0 && y > 0.0
    ensures x * y > 0.0
  {
  }

  lemma {:induction false} WeightedBasisIsPositive(p: Position, fill: Fill)
    requires Known(p) && ValidFill(fill) && Adds(p, fill)
    ensures var next := p.size + Signed(fill);
            var basis := WeightedBasis(p, fill, next);
            && basis.Some? && basis.value > 0.0
            && basis.value * Abs(next) == Abs(p.size) * p.basis.value + fill.size * fill.price
  {
    PositiveProduct(Abs(p.size), p.basis.value);
    PositiveProduct(fill.size, fill.price);
    var next := p.size + Signed(fill);
    PositiveQuotient(Abs(p.size) * p.basis.value + Abs(Signed(fill)) * fill.price, Abs(next));
  }

  /** Each output passes the next call's validation: size zero has no basis and any basis is positive. */
  lemma {:induction false} KnownIsKept(p: Position, fill: Fill)
    requires Known(p) && ValidFill(fill)
    ensures InputFault(p, fill).None?
    ensures Known(Moved(p, fill).after) && Moved(p, fill).realized.Some?
  {
    if Adds(p, fill) {
      WeightedBasisIsPositive(p, fill);
    }
  }

  /** One fill: what it realizes is its cash flow plus the change in what the open position cost. */
  lemma {:induction false} FillBalances(p: Position, fill: Fill)
    requires Known(p) && ValidFill(fill)
    ensures InputFault(p, fill).None?
    ensures var t := Moved(p, fill);
            t.realized.Some? && t.realized.value == CashFlow(fill) + Cost(t.after) - Cost(p)
  {
    KnownIsKept(p, fill);
    if p.size == 0.0 {
    } else if Adds(p, fill) {
      AddBalances(p, fill);
    } else {
      ReduceBalances(p, fill);
    }
  }

  lemma {:induction false} AddBalances(p: Position, fill: Fill)
    requires Known(p) && ValidFill(fill) && Adds(p, fill)
    ensures InputFault(p, fill).None? && Cost(Moved(p, fill).after) == Cost(p) + Signed(fill) * fill.price
  {
    WeightedBasisIsPositive(p, fill);
    var next := p.size + Signed(fill);
    var b := WeightedBasis(p, fill, next).value;
    if p.size < 0.0 {
      Negated(-next, b);
      Negated(-p.size, p.basis.value);
      Negated(fill.size, fill.price);
    }
  }

  lemma {:induction false} Negated(x: real, y: real)
    ensures (-x) * y == -(x * y)
  {
  }

  lemma {:induction false} ReduceBalances(p: Position, fill: Fill)
    requires Known(p) && ValidFill(fill) && p.size != 0.0 && !Adds(p, fill)
    ensures InputFault(p, fill).None?
    ensures var t := Moved(p, fill);
            t.realized.Some? && t.realized.value == CashFlow(fill) + Cost(t.after) - Cost(p)
  {
    var s, f, b, q := p.size, Signed(fill), p.basis.value, fill.price;
    var next := s + f;
    if next == 0.0 {
      ClosedValue(s, b, q, fill.size);
    } else if (s > 0.0) != (next > 0.0) {
      FlippedValue(s, f, b, q);
    } else {
      ReducedValue(s, f, b, q);
    }
  }

  lemma {:induction false} ClosedValue(s: real, b: real, q: real, size: real)
    ensures s * (q - b) == s * q - s * b && (-s) * (b - q) == s * q - s * b
  {
  }

  lemma {:induction false} FlippedValue(s: real, f: real, b: real, q: real)
    ensures s * (q - b) == -(f * q) + (s + f) * q - s * b
    ensures (-s) * (b - q) == -(f * q) + (s + f) * q - s * b
  {
  }

  lemma {:induction false} ReducedValue(s: real, f: real, b: real, q: real)
    ensures (-f) * (q - b) == -(f * q) + (s + f) * b - s * b
    ensures f * (b - q) == -(f * q) + (s + f) * b - s * b
  {
  }

  /** Over any fills from flat, total realized profit is the cash taken in plus what is still held at basis:
      no value appears or is lost through adds, reductions, exact closes or flips. */
  lemma {:induction false} RealizedIsCashPlusCost(fills: seq<Fill>)
    requires forall f | f in fills :: ValidFill(f)
    ensures Realized(fills) == Cash(fills) + Cost(Held(fills))
  {
    if fills != [] {
      var front, fill := fills[..|fills| - 1], fills[|fills| - 1];
      assert ValidFill(fill);
      RealizedIsCashPlusCost(front);
      FillBalances(Held(front), fill);
    }
  }

  /** A round trip: whenever the position is flat again, realized profit is exactly the cash. */
  lemma {:induction false} FlatMeansCash(fills: seq<Fill>)
    requires forall f | f in fills :: ValidFill(f)
    requires Held(fills).size == 0.0
    ensures Held(fills) == FLAT && Realized(fills) == Cash(fills)
  {
    RealizedIsCashPlusCost(fills);
  }

  /** The same history through the validating call: it stops at the first invalid fill. */
  function Replay(fills: seq<Fill>): Result<(Position, real), Error> {
    if fills == [] then Success((FLAT, 0.0))
    else
      match Replay(fills[..|fills| - 1])
      case Failure(e) => Failure(e)
      case Success((p, realized)) =>
        match Apply(p, fills[|fills| - 1])
        case Failure(e) => Failure(e)
        case Success(t) => Success((t.after, realized + if t.realized.Some? then t.realized.value else 0.0))
  }

  /** Fed its own outputs, the call only ever refuses a fill for the fill's own size or price. */
  lemma {:induction false} ReplaySucceeds(fills: seq<Fill>)
    ensures Replay(fills).Success? <==> forall f | f in fills :: ValidFill(f)
    ensures Replay(fills).Success? ==> Replay(fills).value == (Held(fills), Realized(fills))
    ensures Replay(fills).Failure? ==> Replay(fills).error in {FillSizeNotPositive, FillPriceNotPositive}
  {
    if fills != [] {
      var front, fill := fills[..|fills| - 1], fills[|fills| - 1];
      ReplaySucceeds(front);
      assert fills == front + [fill];
      if Replay(front).Success? {
        if ValidFill(fill) {
          KnownIsKept(Held(front), fill);
        } else {
          assert fill in fills;
        }
      } else {
        var bad :| bad in front && !ValidFill(bad);
        assert bad in fills;
      }
    }
  }

  /** Splitting a fill at one price changes nothing: same position, same total realized profit. */
  lemma {:induction false} SplitFill(p: Position, fa: Fill, fb: Fill, fab: Fill)
    requires Known(p) && ValidFill(fa) && ValidFill(fb) && fa.side == fb.side && fa.price == fb.price
    requires fab == Fill(fa.side, fa.size + fb.size, fa.price)
    ensures Apply(p, fa).Success? && Apply(p, fab).Success?
    ensures var mid := Apply(p, fa).value;
            var whole := Apply(p, fab).value;
            && Apply(mid.after, fb).Success?
            && var last := Apply(mid.after, fb).value;
            && last.after == whole.after
            && mid.realized.Some? && last.realized.Some?
            && whole.realized == Some(mid.realized.value + last.realized.value)
  {
    KnownIsKept(p, fa);
    var mid := Moved(p, fa);
    KnownIsKept(mid.after, fb);
    KnownIsKept(p, fab);
    var last, whole := Moved(mid.after, fb), Moved(p, fab);
    SplitSamePosition(p, fa, fb, fab);
    FillBalances(p, fa);
    FillBalances(mid.after, fb);
    FillBalances(p, fab);
    CashSplits(fa, fb, fab);
    assert whole.realized.value == mid.realized.value + last.realized.value;
  }

  lemma {:induction false} CashSplits(fa: Fill, fb: Fill, fab: Fill)
    requires fa.side == fb.side && fa.price == fb.price && fab == Fill(fa.side, fa.size + fb.size, fa.price)
    ensures CashFlow(fab) == CashFlow(fa) + CashFlow(fb)
  {
    SumTimes(Signed(fa), Signed(fb), fa.price);
  }

  lemma {:induction false} SumTimes(x: real, y: real, z: real)
    ensures (x + y) * z == x * z + y * z
  {
  }

  lemma {:induction false} SplitSamePosition(p: Position, fa: Fill, fb: Fill, fab: Fill)
    requires Known(p) && ValidFill(fa) && ValidFill(fb) && fa.side == fb.side && fa.price == fb.price
    requires fab == Fill(fa.side, fa.size + fb.size, fa.price)
    ensures InputFault(p, fa).None? && Known(Moved(p, fa).after) && InputFault(p, fab).None?
    ensures var mid := Moved(p, fa).after; Moved(mid, fb).after == Moved(p, fab).after
  {
    KnownIsKept(p, fa);
    var mid := Moved(p, fa).after;
    if Adds(p, fa) {
      SplitAdd(p, fa, fb, fab, mid);
    } else if Adds(mid, fb) && mid.basis == Some(fa.price) {
      AddAtBasis(mid, fb);
    }
  }

  lemma {:induction false} SplitAdd(p: Position, fa: Fill, fb: Fill, fab: Fill, mid: Position)
    requires Known(p) && ValidFill(fa) && ValidFill(fb) && fa.side == fb.side && fa.price == fb.price
    requires fab == Fill(fa.side, fa.size + fb.size, fa.price) && Adds(p, fa)
    requires Known(mid) && InputFault(p, fa).None? && mid == Moved(p, fa).after
    ensures Moved(mid, fb).after == Moved(p, fab).after
  {
    var b1, n1, cost, added := Weighted(p, fa);
    var b2, n2, cost2, added2 := Weighted(mid, fb);
    var b3, n3, cost3, added3 := Weighted(p, fab);
    SumTimes(fa.size, fb.size, fa.price);
    SameWeights(b1, n1, cost, added, b2, n2, cost2, added2, b3, added3);
  }

  /** The basis after an add, the size it is for, and the two costs it averages. */
  lemma {:induction false} Weighted(p: Position, fill: Fill) returns (basis: real, next: real, cost: real, added: real)
    requires Known(p) && ValidFill(fill) && Adds(p, fill)
    ensures WeightedBasis(p, fill, p.size + Signed(fill)) == Some(basis)
    ensures next == Abs(p.size + Signed(fill)) && next > 0.0 && basis * next == cost + added
    ensures cost == Abs(p.size) * p.basis.value && added == fill.size * fill.price
  {
    WeightedBasisIsPositive(p, fill);
    next := Abs(p.size + Signed(fill));
    basis := WeightedBasis(p, fill, p.size + Signed(fill)).value;
    cost, added := Abs(p.size) * p.basis.value, fill.size * fill.price;
  }

  lemma {:induction false} SameWeights(b1: real, n1: real, cost: real, added: real, b2: real, n2: real, cost2: real, added2: real,
                                       b3: real, added3: real)
    requires b1 * n1 == cost + added && cost2 == n1 * b1 && b2 * n2 == cost2 + added2
    requires b3 * n2 == cost + added3 && added3 == added + added2 && n2 > 0.0
    ensures b2 == b3
  {
    Commuted(n1, b1);
    SameProduct(b2, b3, n2);
  }

  lemma {:induction false} Commuted(x: real, y: real)
    ensures x * y == y * x
  {
  }

  lemma {:induction false} SameProduct(x: real, y: real, n: real)
    requires n > 0.0 && x * n == y * n
    ensures x == y
  {
    assert (x - y) * n == 0.0;
  }

  lemma {:induction false} AddAtBasis(p: Position, fill: Fill)
    requires Known(p) && ValidFill(fill) && Adds(p, fill) && p.basis == Some(fill.price)
    ensures Moved(p, fill).after == Position(p.size + Signed(fill), p.basis)
  {
    WeightedBasisIsPositive(p, fill);
    var next := p.size + Signed(fill);
    SumTimes(Abs(p.size), fill.size, fill.price);
    SameProduct(WeightedBasis(p, fill, next).value, fill.price, Abs(next));
  }

  /** Inherited positions may have an unknown basis: it stays unknown exactly until the position is closed or
      flipped, and profit is unknown exactly for the fills that reduce it. */
  lemma {:induction false} UnknownBasis(p: Position, fill: Fill)
    requires InputFault(p, fill).None?
    ensures var t := Moved(p, fill);
            && (t.realized.None? <==> p.basis.None? && p.size != 0.0 && !Adds(p, fill))
            && (t.after.basis.None? <==>
                t.after.size == 0.0 || (p.basis.None? && ((p.size > 0.0 && t.after.size > 0.0) || (p.size < 0.0 && t.after.size < 0.0))))
            && forall next | ValidFill(next) :: InputFault(t.after, next).None?
  {
    if Adds(p, fill) && p.basis.Some? {
      WeightedBasisIsPositive(p, fill);
    }
  }

  // ---------- reductions separate into lots ----------

  /** What a fill against a position closes of it: no more than there is. */
  function Closed(p: Position, fill: Fill): real {
    if fill.size < Abs(p.size) then fill.size else Abs(p.size)
  }

  /** The part of the position that is closed, as a position of its own, and the fill that closes just it. */
  function ClosedLot(p: Position, fill: Fill): Position {
    Position(if p.size > 0.0 then Closed(p, fill) else -Closed(p, fill), p.basis)
  }

  function ClosingFill(p: Position, fill: Fill): Fill { fill.(size := Closed(p, fill)) }

  lemma {:induction false} LotCloses(p: Position, fill: Fill)
    requires InputFault(p, fill).None? && p.size != 0.0 && !Adds(p, fill)
    ensures var lot := ClosedLot(p, fill);
            var closing := ClosingFill(p, fill);
            && InputFault(lot, closing).None? && lot.size != 0.0 && !Adds(lot, closing)
            && Closed(lot, closing) == Closed(p, fill) && lot.size + Signed(closing) == 0.0
            && (lot.size > 0.0 <==> p.size > 0.0) && lot.basis == p.basis
  {
  }

  function UnitProfit(p: Position, price: real): real {
    if p.size > 0.0 then price - Basis(p) else Basis(p) - price
  }

  /** Profit is known when the basis is, and is then the closed size times the difference to the price. */
  predicate Realizes(realized: Option<real>, p: Position, closed: real, price: real) {
    (realized.Some? <==> p.basis.Some?) && (realized.Some? ==> realized.value == closed * UnitProfit(p, price))
  }

  lemma {:induction false} ReductionRealizes(p: Position, fill: Fill)
    requires InputFault(p, fill).None? && p.size != 0.0 && !Adds(p, fill)
    ensures Realizes(Moved(p, fill).realized, p, Closed(p, fill), fill.price)
  {
    var closed := if Abs(p.size) < fill.size then Abs(p.size) else fill.size;
    assert closed == Closed(p, fill);
    assert Moved(p, fill).realized == RealizedDelta(p, closed, fill.price);
    if p.size > 0.0 {
      assert p.basis.Some? ==> RealizedDelta(p, closed, fill.price).value == closed * (fill.price - p.basis.value);
    }
  }

  lemma {:induction false} SameProfit(r: Option<real>, s: Option<real>, p: Position, q: Position, closed: real, price: real)
    requires Realizes(r, p, closed, price) && Realizes(s, q, closed, price)
    requires p.basis == q.basis && (p.size > 0.0 <==> q.size > 0.0)
    ensures r == s
  {
    if r.Some? {
      assert UnitProfit(p, price) == UnitProfit(q, price);
      var x, y := r.value, s.value;
      assert x == y;
      assert r == Some(x) && s == Some(y);
    }
  }

  /** A fill against a position realizes what closing a position of just the closed size at the same basis
      realizes, that size times the price difference. It leaves the rest at the basis it had; a fill larger
      than the position leaves what opening from flat with the excess gives. */
  lemma {:induction false} ReductionIsLots(p: Position, fill: Fill)
    requires InputFault(p, fill).None? && p.size != 0.0 && !Adds(p, fill)
    ensures var t := Moved(p, fill);
            && Apply(p, fill) == Success(t)
            && Apply(ClosedLot(p, fill), ClosingFill(p, fill)) == Success(Transition(FLAT, t.realized))
            && Realizes(t.realized, p, Closed(p, fill), fill.price)
            && (fill.size < Abs(p.size) ==> t.after == Position(p.size + Signed(fill), p.basis))
            && (fill.size == Abs(p.size) ==> t.after == FLAT)
            && (fill.size > Abs(p.size) ==>
                  Apply(FLAT, fill.(size := fill.size - Abs(p.size))) == Success(Transition(t.after, Some(0.0))))
  {
    var lot, closing := ClosedLot(p, fill), ClosingFill(p, fill);
    LotCloses(p, fill);
    ReductionRealizes(p, fill);
    ReductionRealizes(lot, closing);
    SameProfit(Moved(p, fill).realized, Moved(lot, closing).realized, p, lot, Closed(p, fill), fill.price);
    RestLeft(p, fill);
    RestLeft(lot, closing);
  }

  lemma {:induction false} RestLeft(p: Position, fill: Fill)
    requires InputFault(p, fill).None? && p.size != 0.0 && !Adds(p, fill)
    ensures var t := Moved(p, fill);
            && (fill.size < Abs(p.size) ==> t.after == Position(p.size + Signed(fill), p.basis))
            && (fill.size == Abs(p.size) ==> t.after == FLAT)
            && (fill.size > Abs(p.size) ==>
                  Apply(FLAT, fill.(size := fill.size - Abs(p.size))) == Success(Transition(t.after, Some(0.0))))
  {
  }

  // ---------- whole histories as open lots ----------

  /** Part of one entry that is still open. */
  datatype Lot = Lot(size: real, price: real)

  /** Bought less sold. */
  function Net(fills: seq<Fill>): real {
    if fills == [] then 0.0 else Net(fills[..|fills| - 1]) + Signed(fills[|fills| - 1])
  }

  function Share(lot: Lot, k: real): Lot { lot.(size := lot.size * k) }

  function Scaled(lots: seq<Lot>, k: real): (scaled: seq<Lot>)
    ensures |scaled| == |lots| && forall i | 0 <= i < |lots| :: scaled[i] == Share(lots[i], k)
  {
    seq(|lots|, i requires 0 <= i < |lots| => Share(lots[i], k))
  }

  /** The lots open after a fill: one that opens or flips starts afresh, one that adds is a lot more, and one
      that reduces takes the same share of every lot. */
  function LotsAfter(before: real, fill: Fill, lots: seq<Lot>): seq<Lot> {
    var after := before + Signed(fill);
    if after == 0.0 then []
    else if before == 0.0 || (before > 0.0) != (after > 0.0) then [Lot(Abs(after), fill.price)]
    else if Abs(after) > Abs(before) then lots + [Lot(fill.size, fill.price)]
    else Scaled(lots, Abs(after) / Abs(before))
  }

  function OpenLots(fills: seq<Fill>): seq<Lot> {
    if fills == [] then []
    else LotsAfter(Net(fills[..|fills| - 1]), fills[|fills| - 1], OpenLots(fills[..|fills| - 1]))
  }

  function LotSize(lots: seq<Lot>): real {
    if lots == [] then 0.0 else LotSize(lots[..|lots| - 1]) + lots[|lots| - 1].size
  }

  function LotCost(lots: seq<Lot>): real {
    if lots == [] then 0.0 else LotCost(lots[..|lots| - 1]) + Value(lots[|lots| - 1])
  }

  function Value(lot: Lot): real { lot.size * lot.price }

  lemma {:induction false} ScaledSums(lots: seq<Lot>, scaled: seq<Lot>, k: real)
    requires |scaled| == |lots| && forall i | 0 <= i < |lots| :: scaled[i] == Share(lots[i], k)
    ensures LotSize(scaled) == k * LotSize(lots)
    ensures LotCost(scaled) == k * LotCost(lots)
  {
    if lots != [] {
      var front, last := lots[..|lots| - 1], lots[|lots| - 1];
      var front', last' := scaled[..|lots| - 1], scaled[|lots| - 1];
      ScaledSums(front, front', k);
      assert last' == Share(last, k);
      SizeShared(k, LotSize(front), LotSize(front'), last.size);
      CostShared(k, LotCost(front), LotCost(front'), last.size, last.price);
    }
  }

  lemma {:induction false} SizeShared(k: real, sum: real, scaled: real, size: real)
    requires scaled == k * sum
    ensures scaled + size * k == k * (sum + size)
  {
  }

  lemma {:induction false} CostShared(k: real, sum: real, scaled: real, size: real, price: real)
    requires scaled == k * sum
    ensures scaled + (size * k) * price == k * (sum + size * price)
  {
  }

  lemma {:induction false} AddedSums(lots: seq<Lot>, lot: Lot)
    ensures LotSize(lots + [lot]) == LotSize(lots) + lot.size
    ensures LotCost(lots + [lot]) == LotCost(lots) + Value(lot)
  {
    assert (lots + [lot])[..|lots|] == lots;
  }

  ghost predicate Averages(lots: seq<Lot>, size: real, basis: real) {
    LotSize(lots) == size && LotCost(lots) == size * basis
  }

  /** Over any fills from flat, the position is what was bought less what was sold, held at the average price
      of the lots still open, weighted by their sizes. */
  lemma {:induction false} HeldIsOpenLots(fills: seq<Fill>)
    requires forall f | f in fills :: ValidFill(f)
    ensures Held(fills).size == Net(fills) && Averages(OpenLots(fills), Abs(Net(fills)), Basis(Held(fills)))
  {
    if fills != [] {
      var front, fill := fills[..|fills| - 1], fills[|fills| - 1];
      assert ValidFill(fill);
      HeldIsOpenLots(front);
      LotsStep(Held(front), fill, OpenLots(front));
      assert Held(fills) == Moved(Held(front), fill).after;
    }
  }

  /** One fill moves the position and the lots alike. */
  lemma {:induction false} LotsStep(p: Position, fill: Fill, lots: seq<Lot>)
    requires Known(p) && ValidFill(fill) && Averages(lots, Abs(p.size), Basis(p))
    ensures InputFault(p, fill).None?
    ensures var p' := Moved(p, fill).after;
            p'.size == p.size + Signed(fill) && Averages(LotsAfter(p.size, fill, lots), Abs(p'.size), Basis(p'))
  {
    KnownIsKept(p, fill);
    var after := p.size + Signed(fill);
    if p.size == 0.0 {
      OneLot(Abs(after), fill.price);
    } else if Adds(p, fill) {
      LotAdded(p, fill, lots);
    } else {
      RestLeft(p, fill);
      if fill.size > Abs(p.size) {
        OneLot(Abs(after), fill.price);
      } else if fill.size < Abs(p.size) {
        LotsReduced(Abs(p.size), Abs(after), Basis(p), lots);
      }
    }
  }

  lemma {:induction false} OneLot(size: real, price: real)
    ensures Averages([Lot(size, price)], size, price)
  {
    AddedSums([], Lot(size, price));
    assert [] + [Lot(size, price)] == [Lot(size, price)];
  }

  lemma {:induction false} LotAdded(p: Position, fill: Fill, lots: seq<Lot>)
    requires Known(p) && ValidFill(fill) && Adds(p, fill) && Averages(lots, Abs(p.size), Basis(p))
    ensures InputFault(p, fill).None?
    ensures Averages(lots + [Lot(fill.size, fill.price)], Abs(p.size + Signed(fill)), Basis(Moved(p, fill).after))
  {
    KnownIsKept(p, fill);
    AddedSums(lots, Lot(fill.size, fill.price));
    var basis, next, cost, added := Weighted(p, fill);
    Commuted(basis, next);
  }

  lemma {:induction false} LotsReduced(whole: real, part: real, basis: real, lots: seq<Lot>)
    requires whole > 0.0 && Averages(lots, whole, basis)
    ensures Averages(Scaled(lots, part / whole), part, basis)
  {
    ScaledSums(lots, Scaled(lots, part / whole), part / whole);
    Shared(whole, part, basis);
  }

  lemma {:induction false} Shared(whole: real, part: real, basis: real)
    requires whole > 0.0
    ensures (part / whole) * whole == part && (part / whole) * (whole * basis) == part * basis
  {
    var k := part / whole;
    assert k * whole == part;
    assert k * (whole * basis) == (k * whole) * basis;
  }

  /** So a basis never leaves the range of the prices filled at. */
  lemma {:induction false} BasisWithinPrices(fills: seq<Fill>, low: real, high: real)
    requires forall f | f in fills :: ValidFill(f) && low <= f.price <= high
    requires Held(fills).size != 0.0
    ensures low <= Basis(Held(fills)) <= high
  {
    HeldIsOpenLots(fills);
    LotsWithin(fills, low, high);
    AverageWithin(OpenLots(fills), Abs(Net(fills)), Basis(Held(fills)), low, high);
  }

  lemma {:induction false} AverageWithin(lots: seq<Lot>, n: real, b: real, low: real, high: real)
    requires Averages(lots, n, b) && Within(lots, low, high) && n > 0.0
    ensures low <= b <= high
  {
    CostWithin(lots, low, high);
    Bounded(LotSize(lots), LotCost(lots), b, low, high);
  }

  lemma {:induction false} Bounded(size: real, cost: real, b: real, low: real, high: real)
    requires size > 0.0 && cost == size * b && Ranges(size, cost, low, high)
    ensures low <= b <= high
  {
    if b < low { PositiveProduct(size, low - b); }
    if b > high { PositiveProduct(size, b - high); }
  }

  ghost predicate Within(lots: seq<Lot>, low: real, high: real) {
    forall lot | lot in lots :: lot.size >= 0.0 && low <= lot.price <= high
  }

  lemma {:induction false} ScaledWithin(lots: seq<Lot>, k: real, low: real, high: real)
    requires Within(lots, low, high) && k >= 0.0
    ensures Within(Scaled(lots, k), low, high)
  {
    forall i | 0 <= i < |lots| ensures Share(lots[i], k).size >= 0.0 {
      NonNegativeProduct(lots[i].size, k);
    }
  }

  lemma {:induction false} NonNegativeProduct(x: real, y: real)
    requires x >= 0.0 && y >= 0.0
    ensures x * y >= 0.0
  {
  }

  lemma {:induction false} LotsWithin(fills: seq<Fill>, low: real, high: real)
    requires forall f | f in fills :: ValidFill(f) && low <= f.price <= high
    ensures Within(OpenLots(fills), low, high)
  {
    if fills != [] {
      var front, fill := fills[..|fills| - 1], fills[|fills| - 1];
      assert fill in fills && forall f | f in front :: f in fills;
      LotsWithin(front, low, high);
      var before, after := Net(front), Net(fills);
      if before != 0.0 {
        Quotient(Abs(after), Abs(before));
        ScaledWithin(OpenLots(front), Abs(after) / Abs(before), low, high);
      }
    }
  }

  lemma {:induction false} Quotient(x: real, y: real)
    requires x >= 0.0 && y > 0.0
    ensures x / y >= 0.0
  {
  }

  predicate Ranges(size: real, cost: real, low: real, high: real) {
    low * size <= cost <= high * size
  }

  lemma {:induction false} FrontWithin(lots: seq<Lot>, low: real, high: real)
    requires Within(lots, low, high) && lots != []
    ensures Within(lots[..|lots| - 1], low, high)
    ensures var last := lots[|lots| - 1]; last.size >= 0.0 && low <= last.price <= high
  {
  }

  lemma {:induction false} CostWithin(lots: seq<Lot>, low: real, high: real)
    requires Within(lots, low, high)
    ensures Ranges(LotSize(lots), LotCost(lots), low, high)
  {
    if lots != [] {
      var front, last := lots[..|lots| - 1], lots[|lots| - 1];
      FrontWithin(lots, low, high);
      CostWithin(front, low, high);
      LotWithin(LotSize(front), LotCost(front), last, low, high);
      assert LotSize(lots) == LotSize(front) + last.size;
      assert LotCost(lots) == LotCost(front) + Value(last);
    }
  }

  lemma {:induction false} LotWithin(size: real, cost: real, lot: Lot, low: real, high: real)
    requires Ranges(size, cost, low, high) && lot.size >= 0.0 && low <= lot.price <= high
    ensures Ranges(size + lot.size, cost + Value(lot), low, high)
  {
    NonNegativeProduct(lot.size, lot.price - low);
    NonNegativeProduct(lot.size, high - lot.price);
  }
}
