/** The adapter itself: gap recording and the event loop, with their mutable state,
    proved to compute the stream state machine. */
module LiveStream {
  import opened Common
  import opened OrderBooks
  import opened MarketStream

  class MarketBookGaps {
    var last: Option<BookGap>
    var count: nat

    constructor ()
      ensures last == None && count == 0
    {
      last, count := None, 0;
    }

    /** Count first; an issue without a stable reason raises (None) after being counted. */
    method Record(issue: Issue, condition: Option<Condition>, atMs: nat) returns (gap: Option<BookGap>)
      modifies this
      ensures count == old(count) + 1
      ensures match ReasonFor(issue)
              case None => gap == None && last == old(last)
              case Some(reason) => gap == Some(BookGap(condition, atMs, reason)) && last == gap
    {
      count := count + 1;
      match ReasonFor(issue)
      case None =>
        gap := None;
      case Some(reason) =>
        gap := Some(BookGap(condition, atMs, reason));
        last := gap;
    }

    method InvalidateRejected(projector: BookDepthProjector, condition: Condition, issue: Issue, atMs: nat)
      returns (gap: Option<BookGap>)
      requires projector.Valid()
      modifies this, projector`depth
      ensures projector.Valid() && projector.depth == Without(projector.index, old(projector.depth), condition)
      ensures count == old(count) + 1
      ensures match ReasonFor(issue)
              case None => gap == None && last == old(last)
              case Some(reason) => gap == Some(BookGap(Some(condition), atMs, reason)) && last == gap
    {
      projector.InvalidateCondition(condition);
      gap := Record(issue, Some(condition), atMs);
    }

    method InvalidateUnrouteable(projector: BookDepthProjector, issue: Issue, atMs: nat)
      returns (gap: Option<BookGap>)
      requires projector.Valid()
      modifies this, projector`depth
      ensures projector.Valid() && projector.depth == map[]
      ensures count == old(count) + 1
      ensures match ReasonFor(issue)
              case None => gap == None && last == old(last)
              case Some(reason) => gap == Some(BookGap(None, atMs, reason)) && last == gap
    {
      projector.Clear();
      gap := Record(issue, None, atMs);
    }
  }

  lemma {:induction false} RunAfterRaise(g: Generation, s: State, events: seq<Event>, n: nat)
    requires s.depth.Keys <= g.index.Keys && n <= |events| && Run(g, s, events[..n]).0.raised
    ensures Run(g, s, events) == Run(g, s, events[..n])
  {
    if n == |events| {
      assert events[..n] == events;
    } else {
      var init := events[..|events| - 1];
      assert init[..n] == events[..n];
      RunAfterRaise(g, s, init, n);
      var (s', trace) := Run(g, s, init);
      assert trace + [] == trace;
    }
  }

  class MarketStreamAdapter {
    var markets: seq<Market>
    const gaps: MarketBookGaps

    constructor ()
      ensures markets == [] && fresh(gaps) && gaps.count == 0 && gaps.last == None
    {
      markets := [];
      gaps := new MarketBookGaps();
    }

    /** The registry the next subscription copies. Markets that share a token are refused and change
        nothing; once set, a subscription is refused only for its own token identifiers. */
    method SetMarkets(markets: seq<Market>) returns (r: Result<(), Issue>)
      modifies this`markets
      ensures r == if Unambiguous(markets) then Success(()) else Failure(AmbiguousMarketMetadata)
      ensures this.markets == if r.Success? then markets else old(this.markets)
      ensures r.Success? ==>
                forall tokenIds :: Open(this.markets, tokenIds).Failure? <==> tokenIds == {} || "" in tokenIds
    {
      IndexedExactly(markets);
      if IndexByToken(markets).None? {
        return Failure(AmbiguousMarketMetadata);
      }
      this.markets := markets;
      forall tokenIds ensures Open(markets, tokenIds).Failure? <==> tokenIds == {} || "" in tokenIds {
        OpenIsConsistent(markets, tokenIds);
      }
      return Success(());
    }

    /** One whole subscription: the generation is fixed at the start, then every delivery is folded in. */
    method Events(tokenIds: set<Token>, startDropped: nat, deliveries: seq<Event>)
      returns (r: Result<(seq<Item>, bool), Issue>)
      modifies gaps
      ensures match Open(markets, tokenIds)
              case Failure(issue) => r == Failure(issue) && gaps.count == old(gaps.count) && gaps.last == old(gaps.last)
              case Success(g) =>
                g.Consistent() &&
                var (s, trace) := Run(g, Start(startDropped, old(gaps.count), old(gaps.last)), deliveries);
                && r == Success((trace, s.raised))
                && gaps.count == s.gapCount && gaps.last == s.lastGap
    {
      OpenIsConsistent(markets, tokenIds);
      var generation := Open(markets, tokenIds);
      if generation.Failure? {
        return Failure(generation.error);
      }
      var g := generation.value;
      ghost var s0 := Start(startDropped, gaps.count, gaps.last);
      var projector := new BookDepthProjector(g.index, g.order);
      var dropped: int := startDropped;
      var recovering: set<Condition> := {};
      var raised := false;
      var trace: seq<Item> := [];
      var i := 0;
      while i < |deliveries| && !raised
        invariant 0 <= i <= |deliveries|
        invariant fresh(projector) && projector.Valid() && projector.index == g.index && projector.order == g.order
        invariant Run(g, s0, deliveries[..i]) ==
                  (State(projector.depth, recovering, dropped, gaps.count, gaps.last, raised), trace)
      {
        assert deliveries[..i + 1][..i] == deliveries[..i];
        var items;
        dropped, recovering, raised, items := Deliver(g, projector, dropped, recovering, deliveries[i]);
        trace := trace + items;
        i := i + 1;
      }
      RunAfterRaiseOrEnd(g, s0, deliveries, i);
      return Success((trace, raised));
    }

    lemma {:induction false} RunAfterRaiseOrEnd(g: Generation, s: State, events: seq<Event>, n: nat)
      requires s.depth.Keys <= g.index.Keys && n <= |events|
      requires n == |events| || Run(g, s, events[..n]).0.raised
      ensures Run(g, s, events) == Run(g, s, events[..n])
    {
      if n == |events| {
        assert events[..n] == events;
      } else {
        RunAfterRaise(g, s, events, n);
      }
    }

    method Deliver(g: Generation, projector: BookDepthProjector, dropped: int, recovering: set<Condition>, e: Event)
      returns (dropped': int, recovering': set<Condition>, raised: bool, items: seq<Item>)
      requires projector.Valid() && projector.index == g.index && projector.order == g.order
      modifies gaps, projector`depth
      ensures projector.Valid()
      ensures Step(g, State(old(projector.depth), recovering, dropped, old(gaps.count), old(gaps.last), false), e) ==
              (State(projector.depth, recovering', dropped', gaps.count, gaps.last, raised), items)
    {
      dropped', recovering', raised, items := dropped, recovering, false, [];
      if e.dropped.None? || e.dropped.value < 0 || e.dropped.value < dropped {
        raised := true;
        return;
      }
      if e.dropped.value > dropped {
        projector.Clear();
        recovering' := recovering' + g.byCondition.Keys;
        var gap := gaps.Record(BookStreamGap, None, e.dropAtMs);
        items := [Yielded(GapOut(gap.value))];
      }
      dropped' := e.dropped.value;
      var more;
      recovering', raised, more := Handle(g, projector, dropped', recovering', e.message, e.atMs);
      items := items + more;
    }

    method Handle(g: Generation, projector: BookDepthProjector, ghost dropped: int, recovering: set<Condition>, m: Message, atMs: nat)
      returns (recovering': set<Condition>, raised: bool, items: seq<Item>)
      requires projector.Valid() && projector.index == g.index && projector.order == g.order
      modifies gaps, projector`depth
      ensures projector.Valid()
      ensures MessageStep(g, State(old(projector.depth), recovering, dropped, old(gaps.count), old(gaps.last), false), m, atMs) ==
              (State(projector.depth, recovering', dropped, gaps.count, gaps.last, raised), items)
    {
      recovering', raised, items := recovering, false, [];
      var routed := Route(g, m);
      if routed.None? {
        if m.Book? || m.PriceChange? {
          var gap := gaps.InvalidateUnrouteable(projector, InvalidMarketParameters, atMs);
          recovering', items := recovering + g.byCondition.Keys, [Yielded(GapOut(gap.value))];
        }
        return;
      }
      var market := routed.value;
      match m
      case Book(_, Bad(issue)) =>
        recovering', raised, items := Reject(g, projector, dropped, recovering, market.condition, issue, atMs);
      case PriceChange(_, Bad(issue)) =>
        recovering', raised, items := Reject(g, projector, dropped, recovering, market.condition, issue, atMs);
      case Book(id, Good(book)) =>
        recovering', raised, items := TakeBaseline(g, projector, dropped, recovering, market, id.id, book, atMs);
      case PriceChange(_, Good(changes)) =>
        recovering', raised, items := TakeDelta(g, projector, dropped, recovering, market.condition, changes, atMs);
      case LastTrade(id, Good(_)) =>
        items := [Yielded(TradeHint(market.condition, id.id, market.slug, atMs))];
      case Resolved(_, Good(res)) =>
        items := [Yielded(ResolutionOut(market, res.winningToken, res.winningOutcome,
                                        if res.sourceAtMs.Some? then res.sourceAtMs.value else atMs, res.source))];
      case _ =>
    }

    method Reject(g: Generation, projector: BookDepthProjector, ghost dropped: int, recovering: set<Condition>, condition: Condition, issue: Issue, atMs: nat)
      returns (recovering': set<Condition>, raised: bool, items: seq<Item>)
      requires projector.Valid() && projector.index == g.index
      modifies gaps, projector`depth
      ensures projector.Valid()
      ensures InvalidateOne(g, State(old(projector.depth), recovering, dropped, old(gaps.count), old(gaps.last), false), condition, issue, atMs) ==
              (State(projector.depth, recovering', dropped, gaps.count, gaps.last, raised), items)
    {
      var gap := gaps.InvalidateRejected(projector, condition, issue, atMs);
      if gap.None? {
        return recovering, true, [];
      }
      return recovering + {condition}, false, [Yielded(GapOut(gap.value))];
    }

    method TakeBaseline(g: Generation, projector: BookDepthProjector, ghost dropped: int, recovering: set<Condition>,
                        market: Market, token: Token, book: Depth, atMs: nat)
      returns (recovering': set<Condition>, raised: bool, items: seq<Item>)
      requires projector.Valid() && projector.index == g.index && projector.order == g.order
      modifies gaps, projector`depth
      ensures projector.Valid()
      ensures BaselineStep(g, State(old(projector.depth), recovering, dropped, old(gaps.count), old(gaps.last), false), market, token, book, atMs) ==
              (State(projector.depth, recovering', dropped, gaps.count, gaps.last, raised), items)
    {
      var applied := projector.ApplyBaseline(token, book, market.condition, atMs);
      if applied.Failure? {
        recovering', raised, items := Reject(g, projector, dropped, recovering, market.condition, applied.error, atMs);
        return;
      }
      recovering', raised, items := recovering, false, [TookBaseline(token, book)];
      if market.condition !in recovering {
        items := [TookBaseline(token, book), Yielded(SnapshotOut(applied.value))];
      } else if projector.HasBaselines(g.Required(market)) {
        var recovered := projector.ConditionSnapshots(market.condition, atMs);
        items := items + Yield(recovered);
        recovering' := recovering - {market.condition};
      }
    }

    method TakeDelta(g: Generation, projector: BookDepthProjector, ghost dropped: int, recovering: set<Condition>,
                     condition: Condition, changes: seq<Change>, atMs: nat)
      returns (recovering': set<Condition>, raised: bool, items: seq<Item>)
      requires projector.Valid() && projector.index == g.index && projector.order == g.order
      modifies gaps, projector`depth
      ensures projector.Valid()
      ensures DeltaStep(g, State(old(projector.depth), recovering, dropped, old(gaps.count), old(gaps.last), false), condition, changes, atMs) ==
              (State(projector.depth, recovering', dropped, gaps.count, gaps.last, raised), items)
    {
      ghost var before := State(projector.depth, recovering, dropped, gaps.count, gaps.last, false);
      DeltaStepCases(g, before, condition, changes, atMs);
      var usable := Usable(g, projector.depth, changes);
      recovering', raised, items := recovering, false, [];
      if usable != [] {
        var applied := projector.ApplyDelta(usable, condition, atMs);
        if applied.Failure? {
          recovering', raised, items := Reject(g, projector, dropped, recovering, condition, applied.error, atMs);
        } else {
          items := [TookDelta(usable)] + if condition in recovering then [] else Yield(applied.value);
        }
      }
    }
  }

  lemma {:induction false} DeltaStepCases(g: Generation, s: State, condition: Condition, changes: seq<Change>, atMs: nat)
    requires s.depth.Keys <= g.index.Keys
    ensures var usable := Usable(g, s.depth, changes);
            var applied := DeltaOutcome(g.index, s.depth, usable, condition, atMs);
            DeltaStep(g, s, condition, changes, atMs) ==
            if usable == [] then (s, [])
            else if applied.Failure? then InvalidateOne(g, s, condition, applied.error, atMs)
            else (s.(depth := s.depth + Candidates(s.depth, usable)),
                  [TookDelta(usable)] + if condition in s.recovering then [] else Yield(applied.value))
  {
  }
}
