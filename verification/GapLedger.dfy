/** The gap counter and the last recorded gap against the gaps a run published. */
module GapLedger {
  import opened Common
  import opened OrderBooks
  import opened MarketStream
  import opened StreamSafety

  function PublishedGaps(trace: seq<Item>): nat {
    if trace == [] then 0
    else
      var item := trace[|trace| - 1];
      PublishedGaps(trace[..|trace| - 1]) + if item.Yielded? && item.output.GapOut? then 1 else 0
  }

  function LatestGap(trace: seq<Item>, otherwise: Option<BookGap>): Option<BookGap> {
    if trace == [] then otherwise
    else
      var item := trace[|trace| - 1];
      if item.Yielded? && item.output.GapOut? then Some(item.output.gap)
      else LatestGap(trace[..|trace| - 1], otherwise)
  }

  lemma {:induction false} GapsConcat(first: seq<Item>, second: seq<Item>, otherwise: Option<BookGap>)
    ensures PublishedGaps(first + second) == PublishedGaps(first) + PublishedGaps(second)
    ensures LatestGap(first + second, otherwise) == LatestGap(second, LatestGap(first, otherwise))
  {
    if second == [] {
      assert first + second == first;
    } else {
      assert (first + second)[..|first + second| - 1] == first + second[..|second| - 1];
      GapsConcat(first, second[..|second| - 1], otherwise);
    }
  }

  lemma {:induction false} NoGapsYielded(snapshots: seq<Snapshot>, otherwise: Option<BookGap>)
    ensures PublishedGaps(Yield(snapshots)) == 0 && LatestGap(Yield(snapshots), otherwise) == otherwise
  {
    if snapshots != [] {
      assert Yield(snapshots)[..|snapshots| - 1] == Yield(snapshots[..|snapshots| - 1]);
      NoGapsYielded(snapshots[..|snapshots| - 1], otherwise);
    }
  }

  ghost predicate Ledger(s: State, s': State, items: seq<Item>) {
    && s'.lastGap == LatestGap(items, s.lastGap)
    && (if s'.raised then PublishedGaps(items) <= s'.gapCount - s.gapCount <= PublishedGaps(items) + 1
        else s'.gapCount - s.gapCount == PublishedGaps(items))
  }

  lemma {:induction false} MessageLedger(g: Generation, s: State, m: Message, atMs: nat)
    requires g.Consistent() && s.depth.Keys <= g.index.Keys && !s.raised
    ensures Ledger(s, MessageStep(g, s, m, atMs).0, MessageStep(g, s, m, atMs).1)
  {
    if Route(g, m).Some? {
      RoutedLedger(g, s, Route(g, m).value, m, atMs);
    }
  }

  lemma {:induction false} RoutedLedger(g: Generation, s: State, market: Market, m: Message, atMs: nat)
    requires g.Consistent() && s.depth.Keys <= g.index.Keys && !s.raised && Route(g, m) == Some(market)
    ensures Ledger(s, MessageStep(g, s, m, atMs).0, MessageStep(g, s, m, atMs).1)
  {
    if m.Book? {
      BookLedger(g, s, market, m, atMs);
    } else if m.PriceChange? {
      PriceChangeLedger(g, s, market, m, atMs);
    }
  }

  lemma {:induction false} BookLedger(g: Generation, s: State, market: Market, m: Message, atMs: nat)
    requires g.Consistent() && s.depth.Keys <= g.index.Keys && !s.raised && Route(g, m) == Some(market) && m.Book?
    ensures Ledger(s, MessageStep(g, s, m, atMs).0, MessageStep(g, s, m, atMs).1)
  {
    match m.book
    case Good(book) => BaselineLedger(g, s, market, m.token.id, book, atMs);
    case Bad(issue) => RejectionLedger(g, s, market.condition, issue, atMs);
  }

  lemma {:induction false} PriceChangeLedger(g: Generation, s: State, market: Market, m: Message, atMs: nat)
    requires g.Consistent() && s.depth.Keys <= g.index.Keys && !s.raised && Route(g, m) == Some(market) && m.PriceChange?
    ensures Ledger(s, MessageStep(g, s, m, atMs).0, MessageStep(g, s, m, atMs).1)
  {
    match m.changes
    case Good(changes) => DeltaLedger(g, s, market.condition, changes, atMs);
    case Bad(issue) => RejectionLedger(g, s, market.condition, issue, atMs);
  }

  lemma {:induction false} RejectionLedger(g: Generation, s: State, condition: Condition, issue: Issue, atMs: nat)
    requires s.depth.Keys <= g.index.Keys && !s.raised
    ensures Ledger(s, InvalidateOne(g, s, condition, issue, atMs).0, InvalidateOne(g, s, condition, issue, atMs).1)
  {
  }

  lemma {:induction false} TakenLedger(s: State, s': State, item: Item, yielded: seq<Snapshot>)
    requires !s'.raised && s'.gapCount == s.gapCount && s'.lastGap == s.lastGap && !item.Yielded?
    ensures Ledger(s, s', [item]) && Ledger(s, s', [item] + Yield(yielded))
  {
    GapsConcat([item], Yield(yielded), s.lastGap);
    NoGapsYielded(yielded, s.lastGap);
  }

  lemma {:induction false} BaselineLedger(g: Generation, s: State, market: Market, t: Token, book: Depth, atMs: nat)
    requires g.Consistent() && s.depth.Keys <= g.index.Keys && !s.raised
    ensures Ledger(s, BaselineStep(g, s, market, t, book, atMs).0, BaselineStep(g, s, market, t, book, atMs).1)
  {
    match BaselineOutcome(g.index, t, book, market.condition, atMs)
    case Failure(_) =>
    case Success(snapshot) =>
      var s' := BaselineStep(g, s, market, t, book, atMs).0;
      TakenLedger(s, s', TookBaseline(t, book), [snapshot]);
      TakenLedger(s, s', TookBaseline(t, book),
                  Snapshots(g.index, s'.depth, Available(g.index, s'.depth, g.order, market.condition), atMs));
      assert [TookBaseline(t, book)] + Yield([snapshot]) == [TookBaseline(t, book), Yielded(SnapshotOut(snapshot))];
  }

  lemma {:induction false} DeltaLedger(g: Generation, s: State, condition: Condition, changes: seq<Change>, atMs: nat)
    requires g.Consistent() && s.depth.Keys <= g.index.Keys && !s.raised
    ensures Ledger(s, DeltaStep(g, s, condition, changes, atMs).0, DeltaStep(g, s, condition, changes, atMs).1)
  {
    var usable := Usable(g, s.depth, changes);
    if usable != [] && DeltaOutcome(g.index, s.depth, usable, condition, atMs).Success? {
      var s' := s.(depth := s.depth + Candidates(s.depth, usable));
      var yielded: seq<Snapshot> :=
        if condition in s.recovering then [] else DeltaOutcome(g.index, s.depth, usable, condition, atMs).value;
      assert DeltaStep(g, s, condition, changes, atMs) == (s', [TookDelta(usable)] + Yield(yielded));
      TakenLedger(s, s', TookDelta(usable), yielded);
    }
  }

  lemma {:induction false} StepLedger(g: Generation, s: State, e: Event)
    requires g.Consistent() && s.depth.Keys <= g.index.Keys && !s.raised
    ensures Ledger(s, Step(g, s, e).0, Step(g, s, e).1)
  {
    if e.dropped.Some? && e.dropped.value >= 0 && e.dropped.value >= s.dropped {
      var (s1, lost) := if e.dropped.value > s.dropped then InvalidateAll(g, s, BookStreamGap, e.dropAtMs) else (s, []);
      assert Ledger(s, s1, lost) && !s1.raised;
      MessageLedger(g, s1.(dropped := e.dropped.value), e.message, e.atMs);
      GapsConcat(lost, MessageStep(g, s1.(dropped := e.dropped.value), e.message, e.atMs).1, s.lastGap);
    }
  }

  /** The adapter's gap counter and last gap agree with the gaps the run published; only an
      unsupported reason, which ends the stream, is counted without being published. */
  lemma {:induction false} GapsAreCounted(g: Generation, s0: State, events: seq<Event>)
    requires g.Consistent() && Fresh(s0)
    ensures Ledger(s0, Run(g, s0, events).0, Run(g, s0, events).1)
  {
    if events != [] {
      var before := events[..|events| - 1];
      GapsAreCounted(g, s0, before);
      var (s, trace) := Run(g, s0, before);
      if !s.raised {
        StepLedger(g, s, events[|events| - 1]);
      } else {
        Regroup(trace, trace, []);
      }
      GapsConcat(trace, Step(g, s, events[|events| - 1]).1, s0.lastGap);
    }
  }
}
