/** Completeness of the stream: what a consumer has last been shown is exactly what the
    projector owns, for every condition that is not held back. */
module ConsumerView {
  import opened Common
  import opened OrderBooks
  import opened MarketStream
  import opened StreamSafety

  /** The book a consumer that honours gaps still believes in. */
  function Seen(g: Generation, trace: seq<Item>, t: Token): Option<Depth> {
    if trace == [] then None
    else
      var item := trace[|trace| - 1];
      if item.Yielded? && item.output.SnapshotOut? && item.output.snapshot.token == t
      then Some(item.output.snapshot.depth)
      else if IsGapFor(g, item, t) then None
      else Seen(g, trace[..|trace| - 1], t)
  }

  function Owned(g: Generation, s: State, t: Token): Option<Depth> {
    if t in s.depth && t in g.index && g.index[t].condition !in s.recovering then Some(s.depth[t]) else None
  }

  lemma {:induction false} SeenAppend(g: Generation, trace: seq<Item>, item: Item, t: Token)
    ensures Seen(g, trace + [item], t) ==
            if item.Yielded? && item.output.SnapshotOut? && item.output.snapshot.token == t
            then Some(item.output.snapshot.depth)
            else if IsGapFor(g, item, t) then None
            else Seen(g, trace, t)
  {
    assert (trace + [item])[..|trace|] == trace;
  }

  predicate Mentions(snapshots: seq<Snapshot>, t: Token) {
    exists i | 0 <= i < |snapshots| :: snapshots[i].token == t
  }

  lemma {:induction false} SeenYield(g: Generation, trace: seq<Item>, depth: map<Token, Depth>, snapshots: seq<Snapshot>, t: Token)
    requires forall i | 0 <= i < |snapshots| :: snapshots[i].token in depth && snapshots[i].depth == depth[snapshots[i].token]
    ensures Seen(g, trace + Yield(snapshots), t) ==
            if Mentions(snapshots, t) then Some(depth[t]) else Seen(g, trace, t)
  {
    if snapshots == [] {
      assert trace + Yield(snapshots) == trace;
    } else {
      var last := |snapshots| - 1;
      SeenYield(g, trace, depth, snapshots[..last], t);
      assert trace + Yield(snapshots) == trace + Yield(snapshots[..last]) + [Yielded(SnapshotOut(snapshots[last]))];
      SeenAppend(g, trace + Yield(snapshots[..last]), Yielded(SnapshotOut(snapshots[last])), t);
      if Mentions(snapshots[..last], t) {
        var i :| 0 <= i < last && snapshots[..last][i].token == t;
        assert snapshots[i].token == t;
      }
    }
  }

  /** One item that enters owned depth, then the books it makes visible. */
  lemma {:induction false} SeenTaken(g: Generation, trace: seq<Item>, item: Item, depth: map<Token, Depth>, snapshots: seq<Snapshot>, t: Token)
    requires !item.Yielded?
    requires forall i | 0 <= i < |snapshots| :: snapshots[i].token in depth && snapshots[i].depth == depth[snapshots[i].token]
    ensures Seen(g, trace + ([item] + Yield(snapshots)), t) ==
            if Mentions(snapshots, t) then Some(depth[t]) else Seen(g, trace, t)
  {
    SeenAppend(g, trace, item, t);
    SeenYield(g, trace + [item], depth, snapshots, t);
    Regroup(trace, [item], Yield(snapshots));
  }

  lemma {:induction false} ViewInvalidateAll(g: Generation, s: State, trace: seq<Item>, issue: Issue, atMs: nat, t: Token)
    requires Seen(g, trace, t) == Owned(g, s, t) && !InvalidateAll(g, s, issue, atMs).0.raised
    ensures var (s', items) := InvalidateAll(g, s, issue, atMs); Seen(g, trace + items, t) == Owned(g, s', t)
  {
    SeenAppend(g, trace, InvalidateAll(g, s, issue, atMs).1[0], t);
  }

  lemma {:induction false} ViewInvalidateOne(g: Generation, s: State, trace: seq<Item>, condition: Condition, issue: Issue, atMs: nat, t: Token)
    requires s.depth.Keys <= g.index.Keys
    requires Seen(g, trace, t) == Owned(g, s, t) && !InvalidateOne(g, s, condition, issue, atMs).0.raised
    ensures var (s', items) := InvalidateOne(g, s, condition, issue, atMs); Seen(g, trace + items, t) == Owned(g, s', t)
  {
    SeenAppend(g, trace, InvalidateOne(g, s, condition, issue, atMs).1[0], t);
  }

  lemma {:induction false} ViewBaseline(g: Generation, s: State, trace: seq<Item>, market: Market, token: Token, book: Depth, atMs: nat, t: Token)
    requires s.depth.Keys <= g.index.Keys && (forall u :: u in g.order <==> u in g.index)
    requires Seen(g, trace, t) == Owned(g, s, t)
    requires BaselineOutcome(g.index, token, book, market.condition, atMs).Success?
    ensures var (s', items) := BaselineStep(g, s, market, token, book, atMs); Seen(g, trace + items, t) == Owned(g, s', t)
  {
    var c := market.condition;
    var s' := BaselineStep(g, s, market, token, book, atMs).0;
    var snapshot := BaselineOutcome(g.index, token, book, c, atMs).value;
    if c !in s.recovering {
      SeenTaken(g, trace, TookBaseline(token, book), s'.depth, [snapshot], t);
      assert Mentions([snapshot], t) <==> [snapshot][0].token == t;
      assert [TookBaseline(token, book)] + Yield([snapshot]) == [TookBaseline(token, book), Yielded(SnapshotOut(snapshot))];
    } else if g.Required(market) != {} && g.Required(market) <= s'.depth.Keys {
      var available := Available(g.index, s'.depth, g.order, c);
      var recovered := Snapshots(g.index, s'.depth, available, atMs);
      SeenTaken(g, trace, TookBaseline(token, book), s'.depth, recovered, t);
      MentionsAvailable(g.index, s'.depth, available, atMs, t);
    } else {
      SeenAppend(g, trace, TookBaseline(token, book), t);
    }
  }

  lemma {:induction false} MentionsAvailable(index: map<Token, Market>, books: map<Token, Depth>, tokens: seq<Token>, atMs: nat, t: Token)
    requires forall u | u in tokens :: u in books && u in index
    ensures Mentions(Snapshots(index, books, tokens, atMs), t) <==> t in tokens
  {
    var snapshots := Snapshots(index, books, tokens, atMs);
    if t in tokens {
      var i :| 0 <= i < |tokens| && tokens[i] == t;
      assert snapshots[i].token == t;
    }
  }

  lemma {:induction false} ViewDelta(g: Generation, s: State, trace: seq<Item>, condition: Condition, changes: seq<Change>, atMs: nat, t: Token)
    requires s.depth.Keys <= g.index.Keys
    requires Seen(g, trace, t) == Owned(g, s, t)
    requires Usable(g, s.depth, changes) != []
    requires DeltaOutcome(g.index, s.depth, Usable(g, s.depth, changes), condition, atMs).Success?
    ensures var (s', items) := DeltaStep(g, s, condition, changes, atMs); Seen(g, trace + items, t) == Owned(g, s', t)
  {
    var usable := Usable(g, s.depth, changes);
    var shown := DeltaOutcome(g.index, s.depth, usable, condition, atMs).value;
    var s' := s.(depth := s.depth + Candidates(s.depth, usable));
    var yielded: seq<Snapshot> := if condition in s.recovering then [] else shown;
    assert DeltaStep(g, s, condition, changes, atMs) == (s', [TookDelta(usable)] + Yield(yielded));
    DeltaBooks(g.index, s.depth, condition, usable, atMs, t);
    ViewTaken(g, s, s', trace, condition, TookDelta(usable), shown, yielded, t);
  }

  /** What a delta's snapshots say of one token: its new owned book when touched, and then in this condition. */
  lemma {:induction false} DeltaBooks(index: map<Token, Market>, depth: map<Token, Depth>, condition: Condition, usable: seq<Change>,
                   atMs: nat, t: Token)
    requires forall c | c in usable :: c.token in depth
    requires DeltaOutcome(index, depth, usable, condition, atMs).Success?
    ensures FreshBooks(index, depth, depth + Candidates(depth, usable), condition,
                       DeltaOutcome(index, depth, usable, condition, atMs).value, t)
  {
    var candidates, touched := Candidates(depth, usable), Touched(usable);
    MentionsAvailable(index, candidates, touched, atMs, t);
    assert t in touched <==> t in candidates;
    assert t in touched ==> MarketFor(index, t, condition).Some?;
  }

  predicate FreshBooks(index: map<Token, Market>, before: map<Token, Depth>, after: map<Token, Depth>, condition: Condition,
                       shown: seq<Snapshot>, t: Token)
  {
    && (forall i | 0 <= i < |shown| :: shown[i].token in after && shown[i].depth == after[shown[i].token])
    && (Mentions(shown, t) ==> t in after && t in index && index[t].condition == condition)
    && (!Mentions(shown, t) ==> (t in after <==> t in before) && (t in after ==> after[t] == before[t]))
  }

  lemma {:induction false} ViewTaken(g: Generation, s: State, s': State, trace: seq<Item>, condition: Condition, item: Item,
                  shown: seq<Snapshot>, yielded: seq<Snapshot>, t: Token)
    requires s'.recovering == s.recovering && Seen(g, trace, t) == Owned(g, s, t) && !item.Yielded?
    requires FreshBooks(g.index, s.depth, s'.depth, condition, shown, t)
    requires yielded == if condition in s.recovering then [] else shown
    ensures Seen(g, trace + ([item] + Yield(yielded)), t) == Owned(g, s', t)
  {
    SeenTaken(g, trace, item, s'.depth, yielded, t);
  }

  lemma {:induction false} ViewMessage(g: Generation, s: State, trace: seq<Item>, m: Message, atMs: nat, t: Token)
    requires s.depth.Keys <= g.index.Keys && (forall u :: u in g.order <==> u in g.index)
    requires !s.raised && Seen(g, trace, t) == Owned(g, s, t)
    ensures var (s', items) := MessageStep(g, s, m, atMs); s'.raised || Seen(g, trace + items, t) == Owned(g, s', t)
  {
    var (s', items) := MessageStep(g, s, m, atMs);
    if !s'.raised {
      if items == [] {
        Regroup(trace, trace, []);
        assert Owned(g, s', t) == Owned(g, s, t);
      } else if Route(g, m).None? {
        ViewInvalidateAll(g, s, trace, InvalidMarketParameters, atMs, t);
      } else {
        ViewRouted(g, s, trace, Route(g, m).value, m, atMs, t);
      }
    }
  }

  lemma {:induction false} ViewRouted(g: Generation, s: State, trace: seq<Item>, market: Market, m: Message, atMs: nat, t: Token)
    requires s.depth.Keys <= g.index.Keys && (forall u :: u in g.order <==> u in g.index)
    requires Seen(g, trace, t) == Owned(g, s, t) && Route(g, m) == Some(market)
    requires !MessageStep(g, s, m, atMs).0.raised && MessageStep(g, s, m, atMs).1 != []
    ensures var (s', items) := MessageStep(g, s, m, atMs); Seen(g, trace + items, t) == Owned(g, s', t)
  {
    match m
    case Book(_, Bad(issue)) => ViewInvalidateOne(g, s, trace, market.condition, issue, atMs, t);
    case PriceChange(_, Bad(issue)) => ViewInvalidateOne(g, s, trace, market.condition, issue, atMs, t);
    case Book(id, Good(book)) =>
      match BaselineOutcome(g.index, id.id, book, market.condition, atMs) {
        case Failure(issue) => ViewInvalidateOne(g, s, trace, market.condition, issue, atMs, t);
        case Success(_) => ViewBaseline(g, s, trace, market, id.id, book, atMs, t);
      }
    case PriceChange(_, Good(changes)) =>
      match DeltaOutcome(g.index, s.depth, Usable(g, s.depth, changes), market.condition, atMs) {
        case Failure(issue) => ViewInvalidateOne(g, s, trace, market.condition, issue, atMs, t);
        case Success(_) => ViewDelta(g, s, trace, market.condition, changes, atMs, t);
      }
    case LastTrade(_, Good(_)) => SeenAppend(g, trace, MessageStep(g, s, m, atMs).1[0], t);
    case Resolved(_, Good(_)) => SeenAppend(g, trace, MessageStep(g, s, m, atMs).1[0], t);
    case _ =>
  }

  /** After every delivery the consumer's book of a token is the owned one, and it has one exactly
      when the token has a baseline and its condition is not held back. */
  lemma {:induction false} ConsumerSeesOwnedBooks(g: Generation, s0: State, events: seq<Event>, t: Token)
    requires g.Consistent() && Fresh(s0) && !Run(g, s0, events).0.raised
    ensures Seen(g, Run(g, s0, events).1, t) == Owned(g, Run(g, s0, events).0, t)
  {
    if events != [] {
      var before := events[..|events| - 1];
      var e := events[|events| - 1];
      var (s, trace) := Run(g, s0, before);
      ConsumerSeesOwnedBooks(g, s0, before, t);
      StepSees(g, s, trace, e, t);
    }
  }

  lemma {:induction false} StepSees(g: Generation, s: State, trace: seq<Item>, e: Event, t: Token)
    requires s.depth.Keys <= g.index.Keys && (forall u :: u in g.order <==> u in g.index)
    requires Seen(g, trace, t) == Owned(g, s, t) && !Step(g, s, e).0.raised
    ensures Seen(g, trace + Step(g, s, e).1, t) == Owned(g, Step(g, s, e).0, t)
  {
    if e.dropped.value > s.dropped {
      ViewInvalidateAll(g, s, trace, BookStreamGap, e.dropAtMs, t);
      var (s1, lost) := InvalidateAll(g, s, BookStreamGap, e.dropAtMs);
      AfterDrop(g, s1.(dropped := e.dropped.value), trace, lost, e, t);
    } else {
      Regroup(trace, trace, []);
      AfterDrop(g, s.(dropped := e.dropped.value), trace, [], e, t);
    }
  }

  lemma {:induction false} AfterDrop(g: Generation, s: State, trace: seq<Item>, lost: seq<Item>, e: Event, t: Token)
    requires s.depth.Keys <= g.index.Keys && (forall u :: u in g.order <==> u in g.index)
    requires !s.raised && Seen(g, trace + lost, t) == Owned(g, s, t) && !MessageStep(g, s, e.message, e.atMs).0.raised
    ensures Seen(g, trace + (lost + MessageStep(g, s, e.message, e.atMs).1), t) ==
            Owned(g, MessageStep(g, s, e.message, e.atMs).0, t)
  {
    ViewMessage(g, s, trace + lost, e.message, e.atMs, t);
    Regroup(trace, lost, MessageStep(g, s, e.message, e.atMs).1);
  }
}
