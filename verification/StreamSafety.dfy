/** What every run of the market stream guarantees about the books it yields, stated on
    the run's own trace of taken messages and yielded outputs. */
module StreamSafety {
  import opened Common
  import opened OrderBooks
  import opened MarketStream

  // ---------- reading a trace backward ----------

  predicate IsGap(item: Item, c: Condition) {
    item.Yielded? && item.output.GapOut? && item.output.gap.Affects(c)
  }

  predicate IsGapFor(g: Generation, item: Item, t: Token) {
    t in g.index && IsGap(item, g.index[t].condition)
  }

  /** Position of the baseline a token's book rests on; -1 when there is none since its last gap. */
  function LastBaseline(g: Generation, trace: seq<Item>, t: Token): (at: int)
    ensures -1 <= at < |trace|
    ensures 0 <= at ==> trace[at].TookBaseline? && trace[at].token == t
  {
    if trace == [] then -1
    else
      var item := trace[|trace| - 1];
      if item.TookBaseline? && item.token == t then |trace| - 1
      else if IsGapFor(g, item, t) then -1
      else LastBaseline(g, trace[..|trace| - 1], t)
  }

  /** The size at one level replayed from scratch: the last write since the baseline, else the baseline. */
  function LevelAt(g: Generation, trace: seq<Item>, t: Token, side: Side, price: real): real {
    if trace == [] then 0.0
    else
      var item := trace[|trace| - 1];
      var before := trace[..|trace| - 1];
      if item.TookBaseline? && item.token == t then item.book.SizeAt(side, price)
      else if IsGapFor(g, item, t) then 0.0
      else if item.TookDelta? && LastWrite(item.changes, t, side, price).Some?
      then LastWrite(item.changes, t, side, price).value
      else LevelAt(g, before, t, side, price)
  }

  ghost predicate Replays(g: Generation, trace: seq<Item>, t: Token, depth: Depth) {
    && 0 <= LastBaseline(g, trace, t)
    && forall side, price :: depth.SizeAt(side, price) == LevelAt(g, trace, t, side, price)
  }

  // ---------- what a yielded snapshot must satisfy ----------

  /** The snapshot is a valid, subscribed book; it replays exactly from the messages taken since its
      last affecting gap; and since that gap every subscribed token of its market has a new baseline. */
  ghost predicate GoodSnapshot(g: Generation, before: seq<Item>, s: Snapshot) {
    && s.token in g.subscribed && s.token in g.index && s.market == g.index[s.token]
    && BookIssue(s.depth).None?
    && Replays(g, before, s.token, s.depth)
    && forall i, t | 0 <= i < |before| && IsGap(before[i], s.market.condition) && t in g.Required(s.market) ::
         i < LastBaseline(g, before, t)
  }

  ghost predicate Sound(g: Generation, trace: seq<Item>) {
    forall j | 0 <= j < |trace| && trace[j].Yielded? && trace[j].output.SnapshotOut? ::
      GoodSnapshot(g, trace[..j], trace[j].output.snapshot)
  }

  // ---------- the invariant ----------

  ghost predicate GapSeen(trace: seq<Item>, c: Condition) {
    exists i :: 0 <= i < |trace| && IsGap(trace[i], c)
  }

  predicate AllBased(g: Generation, depth: map<Token, Depth>, c: Condition)
    requires c in g.byCondition
  {
    g.Required(g.byCondition[c]) != {} && g.Required(g.byCondition[c]) <= depth.Keys
  }

  ghost predicate TracksToken(g: Generation, s: State, trace: seq<Item>, t: Token) {
    && (t in s.depth ==>
          && t in g.index && t in g.subscribed
          && BookIssue(s.depth[t]).None? && Replays(g, trace, t, s.depth[t]))
    && (t in g.index && 0 <= LastBaseline(g, trace, t) ==> t in s.depth)
  }

  /** Owned depth is the replay of the trace. */
  ghost predicate Tracks(g: Generation, s: State, trace: seq<Item>) {
    forall t :: TracksToken(g, s, trace, t)
  }

  ghost predicate GatedAt(g: Generation, s: State, trace: seq<Item>, c: Condition)
    requires c in g.byCondition
  {
    c in s.recovering <==> GapSeen(trace, c) && !AllBased(g, s.depth, c)
  }

  /** A condition is held back exactly while a gap hit it and a subscribed token still lacks a baseline. */
  ghost predicate Gated(g: Generation, s: State, trace: seq<Item>) {
    forall c | c in g.byCondition :: GatedAt(g, s, trace, c)
  }

  ghost predicate Inv(g: Generation, s: State, trace: seq<Item>) {
    Sound(g, trace) && (!s.raised ==> Tracks(g, s, trace) && Gated(g, s, trace))
  }

  // ---------- appending one item to a trace ----------

  lemma {:induction false} LastAppend(g: Generation, trace: seq<Item>, item: Item, t: Token)
    ensures LastBaseline(g, trace + [item], t) ==
            if item.TookBaseline? && item.token == t then |trace|
            else if IsGapFor(g, item, t) then -1
            else LastBaseline(g, trace, t)
  {
    assert (trace + [item])[..|trace|] == trace;
  }

  lemma {:induction false} LevelAppend(g: Generation, trace: seq<Item>, item: Item, t: Token, side: Side, price: real)
    ensures LevelAt(g, trace + [item], t, side, price) ==
            if item.TookBaseline? && item.token == t then item.book.SizeAt(side, price)
            else if IsGapFor(g, item, t) then 0.0
            else if item.TookDelta? && LastWrite(item.changes, t, side, price).Some?
            then LastWrite(item.changes, t, side, price).value
            else LevelAt(g, trace, t, side, price)
  {
    assert (trace + [item])[..|trace|] == trace;
  }

  /** A token's replay does not notice other tokens' baselines, unrelated gaps, or other outputs. */
  lemma {:induction false} ReplaysKept(g: Generation, trace: seq<Item>, item: Item, t: Token, depth: Depth)
    requires !(item.TookBaseline? && item.token == t) && !IsGapFor(g, item, t) && !item.TookDelta?
    ensures Replays(g, trace + [item], t, depth) <==> Replays(g, trace, t, depth)
  {
    LastAppend(g, trace, item, t);
    forall side, price ensures LevelAt(g, trace + [item], t, side, price) == LevelAt(g, trace, t, side, price) {
      LevelAppend(g, trace, item, t, side, price);
    }
  }

  lemma {:induction false} GapSeenAppend(trace: seq<Item>, item: Item, c: Condition)
    ensures GapSeen(trace + [item], c) <==> GapSeen(trace, c) || IsGap(item, c)
  {
    var after := trace + [item];
    if GapSeen(trace, c) {
      var i :| 0 <= i < |trace| && IsGap(trace[i], c);
      assert after[i] == trace[i];
    }
    assert after[|trace|] == item;
  }

  lemma {:induction false} BaselineAfterGap(g: Generation, trace: seq<Item>, t: Token, i: nat)
    requires i < |trace| && IsGapFor(g, trace[i], t) && 0 <= LastBaseline(g, trace, t)
    ensures i < LastBaseline(g, trace, t)
  {
    if i < |trace| - 1 && LastBaseline(g, trace, t) != |trace| - 1 {
      BaselineAfterGap(g, trace[..|trace| - 1], t, i);
    }
  }

  lemma {:induction false} SoundAppend(g: Generation, trace: seq<Item>, item: Item)
    requires Sound(g, trace)
    requires item.Yielded? && item.output.SnapshotOut? ==> GoodSnapshot(g, trace, item.output.snapshot)
    ensures Sound(g, trace + [item])
  {
    var after := trace + [item];
    forall j | 0 <= j < |after| && after[j].Yielded? && after[j].output.SnapshotOut?
      ensures GoodSnapshot(g, after[..j], after[j].output.snapshot)
    {
      if j < |trace| {
        assert after[..j] == trace[..j];
      } else {
        assert after[..j] == trace;
      }
    }
  }

  lemma {:induction false} RequiredIsIndexed(g: Generation, c: Condition)
    requires g.Consistent() && c in g.byCondition
    ensures forall t | t in g.Required(g.byCondition[c]) ::
              t in g.index && g.index[t] == g.byCondition[c] && g.index[t].condition == c
  {
  }

  /** An output that is no gap changes neither the books nor the gate. */
  lemma {:induction false} QuietAppend(g: Generation, s: State, trace: seq<Item>, item: Item)
    requires Inv(g, s, trace) && !s.raised
    requires item.Yielded? && !item.output.GapOut?
    requires item.output.SnapshotOut? ==> GoodSnapshot(g, trace, item.output.snapshot)
    ensures Inv(g, s, trace + [item])
  {
    SoundAppend(g, trace, item);
    forall c | c in g.byCondition ensures GatedAt(g, s, trace + [item], c) {
      GapSeenAppend(trace, item, c);
    }
    forall t ensures TracksToken(g, s, trace + [item], t) {
      assert TracksToken(g, s, trace, t);
      LastAppend(g, trace, item, t);
      if t in s.depth {
        ReplaysKept(g, trace, item, t, s.depth[t]);
      }
    }
  }

  /** A book whose condition is not held back may be yielded. */
  lemma {:induction false} ReadySnapshot(g: Generation, s: State, trace: seq<Item>, t: Token, x: Snapshot)
    requires g.Consistent() && Inv(g, s, trace) && !s.raised
    requires t in s.depth && t in g.index && g.index[t].condition !in s.recovering
    requires x.token == t && x.market == g.index[t] && x.depth == s.depth[t]
    ensures GoodSnapshot(g, trace, x)
  {
    assert TracksToken(g, s, trace, t);
    var c := g.index[t].condition;
    forall i, u | 0 <= i < |trace| && IsGap(trace[i], c) && u in g.Required(g.index[t])
      ensures i < LastBaseline(g, trace, u)
    {
      assert g.byCondition[c] == g.index[t] && GatedAt(g, s, trace, c);
      RequiredIsIndexed(g, c);
      assert TracksToken(g, s, trace, u);
      BaselineAfterGap(g, trace, u, i);
    }
  }

  ghost predicate Ready(g: Generation, s: State, x: Snapshot) {
    && x.token in s.depth && x.token in g.index
    && x.market == g.index[x.token] && x.depth == s.depth[x.token]
    && x.market.condition !in s.recovering
  }

  lemma {:induction false} YieldAppend(g: Generation, s: State, trace: seq<Item>, snapshots: seq<Snapshot>)
    requires g.Consistent() && Inv(g, s, trace) && !s.raised
    requires forall i | 0 <= i < |snapshots| :: Ready(g, s, snapshots[i])
    ensures Inv(g, s, trace + Yield(snapshots))
  {
    if snapshots == [] {
      assert trace + Yield(snapshots) == trace;
    } else {
      var last := |snapshots| - 1;
      var earlier := trace + Yield(snapshots[..last]);
      YieldAppend(g, s, trace, snapshots[..last]);
      OneMoreYield(g, s, earlier, snapshots[last]);
      assert trace + Yield(snapshots) == earlier + [Yielded(SnapshotOut(snapshots[last]))];
    }
  }

  lemma {:induction false} OneMoreYield(g: Generation, s: State, trace: seq<Item>, x: Snapshot)
    requires g.Consistent() && Inv(g, s, trace) && !s.raised && Ready(g, s, x)
    ensures Inv(g, s, trace + [Yielded(SnapshotOut(x))])
  {
    ReadySnapshot(g, s, trace, x.token, x);
    QuietAppend(g, s, trace, Yielded(SnapshotOut(x)));
  }

  /** What a gap does to the state. */
  ghost predicate Forgets(g: Generation, s: State, s': State, gap: BookGap) {
    && (forall t :: t in s'.depth <==> t in s.depth && t in g.index && !gap.Affects(g.index[t].condition))
    && (forall t | t in s'.depth :: s'.depth[t] == s.depth[t])
    && (forall c | c in g.byCondition :: c in s'.recovering <==> c in s.recovering || gap.Affects(c))
  }

  lemma {:induction false} GapToken(g: Generation, s: State, s': State, trace: seq<Item>, gap: BookGap, t: Token)
    requires TracksToken(g, s, trace, t) && Forgets(g, s, s', gap)
    ensures TracksToken(g, s', trace + [Yielded(GapOut(gap))], t)
  {
    LastAppend(g, trace, Yielded(GapOut(gap)), t);
    if t in s'.depth {
      ReplaysKept(g, trace, Yielded(GapOut(gap)), t, s.depth[t]);
    }
  }

  lemma {:induction false} GapGate(g: Generation, s: State, s': State, trace: seq<Item>, gap: BookGap, c: Condition)
    requires g.Consistent() && c in g.byCondition && GatedAt(g, s, trace, c) && Forgets(g, s, s', gap)
    ensures GatedAt(g, s', trace + [Yielded(GapOut(gap))], c)
  {
    GapSeenAppend(trace, Yielded(GapOut(gap)), c);
    RequiredIsIndexed(g, c);
    var required := g.Required(g.byCondition[c]);
    if gap.Affects(c) {
      assert forall t | t in required :: t !in s'.depth;
    } else {
      assert forall t | t in required :: t in s'.depth <==> t in s.depth;
    }
  }

  /** Forgetting a gap's depth and holding its conditions back keeps the invariant. */
  lemma {:induction false} GapAppend(g: Generation, s: State, s': State, trace: seq<Item>, gap: BookGap)
    requires g.Consistent() && Inv(g, s, trace) && !s.raised && !s'.raised
    requires Forgets(g, s, s', gap)
    ensures Inv(g, s', trace + [Yielded(GapOut(gap))])
  {
    SoundAppend(g, trace, Yielded(GapOut(gap)));
    forall t ensures TracksToken(g, s', trace + [Yielded(GapOut(gap))], t) {
      GapToken(g, s, s', trace, gap, t);
    }
    forall c | c in g.byCondition ensures GatedAt(g, s', trace + [Yielded(GapOut(gap))], c) {
      GapGate(g, s, s', trace, gap, c);
    }
  }

  lemma {:induction false} BaselineToken(g: Generation, s: State, s': State, trace: seq<Item>, t: Token, book: Depth, u: Token)
    requires TracksToken(g, s, trace, u)
    requires t in g.index && t in g.subscribed && BookIssue(book).None? && s'.depth == s.depth[t := book]
    ensures TracksToken(g, s', trace + [TookBaseline(t, book)], u)
  {
    LastAppend(g, trace, TookBaseline(t, book), u);
    if u == t {
      forall side, price
        ensures LevelAt(g, trace + [TookBaseline(t, book)], t, side, price) == book.SizeAt(side, price)
      {
        LevelAppend(g, trace, TookBaseline(t, book), t, side, price);
      }
    } else if u in s.depth {
      ReplaysKept(g, trace, TookBaseline(t, book), u, s.depth[u]);
    }
  }

  lemma {:induction false} BaselineGate(g: Generation, s: State, s': State, trace: seq<Item>, t: Token, book: Depth, c: Condition)
    requires g.Consistent() && c in g.byCondition && GatedAt(g, s, trace, c)
    requires t in g.index && s'.depth == s.depth[t := book]
    requires s'.recovering ==
             if AllBased(g, s'.depth, g.index[t].condition) then s.recovering - {g.index[t].condition} else s.recovering
    ensures GatedAt(g, s', trace + [TookBaseline(t, book)], c)
  {
    GapSeenAppend(trace, TookBaseline(t, book), c);
    RequiredIsIndexed(g, c);
    if c != g.index[t].condition {
      assert t !in g.Required(g.byCondition[c]);
      assert AllBased(g, s'.depth, c) <==> AllBased(g, s.depth, c);
    } else {
      assert AllBased(g, s.depth, c) ==> AllBased(g, s'.depth, c);
    }
  }

  lemma {:induction false} BaselineAppend(g: Generation, s: State, s': State, trace: seq<Item>, t: Token, book: Depth)
    requires g.Consistent() && Inv(g, s, trace) && !s.raised && !s'.raised
    requires t in g.index && t in g.subscribed && BookIssue(book).None? && s'.depth == s.depth[t := book]
    requires s'.recovering ==
             if AllBased(g, s'.depth, g.index[t].condition) then s.recovering - {g.index[t].condition} else s.recovering
    ensures Inv(g, s', trace + [TookBaseline(t, book)])
  {
    SoundAppend(g, trace, TookBaseline(t, book));
    forall u ensures TracksToken(g, s', trace + [TookBaseline(t, book)], u) {
      BaselineToken(g, s, s', trace, t, book, u);
    }
    forall c | c in g.byCondition ensures GatedAt(g, s', trace + [TookBaseline(t, book)], c) {
      BaselineGate(g, s, s', trace, t, book, c);
    }
  }

  lemma {:induction false} DeltaToken(g: Generation, s: State, s': State, trace: seq<Item>, changes: seq<Change>, t: Token)
    requires TracksToken(g, s, trace, t)
    requires forall c | c in changes :: c.token in s.depth
    requires forall u | u in Candidates(s.depth, changes) :: BookIssue(Candidates(s.depth, changes)[u]).None?
    requires s'.depth == s.depth + Candidates(s.depth, changes)
    ensures TracksToken(g, s', trace + [TookDelta(changes)], t)
  {
    LastAppend(g, trace, TookDelta(changes), t);
    if t in s.depth {
      forall side, price
        ensures s'.depth[t].SizeAt(side, price) == LevelAt(g, trace + [TookDelta(changes)], t, side, price)
      {
        LevelAppend(g, trace, TookDelta(changes), t, side, price);
        CandidateLevels(s.depth, changes, t, side, price);
      }
    }
  }

  lemma {:induction false} DeltaAppend(g: Generation, s: State, s': State, trace: seq<Item>, changes: seq<Change>)
    requires Inv(g, s, trace) && !s.raised && !s'.raised
    requires forall c | c in changes :: c.token in s.depth
    requires forall u | u in Candidates(s.depth, changes) :: BookIssue(Candidates(s.depth, changes)[u]).None?
    requires s'.depth == s.depth + Candidates(s.depth, changes) && s'.recovering == s.recovering
    ensures Inv(g, s', trace + [TookDelta(changes)])
  {
    SoundAppend(g, trace, TookDelta(changes));
    forall t ensures TracksToken(g, s', trace + [TookDelta(changes)], t) {
      DeltaToken(g, s, s', trace, changes, t);
    }
    assert s'.depth.Keys == s.depth.Keys;
    forall c | c in g.byCondition ensures GatedAt(g, s', trace + [TookDelta(changes)], c) {
      assert GatedAt(g, s, trace, c);
      GapSeenAppend(trace, TookDelta(changes), c);
    }
  }

  // ---------- every step keeps the invariant ----------

  lemma {:induction false} KeepInvalidateAll(g: Generation, s: State, trace: seq<Item>, issue: Issue, atMs: nat)
    requires g.Consistent() && Inv(g, s, trace) && !s.raised
    ensures var (s', items) := InvalidateAll(g, s, issue, atMs); Inv(g, s', trace + items)
  {
    var (s', items) := InvalidateAll(g, s, issue, atMs);
    if s'.raised {
      assert trace + items == trace;
    } else {
      GapAppend(g, s, s', trace, items[0].output.gap);
    }
  }

  lemma {:induction false} KeepInvalidateOne(g: Generation, s: State, trace: seq<Item>, condition: Condition, issue: Issue, atMs: nat)
    requires g.Consistent() && Inv(g, s, trace) && !s.raised && s.depth.Keys <= g.index.Keys
    ensures var (s', items) := InvalidateOne(g, s, condition, issue, atMs); Inv(g, s', trace + items)
  {
    var (s', items) := InvalidateOne(g, s, condition, issue, atMs);
    if s'.raised {
      assert trace + items == trace;
    } else {
      GapAppend(g, s, s', trace, items[0].output.gap);
    }
  }

  lemma {:induction false} KeepBaseline(g: Generation, s: State, trace: seq<Item>, market: Market, t: Token, book: Depth, atMs: nat)
    requires g.Consistent() && Inv(g, s, trace) && !s.raised && s.depth.Keys <= g.index.Keys
    requires t in g.subscribed && t in g.byToken && g.byToken[t] == market
    ensures var (s', items) := BaselineStep(g, s, market, t, book, atMs); Inv(g, s', trace + items)
  {
    if BaselineOutcome(g.index, t, book, market.condition, atMs).Failure? {
      KeepInvalidateOne(g, s, trace, market.condition,
                        BaselineOutcome(g.index, t, book, market.condition, atMs).error, atMs);
    } else {
      KeepTakenBaseline(g, s, trace, market, t, book, atMs);
    }
  }

  lemma {:induction false} KeepTakenBaseline(g: Generation, s: State, trace: seq<Item>, market: Market, t: Token, book: Depth, atMs: nat)
    requires g.Consistent() && Inv(g, s, trace) && !s.raised && s.depth.Keys <= g.index.Keys
    requires t in g.subscribed && t in g.byToken && g.byToken[t] == market
    requires BaselineOutcome(g.index, t, book, market.condition, atMs).Success?
    ensures var (s', items) := BaselineStep(g, s, market, t, book, atMs); Inv(g, s', trace + items)
  {
    var taken := TookBaseline(t, book);
    var (s', items) := BaselineStep(g, s, market, t, book, atMs);
    var yielded := BaselineYields(g, s, s', trace, market, t, book, atMs);
    BaselineAppend(g, s, s', trace, t, book);
    YieldAppend(g, s', trace + [taken], yielded);
    Regroup(trace, [taken], Yield(yielded));
  }

  lemma {:induction false} Regroup(trace: seq<Item>, first: seq<Item>, second: seq<Item>)
    ensures trace + (first + second) == (trace + first) + second
    ensures [] + second == second && first + [] == first
  {
  }

  /** What a taken baseline yields, and that each of those books is ready to be seen. */
  lemma {:induction false} BaselineYields(g: Generation, s: State, s': State, trace: seq<Item>, market: Market, t: Token, book: Depth, atMs: nat)
    returns (yielded: seq<Snapshot>)
    requires g.Consistent() && Gated(g, s, trace) && !s.raised && s.depth.Keys <= g.index.Keys
    requires t in g.byToken && g.byToken[t] == market
    requires BaselineOutcome(g.index, t, book, market.condition, atMs).Success?
    requires s' == BaselineStep(g, s, market, t, book, atMs).0
    ensures BaselineStep(g, s, market, t, book, atMs).1 == [TookBaseline(t, book)] + Yield(yielded)
    ensures forall i | 0 <= i < |yielded| :: Ready(g, s', yielded[i])
    ensures t in g.index && g.index[t] == market && market.condition in g.byCondition
    ensures s'.recovering ==
            if AllBased(g, s'.depth, market.condition) then s.recovering - {market.condition} else s.recovering
  {
    var c := market.condition;
    assert g.index[t] == market && g.byCondition[c] == market;
    assert GatedAt(g, s, trace, c);
    if c !in s.recovering {
      yielded := [Snapshot(t, market, book, atMs)];
    } else if AllBased(g, s'.depth, c) {
      yielded := Snapshots(g.index, s'.depth, Available(g.index, s'.depth, g.order, c), atMs);
      forall i | 0 <= i < |yielded| ensures Ready(g, s', yielded[i]) {
        assert Available(g.index, s'.depth, g.order, c)[i] in Available(g.index, s'.depth, g.order, c);
      }
    } else {
      yielded := [];
    }
  }

  lemma {:induction false} KeepDelta(g: Generation, s: State, trace: seq<Item>, condition: Condition, changes: seq<Change>, atMs: nat)
    requires g.Consistent() && Inv(g, s, trace) && !s.raised && s.depth.Keys <= g.index.Keys
    ensures var (s', items) := DeltaStep(g, s, condition, changes, atMs); Inv(g, s', trace + items)
  {
    var usable := Usable(g, s.depth, changes);
    if usable == [] {
      assert trace + [] == trace;
    } else if DeltaOutcome(g.index, s.depth, usable, condition, atMs).Failure? {
      KeepInvalidateOne(g, s, trace, condition, DeltaOutcome(g.index, s.depth, usable, condition, atMs).error, atMs);
    } else {
      KeepTakenDelta(g, s, trace, condition, usable, atMs);
    }
  }

  lemma {:induction false} KeepTakenDelta(g: Generation, s: State, trace: seq<Item>, condition: Condition, usable: seq<Change>, atMs: nat)
    requires g.Consistent() && Inv(g, s, trace) && !s.raised
    requires DeltaOutcome(g.index, s.depth, usable, condition, atMs).Success?
    ensures var s' := s.(depth := s.depth + Candidates(s.depth, usable));
            var snapshots := DeltaOutcome(g.index, s.depth, usable, condition, atMs).value;
            Inv(g, s', trace + ([TookDelta(usable)] + if condition in s.recovering then [] else Yield(snapshots)))
  {
    var s' := s.(depth := s.depth + Candidates(s.depth, usable));
    var snapshots := DeltaOutcome(g.index, s.depth, usable, condition, atMs).value;
    var yielded := if condition in s.recovering then [] else snapshots;
    if condition !in s.recovering {
      DeltaSnapshots(g, s, s', usable, condition, atMs);
    }
    DeltaAppend(g, s, s', trace, usable);
    YieldAppend(g, s', trace + [TookDelta(usable)], yielded);
    Regroup(trace, [TookDelta(usable)], Yield(yielded));
  }

  /** An accepted delta yields exactly the books it leaves behind, all of one condition. */
  lemma {:induction false} DeltaSnapshots(g: Generation, s: State, s': State, usable: seq<Change>, condition: Condition, atMs: nat)
    requires DeltaOutcome(g.index, s.depth, usable, condition, atMs).Success?
    requires s'.depth == s.depth + Candidates(s.depth, usable) && condition !in s'.recovering
    ensures var snapshots := DeltaOutcome(g.index, s.depth, usable, condition, atMs).value;
            forall i | 0 <= i < |snapshots| :: Ready(g, s', snapshots[i])
  {
    var touched := Touched(usable);
    forall i | 0 <= i < |touched|
      ensures touched[i] in Candidates(s.depth, usable) && MarketFor(g.index, touched[i], condition).Some?
    {
      assert touched[i] in touched;
    }
  }

  lemma {:induction false} KeepMessage(g: Generation, s: State, trace: seq<Item>, m: Message, atMs: nat)
    requires g.Consistent() && Inv(g, s, trace) && !s.raised && s.depth.Keys <= g.index.Keys
    ensures var (s', items) := MessageStep(g, s, m, atMs); Inv(g, s', trace + items)
  {
    Regroup(trace, trace, []);
    match Route(g, m)
    case None =>
      if m.Book? || m.PriceChange? {
        KeepInvalidateAll(g, s, trace, InvalidMarketParameters, atMs);
      }
    case Some(market) => KeepRouted(g, s, trace, market, m, atMs);
  }

  lemma {:induction false} KeepRouted(g: Generation, s: State, trace: seq<Item>, market: Market, m: Message, atMs: nat)
    requires g.Consistent() && Inv(g, s, trace) && !s.raised && s.depth.Keys <= g.index.Keys
    requires Route(g, m) == Some(market)
    ensures var (s', items) := MessageStep(g, s, m, atMs); Inv(g, s', trace + items)
  {
    if m.Book? {
      KeepBook(g, s, trace, market, m.token.id, m.book, atMs);
    } else if m.PriceChange? {
      KeepPriceChange(g, s, trace, market, m.changes, atMs);
    } else {
      KeepHint(g, s, trace, m, MessageStep(g, s, m, atMs).1, atMs);
    }
  }

  /** Trades, resolutions and everything else leave books alone and yield at most one item. */
  lemma {:induction false} KeepHint(g: Generation, s: State, trace: seq<Item>, m: Message, items: seq<Item>, atMs: nat)
    requires g.Consistent() && Inv(g, s, trace) && !s.raised && s.depth.Keys <= g.index.Keys
    requires !m.Book? && !m.PriceChange? && Route(g, m).Some? && items == MessageStep(g, s, m, atMs).1
    ensures MessageStep(g, s, m, atMs).0 == s && Inv(g, s, trace + items)
  {
    if items == [] {
      Regroup(trace, trace, []);
    } else {
      QuietAppend(g, s, trace, items[0]);
    }
  }

  lemma {:induction false} KeepBook(g: Generation, s: State, trace: seq<Item>, market: Market, t: Token, book: Decoded<Depth>, atMs: nat)
    requires g.Consistent() && Inv(g, s, trace) && !s.raised && s.depth.Keys <= g.index.Keys
    requires t in g.subscribed && t in g.byToken && g.byToken[t] == market
    ensures var (s', items) := MessageStep(g, s, Book(Text(t), book), atMs); Inv(g, s', trace + items)
  {
    match book
    case Bad(issue) => KeepInvalidateOne(g, s, trace, market.condition, issue, atMs);
    case Good(depth) => KeepBaseline(g, s, trace, market, t, depth, atMs);
  }

  lemma {:induction false} KeepPriceChange(g: Generation, s: State, trace: seq<Item>, market: Market, changes: Decoded<seq<Change>>, atMs: nat)
    requires g.Consistent() && Inv(g, s, trace) && !s.raised && s.depth.Keys <= g.index.Keys
    requires market.condition in g.byCondition && g.byCondition[market.condition] == market
    ensures var (s', items) := MessageStep(g, s, PriceChange(Text(market.condition), changes), atMs); Inv(g, s', trace + items)
  {
    match changes
    case Bad(issue) => KeepInvalidateOne(g, s, trace, market.condition, issue, atMs);
    case Good(list) => KeepDelta(g, s, trace, market.condition, list, atMs);
  }

  lemma {:induction false} KeepDrop(g: Generation, s: State, trace: seq<Item>, e: Event)
    requires g.Consistent() && Inv(g, s, trace) && !s.raised
    ensures var (s1, lost) :=
              if e.dropped.Some? && e.dropped.value > s.dropped then InvalidateAll(g, s, BookStreamGap, e.dropAtMs) else (s, []);
            Inv(g, s1, trace + lost) && !s1.raised
  {
    if e.dropped.Some? && e.dropped.value > s.dropped {
      KeepInvalidateAll(g, s, trace, BookStreamGap, e.dropAtMs);
    } else {
      assert trace + [] == trace;
    }
  }

  lemma {:induction false} SameCounter(g: Generation, s: State, dropped: int, trace: seq<Item>)
    requires Inv(g, s, trace)
    ensures Inv(g, s.(dropped := dropped), trace)
  {
    var s' := s.(dropped := dropped);
    if !s.raised {
      forall t ensures TracksToken(g, s', trace, t) { assert TracksToken(g, s, trace, t); }
      forall c | c in g.byCondition ensures GatedAt(g, s', trace, c) { assert GatedAt(g, s, trace, c); }
    }
  }

  lemma {:induction false} KeepStep(g: Generation, s: State, trace: seq<Item>, e: Event)
    requires g.Consistent() && Inv(g, s, trace) && s.depth.Keys <= g.index.Keys
    ensures var (s', items) := Step(g, s, e); Inv(g, s', trace + items)
  {
    if s.raised || e.dropped.None? || e.dropped.value < 0 || e.dropped.value < s.dropped {
      assert trace + [] == trace;
    } else {
      var (s1, lost) := if e.dropped.value > s.dropped then InvalidateAll(g, s, BookStreamGap, e.dropAtMs) else (s, []);
      KeepDrop(g, s, trace, e);
      SameCounter(g, s1, e.dropped.value, trace + lost);
      KeepMessage(g, s1.(dropped := e.dropped.value), trace + lost, e.message, e.atMs);
      Regroup(trace, lost, MessageStep(g, s1.(dropped := e.dropped.value), e.message, e.atMs).1);
    }
  }

  lemma {:induction false} RunKeepsInv(g: Generation, s0: State, events: seq<Event>)
    requires g.Consistent() && s0 == Start(s0.dropped, s0.gapCount, s0.lastGap)
    ensures var (s, trace) := Run(g, s0, events); Inv(g, s, trace)
  {
    if events != [] {
      RunKeepsInv(g, s0, events[..|events| - 1]);
      var (s, trace) := Run(g, s0, events[..|events| - 1]);
      KeepStep(g, s, trace, events[|events| - 1]);
    }
  }

  // ---------- the guarantees ----------

  ghost predicate Fresh(s: State) {
    s == Start(s.dropped, s.gapCount, s.lastGap)
  }

  /** On every run, every snapshot yielded is good at the point it is yielded. */
  lemma {:induction false} EverySnapshotIsGood(g: Generation, s0: State, events: seq<Event>, j: nat)
    requires g.Consistent() && Fresh(s0)
    requires var trace := Run(g, s0, events).1; j < |trace| && trace[j].Yielded? && trace[j].output.SnapshotOut?
    ensures var trace := Run(g, s0, events).1; GoodSnapshot(g, trace[..j], trace[j].output.snapshot)
  {
    RunKeepsInv(g, s0, events);
  }

  /** Between a gap and any later snapshot of an affected market lies a new baseline of each subscribed token. */
  lemma {:induction false} SnapshotWaitsForBaselines(g: Generation, s0: State, events: seq<Event>, i: nat, j: nat, t: Token)
    requires g.Consistent() && Fresh(s0)
    requires var trace := Run(g, s0, events).1;
             && i < j < |trace| && trace[j].Yielded? && trace[j].output.SnapshotOut?
             && IsGap(trace[i], trace[j].output.snapshot.market.condition)
             && t in g.Required(trace[j].output.snapshot.market)
    ensures var trace := Run(g, s0, events).1;
            exists k :: i < k < j && trace[k].TookBaseline? && trace[k].token == t
  {
    var trace := Run(g, s0, events).1;
    EverySnapshotIsGood(g, s0, events, j);
    var before := trace[..j];
    assert before[i] == trace[i];
    var k := LastBaseline(g, before, t);
    assert i < k;
    assert before[k] == trace[k];
  }

  /** While the stream lives, owned depth is the replay of the trace, and a condition is held
      back neither too short nor too long. */
  lemma {:induction false} RunStateIsReplay(g: Generation, s0: State, events: seq<Event>)
    requires g.Consistent() && Fresh(s0) && !Run(g, s0, events).0.raised
    ensures var (s, trace) := Run(g, s0, events); Tracks(g, s, trace) && Gated(g, s, trace)
  {
    RunKeepsInv(g, s0, events);
  }

  /** The subscribed-with-a-baseline filter makes the missing-baseline rejection unreachable. */
  lemma {:induction false} FilterBarsMissingBaseline(g: Generation, depth: map<Token, Depth>, changes: seq<Change>, condition: Condition, atMs: nat)
    ensures DeltaOutcome(g.index, depth, Usable(g, depth, changes), condition, atMs) != Failure(MissingBookBaseline)
  {
    var usable := Usable(g, depth, changes);
    NoMissingBaseline(g.index, depth, usable, condition);
    NoMissingBook(Candidates(depth, usable), Touched(usable));
  }

  lemma {:induction false} NoMissingBaseline(index: map<Token, Market>, depth: map<Token, Depth>, changes: seq<Change>, condition: Condition)
    requires forall c | c in changes :: c.token in depth
    ensures ChangeFault(index, depth, changes, condition) != Some(MissingBookBaseline)
  {
    if changes != [] {
      NoMissingBaseline(index, depth, changes[..|changes| - 1], condition);
      assert changes[|changes| - 1] in changes;
    }
  }

  lemma {:induction false} NoMissingBook(books: map<Token, Depth>, tokens: seq<Token>)
    requires forall t | t in tokens :: t in books
    ensures BookFault(books, tokens) != Some(MissingBookBaseline)
  {
    if tokens != [] {
      NoMissingBook(books, tokens[..|tokens| - 1]);
    }
  }

  /** A rejected delta touches no book of another condition, and drops every book of its own. */
  lemma {:induction false} RejectedDelta(g: Generation, s: State, condition: Condition, changes: seq<Change>, atMs: nat)
    requires g.Consistent() && s.depth.Keys <= g.index.Keys
    requires Usable(g, s.depth, changes) != []
    requires DeltaOutcome(g.index, s.depth, Usable(g, s.depth, changes), condition, atMs).Failure?
    ensures var depth := DeltaStep(g, s, condition, changes, atMs).0.depth;
            forall t :: (t in depth <==> t in s.depth && g.index[t].condition != condition)
                        && (t in depth ==> depth[t] == s.depth[t])
  {
    var issue := DeltaOutcome(g.index, s.depth, Usable(g, s.depth, changes), condition, atMs).error;
    DroppedCondition(g, s, condition, issue, atMs);
  }

  lemma {:induction false} DroppedCondition(g: Generation, s: State, condition: Condition, issue: Issue, atMs: nat)
    requires s.depth.Keys <= g.index.Keys
    ensures var depth := InvalidateOne(g, s, condition, issue, atMs).0.depth;
            forall t :: (t in depth <==> t in s.depth && g.index[t].condition != condition)
                        && (t in depth ==> depth[t] == s.depth[t])
  {
  }
}
