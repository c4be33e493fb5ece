/** The live market stream: SDK messages in, books and typed gaps out. One
    subscription works on one immutable generation of market identity. */
module MarketStream {
  import opened Common
  import opened OrderBooks

  // ---------- one subscription's identity ----------

  datatype Generation = Generation(
    subscribed: set<Token>,
    byToken: map<Token, Market>,
    byCondition: map<Condition, Market>,
    index: map<Token, Market>,
    order: seq<Token>)
  {
    ghost predicate Consistent() {
      && (forall t | t in index ::
            && index[t].Has(t) && t in byToken && byToken[t] == index[t]
            && index[t].condition in byCondition && byCondition[index[t].condition] == index[t])
      && (forall t | t in byToken :: byToken[t].Has(t) && byToken[t].condition in byCondition)
      && (forall c | c in byCondition ::
            && byCondition[c].condition == c
            && byCondition[c].tokens.0 in index && index[byCondition[c].tokens.0] == byCondition[c]
            && byCondition[c].tokens.1 in index && index[byCondition[c].tokens.1] == byCondition[c])
      && (forall t :: t in order <==> t in index)
    }

    /** The subscribed tokens of one market. */
    function Required(market: Market): set<Token> {
      set t | t in {market.tokens.0, market.tokens.1} && t in subscribed
    }
  }

  function ByCondition(markets: seq<Market>): (r: map<Condition, Market>)
    ensures forall c | c in r :: r[c].condition == c && r[c] in markets
    ensures forall m | m in markets :: m.condition in r
  {
    if markets == [] then map[]
    else
      var m := markets[|markets| - 1];
      ByCondition(markets[..|markets| - 1])[m.condition := m]
  }

  function ConditionOrder(markets: seq<Market>): (order: seq<Condition>)
    ensures Distinct(order)
    ensures forall c :: c in order <==> c in ByCondition(markets)
  {
    if markets == [] then []
    else WithToken(ConditionOrder(markets[..|markets| - 1]), markets[|markets| - 1].condition)
  }

  /** The condition dictionary's values, in the dictionary's order. */
  function Latest(markets: seq<Market>): seq<Market> {
    var order := ConditionOrder(markets);
    seq(|order|, i requires 0 <= i < |order| => ByCondition(markets)[order[i]])
  }

  function Open(markets: seq<Market>, tokenIds: set<Token>): Result<Generation, Issue> {
    match IndexByToken(markets)
    case None => Failure(AmbiguousMarketMetadata)
    case Some(byToken) =>
      if "" in tokenIds || tokenIds == {} then Failure(EmptyIdentifier)
      else match IndexByToken(Latest(markets))
        case None => Failure(AmbiguousMarketMetadata)
        case Some(index) =>
          Success(Generation(tokenIds, byToken, ByCondition(markets), index, TokenOrder(Latest(markets))))
  }

  lemma {:induction false} SubIndex(part: seq<Market>, whole: seq<Market>)
    requires IndexByToken(whole).Some? && forall m | m in part :: m in whole
    ensures IndexByToken(part).Some?
    ensures forall t | t in IndexByToken(part).value ::
              t in IndexByToken(whole).value && IndexByToken(whole).value[t] == IndexByToken(part).value[t]
  {
    if part != [] {
      SubIndex(part[..|part| - 1], whole);
      assert part[|part| - 1] in whole;
    }
  }

  lemma {:induction false} LatestValues(markets: seq<Market>)
    ensures forall m | m in Latest(markets) :: m in markets && ByCondition(markets)[m.condition] == m
    ensures forall c | c in ByCondition(markets) :: ByCondition(markets)[c] in Latest(markets)
  {
    forall c | c in ByCondition(markets) ensures ByCondition(markets)[c] in Latest(markets) {
      var i :| 0 <= i < |ConditionOrder(markets)| && ConditionOrder(markets)[i] == c;
      assert Latest(markets)[i] == ByCondition(markets)[c];
    }
  }

  /** No token belongs to two different markets. */
  ghost predicate Unambiguous(markets: seq<Market>) {
    forall a, b, t | a in markets && b in markets && a.Has(t) && b.Has(t) :: a == b
  }

  lemma {:induction false} IndexedIsUnambiguous(markets: seq<Market>)
    requires IndexByToken(markets).Some?
    ensures Unambiguous(markets)
  {
    var index := IndexByToken(markets).value;
    forall a, b, t | a in markets && b in markets && a.Has(t) && b.Has(t) ensures a == b {
      assert index[t] == a && index[t] == b;
    }
  }

  lemma {:induction false} IndexedExactly(markets: seq<Market>)
    ensures IndexByToken(markets).Some? <==> Unambiguous(markets)
  {
    if IndexByToken(markets).Some? {
      IndexedIsUnambiguous(markets);
    } else if markets != [] {
      var front, last := markets[..|markets| - 1], markets[|markets| - 1];
      IndexedExactly(front);
      assert last in markets && forall m | m in front :: m in markets;
      if IndexByToken(front).Some? {
        var index := IndexByToken(front).value;
        var t := if last.tokens.0 in index && index[last.tokens.0] != last then last.tokens.0 else last.tokens.1;
        assert index[t] in front && index[t].Has(t) && last.Has(t);
      }
    }
  }

  /** Whatever market list was set, opening fails only for ambiguous tokens or bad token
      IDs, and the projector's index agrees with the routing tables. */
  lemma {:induction false} OpenIsConsistent(markets: seq<Market>, tokenIds: set<Token>)
    ensures Open(markets, tokenIds).Success? <==>
            IndexByToken(markets).Some? && tokenIds != {} && "" !in tokenIds
    ensures Open(markets, tokenIds).Success? ==> Open(markets, tokenIds).value.Consistent()
  {
    if IndexByToken(markets).Some? {
      LatestIndexed(markets);
      if Open(markets, tokenIds).Success? {
        GenerationIsConsistent(markets, tokenIds);
      }
    }
  }

  lemma {:induction false} LatestIndexed(markets: seq<Market>)
    requires IndexByToken(markets).Some?
    ensures IndexByToken(Latest(markets)).Some?
  {
    LatestValues(markets);
    SubIndex(Latest(markets), markets);
  }

  /** One entry of the projector's index. */
  lemma {:induction false} IndexEntry(markets: seq<Market>, t: Token)
    requires IndexByToken(markets).Some? && IndexByToken(Latest(markets)).Some?
    requires t in IndexByToken(Latest(markets)).value
    ensures var m := IndexByToken(Latest(markets)).value[t];
            && m.Has(t) && t in IndexByToken(markets).value && IndexByToken(markets).value[t] == m
            && m.condition in ByCondition(markets) && ByCondition(markets)[m.condition] == m
  {
    LatestValues(markets);
    SubIndex(Latest(markets), markets);
    assert IndexByToken(Latest(markets)).value[t] in Latest(markets);
  }

  /** One entry of the condition table. */
  lemma {:induction false} ConditionEntry(markets: seq<Market>, c: Condition)
    requires IndexByToken(Latest(markets)).Some? && c in ByCondition(markets)
    ensures var index, m := IndexByToken(Latest(markets)).value, ByCondition(markets)[c];
            && m.condition == c && m.tokens.0 in index && index[m.tokens.0] == m
            && m.tokens.1 in index && index[m.tokens.1] == m
  {
    LatestValues(markets);
    assert ByCondition(markets)[c] in Latest(markets);
  }

  lemma {:induction false} GenerationIsConsistent(markets: seq<Market>, tokenIds: set<Token>)
    requires Open(markets, tokenIds).Success? && IndexByToken(markets).Some? && IndexByToken(Latest(markets)).Some?
    ensures Open(markets, tokenIds).value.Consistent()
  {
    var g := Open(markets, tokenIds).value;
    forall t | t in g.index
      ensures g.index[t].Has(t) && t in g.byToken && g.byToken[t] == g.index[t]
      ensures g.index[t].condition in g.byCondition && g.byCondition[g.index[t].condition] == g.index[t]
    {
      IndexEntry(markets, t);
    }
    forall c | c in g.byCondition
      ensures g.byCondition[c].condition == c
      ensures g.byCondition[c].tokens.0 in g.index && g.index[g.byCondition[c].tokens.0] == g.byCondition[c]
      ensures g.byCondition[c].tokens.1 in g.index && g.index[g.byCondition[c].tokens.1] == g.byCondition[c]
    {
      ConditionEntry(markets, c);
    }
    IndexAgrees(markets);
  }

  lemma {:induction false} IndexAgrees(markets: seq<Market>)
    requires IndexByToken(markets).Some? && IndexByToken(Latest(markets)).Some?
    ensures var index := IndexByToken(Latest(markets)).value;
            forall t :: t in TokenOrder(Latest(markets)) <==> t in index
  {
    forall t ensures t in TokenOrder(Latest(markets)) <==> t in IndexByToken(Latest(markets)).value {
      OrderListsIndex(Latest(markets), t);
    }
  }

  /** Entry `i` is the last market listed for its condition. */
  ghost predicate LastListed(markets: seq<Market>, i: int, c: Condition) {
    0 <= i < |markets| && markets[i].condition == c && forall j | i < j < |markets| :: markets[j].condition != c
  }

  lemma {:induction false} ConditionListed(markets: seq<Market>, c: Condition)
    ensures c in ByCondition(markets) <==> exists m | m in markets :: m.condition == c
  {
    if c in ByCondition(markets) {
      assert ByCondition(markets)[c] in markets;
    }
  }

  lemma {:induction false} StillLast(front: seq<Market>, last: Market, i: int, c: Condition)
    requires LastListed(front, i, c) && last.condition != c
    ensures LastListed(front + [last], i, c) && (front + [last])[i] == front[i]
  {
  }

  lemma {:induction false} ConditionHasLast(markets: seq<Market>, c: Condition) returns (i: int)
    requires c in ByCondition(markets)
    ensures LastListed(markets, i, c) && ByCondition(markets)[c] == markets[i]
  {
    var front, last := markets[..|markets| - 1], markets[|markets| - 1];
    if last.condition == c {
      i := |markets| - 1;
    } else {
      i := ConditionHasLast(front, c);
      StillLast(front, last, i, c);
      assert front + [last] == markets;
    }
  }

  lemma {:induction false} LatestTokens(markets: seq<Market>, t: Token)
    requires IndexByToken(Latest(markets)).Some?
    ensures t in IndexByToken(Latest(markets)).value <==>
            exists c :: c in ByCondition(markets) && ByCondition(markets)[c].Has(t)
  {
    LatestValues(markets);
    var index := IndexByToken(Latest(markets)).value;
    if t in index {
      assert index[t] in Latest(markets) && index[t].condition in ByCondition(markets);
    }
    if c :| c in ByCondition(markets) && ByCondition(markets)[c].Has(t) {
      assert ByCondition(markets)[c] in Latest(markets);
    }
  }

  lemma {:induction false} ListedTokens(markets: seq<Market>, t: Token)
    requires IndexByToken(markets).Some?
    ensures t in IndexByToken(markets).value <==> exists m | m in markets :: m.Has(t)
  {
  }

  /** A generation holds what was asked for and what was listed: the tokens subscribed; for each token the one
      market listed with it; for each condition the market listed for it last; and in the projector's index the
      tokens of those. */
  lemma {:induction false} OpenHolds(markets: seq<Market>, tokenIds: set<Token>, t: Token, c: Condition)
    requires Open(markets, tokenIds).Success?
    ensures var g := Open(markets, tokenIds).value;
            && g.subscribed == tokenIds
            && (t in g.byToken <==> exists m | m in markets :: m.Has(t))
            && (t in g.byToken ==> g.byToken[t] in markets && g.byToken[t].Has(t))
            && (c in g.byCondition <==> exists m | m in markets :: m.condition == c)
            && (c in g.byCondition ==> exists i :: LastListed(markets, i, c) && g.byCondition[c] == markets[i])
            && (t in g.index <==> exists d :: d in g.byCondition && g.byCondition[d].Has(t))
  {
    ConditionListed(markets, c);
    if c in ByCondition(markets) {
      var i := ConditionHasLast(markets, c);
    }
    ListedTokens(markets, t);
    LatestTokens(markets, t);
  }

  // ---------- messages and outputs ----------

  datatype Ident = Absent | Malformed | Text(id: string)

  datatype Decoded<+T> = Bad(issue: Issue) | Good(value: T)

  datatype Resolution = Resolution(winningToken: Token, winningOutcome: string, source: string, sourceAtMs: Option<nat>)

  datatype Message =
    | Book(token: Ident, book: Decoded<Depth>)
    | PriceChange(condition: Ident, changes: Decoded<seq<Change>>)
    | LastTrade(token: Ident, trade: Decoded<()>)
    | TickSize(token: Ident, tick: Decoded<()>)
    | Resolved(condition: Ident, resolution: Decoded<Resolution>)
    | Unknown

  /** One delivery: the SDK drop counter read before it, the message, and the clock readings. */
  datatype Event = Event(dropped: Option<int>, message: Message, dropAtMs: nat, atMs: nat)

  datatype GapReason =
    | InvalidMarketParametersGap | InvalidBookLevelGap | InvalidBookSideGap | MissingBookBaselineGap
    | BookIdentityMismatchGap | BookStreamGapGap | CrossedBookGap

  datatype BookGap = BookGap(condition: Option<Condition>, atMs: nat, reason: GapReason) {
    predicate Affects(c: Condition) {
      condition.None? || condition.value == c
    }
  }

  datatype Output =
    | GapOut(gap: BookGap)
    | SnapshotOut(snapshot: Snapshot)
    | TradeHint(condition: Condition, token: Token, slug: string, atMs: nat)
    | ResolutionOut(market: Market, winningToken: Token, winningOutcome: string, resolvedAtMs: nat, source: string)

  /** What happened, in order: messages taken into owned depth, and outputs yielded. */
  datatype Item =
    | TookBaseline(token: Token, book: Depth)
    | TookDelta(changes: seq<Change>)
    | Yielded(output: Output)

  function ReasonFor(issue: Issue): Option<GapReason> {
    match issue
    case InvalidMarketParameters => Some(InvalidMarketParametersGap)
    case InvalidBookLevel => Some(InvalidBookLevelGap)
    case InvalidBookSide => Some(InvalidBookSideGap)
    case MissingBookBaseline => Some(MissingBookBaselineGap)
    case BookIdentityMismatch => Some(BookIdentityMismatchGap)
    case BookStreamGap => Some(BookStreamGapGap)
    case CrossedBook => Some(CrossedBookGap)
    case _ => None
  }

  // ---------- the stream as a state machine ----------

  datatype State = State(
    depth: map<Token, Depth>,
    recovering: set<Condition>,
    dropped: int,
    gapCount: nat,
    lastGap: Option<BookGap>,
    raised: bool)

  function Fail(s: State): (State, seq<Item>) {
    (s.(raised := true), [])
  }

  /** Count the gap, then publish it under its stable reason; an issue without one ends the stream. */
  function RecordGap(s: State, issue: Issue, condition: Option<Condition>, atMs: nat): (State, seq<Item>) {
    var counted := s.(gapCount := s.gapCount + 1);
    match ReasonFor(issue)
    case None => Fail(counted)
    case Some(reason) =>
      var gap := BookGap(condition, atMs, reason);
      (counted.(lastGap := Some(gap)), [Yielded(GapOut(gap))])
  }

  function InvalidateAll(g: Generation, s: State, issue: Issue, atMs: nat): (State, seq<Item>) {
    var (s', items) := RecordGap(s.(depth := map[]), issue, None, atMs);
    (if s'.raised then s' else s'.(recovering := s'.recovering + g.byCondition.Keys), items)
  }

  function InvalidateOne(g: Generation, s: State, condition: Condition, issue: Issue, atMs: nat): (r: (State, seq<Item>))
    requires s.depth.Keys <= g.index.Keys
    ensures r.0.depth.Keys <= g.index.Keys
  {
    var (s', items) := RecordGap(s.(depth := Without(g.index, s.depth, condition)), issue, Some(condition), atMs);
    (if s'.raised then s' else s'.(recovering := s'.recovering + {condition}), items)
  }

  /** Books, trades and ticks route by subscribed token; price changes and resolutions by condition. */
  function Route(g: Generation, m: Message): Option<Market> {
    match m
    case PriceChange(Text(c), _) => if c in g.byCondition then Some(g.byCondition[c]) else None
    case Resolved(Text(c), _) => if c in g.byCondition then Some(g.byCondition[c]) else None
    case Book(Text(t), _) => if t in g.subscribed && t in g.byToken then Some(g.byToken[t]) else None
    case LastTrade(Text(t), _) => if t in g.subscribed && t in g.byToken then Some(g.byToken[t]) else None
    case TickSize(Text(t), _) => if t in g.subscribed && t in g.byToken then Some(g.byToken[t]) else None
    case _ => None
  }

  function Yield(snapshots: seq<Snapshot>): (items: seq<Item>)
    ensures |items| == |snapshots|
    ensures forall i | 0 <= i < |items| :: items[i] == Yielded(SnapshotOut(snapshots[i]))
  {
    seq(|snapshots|, i requires 0 <= i < |snapshots| => Yielded(SnapshotOut(snapshots[i])))
  }

  function BaselineStep(g: Generation, s: State, market: Market, token: Token, book: Depth, atMs: nat): (r: (State, seq<Item>))
    requires s.depth.Keys <= g.index.Keys
    ensures r.0.depth.Keys <= g.index.Keys
  {
    match BaselineOutcome(g.index, token, book, market.condition, atMs)
    case Failure(issue) => InvalidateOne(g, s, market.condition, issue, atMs)
    case Success(snapshot) =>
      var s' := s.(depth := s.depth[token := book]);
      if market.condition !in s.recovering then
        (s', [TookBaseline(token, book), Yielded(SnapshotOut(snapshot))])
      else if g.Required(market) != {} && g.Required(market) <= s'.depth.Keys then
        (s'.(recovering := s'.recovering - {market.condition}),
         [TookBaseline(token, book)]
         + Yield(Snapshots(g.index, s'.depth, Available(g.index, s'.depth, g.order, market.condition), atMs)))
      else
        (s', [TookBaseline(token, book)])
  }

  /** Changes to subscribed tokens that have a baseline; the rest of a price change is ignored. */
  function Usable(g: Generation, depth: map<Token, Depth>, changes: seq<Change>): (usable: seq<Change>)
    ensures forall c :: c in usable <==> c in changes && c.token in g.subscribed && c.token in depth
  {
    if changes == [] then []
    else
      var c := changes[|changes| - 1];
      assert changes == changes[..|changes| - 1] + [c];
      var earlier := Usable(g, depth, changes[..|changes| - 1]);
      if c.token in g.subscribed && c.token in depth then earlier + [c] else earlier
  }

  function DeltaStep(g: Generation, s: State, condition: Condition, changes: seq<Change>, atMs: nat): (r: (State, seq<Item>))
    requires s.depth.Keys <= g.index.Keys
    ensures r.0.depth.Keys <= g.index.Keys
  {
    var usable := Usable(g, s.depth, changes);
    if usable == [] then (s, [])
    else match DeltaOutcome(g.index, s.depth, usable, condition, atMs)
      case Failure(issue) => InvalidateOne(g, s, condition, issue, atMs)
      case Success(snapshots) =>
        (s.(depth := s.depth + Candidates(s.depth, usable)),
         [TookDelta(usable)] + if condition in s.recovering then [] else Yield(snapshots))
  }

  function MessageStep(g: Generation, s: State, m: Message, atMs: nat): (r: (State, seq<Item>))
    requires s.depth.Keys <= g.index.Keys
    ensures r.0.depth.Keys <= g.index.Keys
  {
    match Route(g, m)
    case None =>
      if m.Book? || m.PriceChange? then InvalidateAll(g, s, InvalidMarketParameters, atMs) else (s, [])
    case Some(market) =>
      match m
      case Book(_, Bad(issue)) => InvalidateOne(g, s, market.condition, issue, atMs)
      case PriceChange(_, Bad(issue)) => InvalidateOne(g, s, market.condition, issue, atMs)
      case Book(id, Good(book)) => BaselineStep(g, s, market, id.id, book, atMs)
      case PriceChange(_, Good(changes)) => DeltaStep(g, s, market.condition, changes, atMs)
      case LastTrade(id, Good(_)) => (s, [Yielded(TradeHint(market.condition, id.id, market.slug, atMs))])
      case Resolved(_, Good(r)) =>
        (s, [Yielded(ResolutionOut(market, r.winningToken, r.winningOutcome,
                                   if r.sourceAtMs.Some? then r.sourceAtMs.value else atMs, r.source))])
      case _ => (s, [])
  }

  /** A drop invalidates everything before the message that revealed it is looked at. */
  function Step(g: Generation, s: State, e: Event): (r: (State, seq<Item>))
    requires s.depth.Keys <= g.index.Keys
    ensures r.0.depth.Keys <= g.index.Keys
  {
    if s.raised then (s, [])
    else if e.dropped.None? || e.dropped.value < 0 || e.dropped.value < s.dropped then Fail(s)
    else
      var (s1, lost) := if e.dropped.value > s.dropped then InvalidateAll(g, s, BookStreamGap, e.dropAtMs) else (s, []);
      var (s2, items) := MessageStep(g, s1.(dropped := e.dropped.value), e.message, e.atMs);
      (s2, lost + items)
  }

  function Start(dropped: int, gapCount: nat, lastGap: Option<BookGap>): State {
    State(map[], {}, dropped, gapCount, lastGap, false)
  }

  function Run(g: Generation, s: State, events: seq<Event>): (r: (State, seq<Item>))
    requires s.depth.Keys <= g.index.Keys
    ensures r.0.depth.Keys <= g.index.Keys
    decreases |events|
  {
    if events == [] then (s, [])
    else
      var (s1, items) := Run(g, s, events[..|events| - 1]);
      var (s2, more) := Step(g, s1, events[|events| - 1]);
      (s2, items + more)
  }
}
