/** Owned order-book depth: what a baseline or a delta does to it, and the
    projector that applies both transactionally. */
module OrderBooks {
  import opened Common

  type Token = string
  type Condition = string

  datatype Side = Buy | Sell

  /** The immutable identity of one two-outcome market. */
  datatype Market = Market(condition: Condition, slug: string, tokens: (Token, Token)) {
    predicate Has(token: Token) {
      token == tokens.0 || token == tokens.1
    }
  }

  /** Price to size, one map a side. Prices and sizes are exact decimals. */
  datatype Depth = Depth(bids: map<real, real>, asks: map<real, real>) {
    function Levels(side: Side): map<real, real> {
      if side.Buy? then bids else asks
    }

    function With(side: Side, levels: map<real, real>): Depth {
      if side.Buy? then Depth(levels, asks) else Depth(bids, levels)
    }

    /** The size resting at a price; zero when there is no such level. */
    function SizeAt(side: Side, price: real): real {
      if price in Levels(side) then Levels(side)[price] else 0.0
    }
  }

  datatype Change = Change(token: Token, side: Side, price: real, size: real)

  datatype Snapshot = Snapshot(token: Token, market: Market, depth: Depth, receivedAtMs: nat)

  datatype Issue =
    | EmptyIdentifier | MissingConditionId | MissingMarketSlug | MissingQuestion | MissingTokenId
    | InvalidMarketParameters | InvalidBookLevel | BookUnavailable | InvalidBookSide
    | MissingBookBaseline | BookIdentityMismatch | BookStreamGap | InvalidStreamDiagnostics
    | CrossedBook | AmbiguousMarketMetadata | InvalidPosition | InvalidResolution

  // ---------- normalization of one book ----------

  predicate ValidLevels(levels: map<real, real>) {
    forall price | price in levels :: 0.0 < price <= 1.0 && 0.0 < levels[price]
  }

  /** The best bid is above the best ask exactly when some bid is above some ask. */
  predicate Crossed(depth: Depth) {
    exists bid | bid in depth.bids :: exists ask | ask in depth.asks :: ask < bid
  }

  function BookIssue(depth: Depth): Option<Issue> {
    if !ValidLevels(depth.bids) || !ValidLevels(depth.asks) then Some(InvalidBookLevel)
    else if Crossed(depth) then Some(CrossedBook)
    else None
  }

  // ---------- market identity ----------

  /** Token index of a market list; None when a token names two different markets. */
  function IndexByToken(markets: seq<Market>): (index: Option<map<Token, Market>>)
    ensures index.Some? ==>
              forall m | m in markets ::
                && m.tokens.0 in index.value && index.value[m.tokens.0] == m
                && m.tokens.1 in index.value && index.value[m.tokens.1] == m
    ensures index.Some? ==>
              forall t | t in index.value :: index.value[t] in markets && index.value[t].Has(t)
  {
    if markets == [] then Some(map[])
    else
      var m := markets[|markets| - 1];
      match IndexByToken(markets[..|markets| - 1])
      case None => None
      case Some(index) =>
        if m.tokens.0 in index && index[m.tokens.0] != m then None
        else if m.tokens.1 in index && index[m.tokens.1] != m then None
        else Some(index[m.tokens.0 := m][m.tokens.1 := m])
  }

  function WithToken(order: seq<Token>, token: Token): (r: seq<Token>)
    requires Distinct(order)
    ensures Distinct(r)
    ensures forall t :: t in r <==> t in order || t == token
  {
    if token in order then order else order + [token]
  }

  predicate Distinct(tokens: seq<Token>) {
    forall i, j | 0 <= i < j < |tokens| :: tokens[i] != tokens[j]
  }

  /** The order in which the token index lists its keys: first appearance first. */
  function TokenOrder(markets: seq<Market>): (order: seq<Token>)
    ensures Distinct(order)
  {
    if markets == [] then []
    else
      var m := markets[|markets| - 1];
      WithToken(WithToken(TokenOrder(markets[..|markets| - 1]), m.tokens.0), m.tokens.1)
  }

  lemma {:induction false} OrderListsIndex(markets: seq<Market>, token: Token)
    requires IndexByToken(markets).Some?
    ensures token in TokenOrder(markets) <==> token in IndexByToken(markets).value
  {
    if markets != [] {
      OrderListsIndex(markets[..|markets| - 1], token);
    }
  }

  function MarketFor(index: map<Token, Market>, token: Token, condition: Condition): Option<Market> {
    if token in index && index[token].condition == condition then Some(index[token]) else None
  }

  // ---------- what a delta does ----------

  function ApplyChange(depth: Depth, change: Change): Depth {
    var levels := depth.Levels(change.side);
    depth.With(change.side,
               if change.size == 0.0 then levels - {change.price} else levels[change.price := change.size])
  }

  /** The edited copies a delta builds, leaving the owned depth alone. */
  function Candidates(depth: map<Token, Depth>, changes: seq<Change>): (candidates: map<Token, Depth>)
    requires forall c | c in changes :: c.token in depth
    ensures candidates.Keys == set c | c in changes :: c.token
  {
    if changes == [] then map[]
    else
      var c := changes[|changes| - 1];
      var earlier := Candidates(depth, changes[..|changes| - 1]);
      assert changes == changes[..|changes| - 1] + [c];
      var base := if c.token in earlier then earlier[c.token] else depth[c.token];
      earlier[c.token := ApplyChange(base, c)]
  }

  /** Tokens a delta touches, in first-touch order. */
  function Touched(changes: seq<Change>): (tokens: seq<Token>)
    ensures forall t :: t in tokens <==> exists c :: c in changes && c.token == t
    ensures Distinct(tokens)
  {
    if changes == [] then []
    else
      var c := changes[|changes| - 1];
      assert changes == changes[..|changes| - 1] + [c];
      WithToken(Touched(changes[..|changes| - 1]), c.token)
  }

  /** First change that names a foreign market or a token without a baseline. */
  function ChangeFault(index: map<Token, Market>, depth: map<Token, Depth>, changes: seq<Change>,
                       condition: Condition): (fault: Option<Issue>)
    ensures fault.None? <==>
            forall c | c in changes :: MarketFor(index, c.token, condition).Some? && c.token in depth
  {
    if changes == [] then None
    else
      var earlier := ChangeFault(index, depth, changes[..|changes| - 1], condition);
      var c := changes[|changes| - 1];
      assert changes == changes[..|changes| - 1] + [c];
      if earlier.Some? then earlier
      else if MarketFor(index, c.token, condition).None? then Some(BookIdentityMismatch)
      else if c.token !in depth then Some(MissingBookBaseline)
      else None
  }

  /** First candidate, in touch order, that does not normalize. */
  function BookFault(books: map<Token, Depth>, tokens: seq<Token>): (fault: Option<Issue>)
    requires forall t | t in tokens :: t in books
    ensures fault.None? <==> forall t | t in tokens :: BookIssue(books[t]).None?
  {
    if tokens == [] then None
    else
      var earlier := BookFault(books, tokens[..|tokens| - 1]);
      assert tokens == tokens[..|tokens| - 1] + [tokens[|tokens| - 1]];
      if earlier.Some? then earlier else BookIssue(books[tokens[|tokens| - 1]])
  }

  function Snapshots(index: map<Token, Market>, books: map<Token, Depth>, tokens: seq<Token>, atMs: nat): (s: seq<Snapshot>)
    requires forall t | t in tokens :: t in books && t in index
    ensures |s| == |tokens|
    ensures forall i | 0 <= i < |s| :: s[i] == Snapshot(tokens[i], index[tokens[i]], books[tokens[i]], atMs)
  {
    seq(|tokens|, i requires 0 <= i < |tokens| => Snapshot(tokens[i], index[tokens[i]], books[tokens[i]], atMs))
  }

  function DeltaOutcome(index: map<Token, Market>, depth: map<Token, Depth>, changes: seq<Change>,
                        condition: Condition, atMs: nat): Result<seq<Snapshot>, Issue>
  {
    match ChangeFault(index, depth, changes, condition)
    case Some(issue) => Failure(issue)
    case None =>
      var candidates := Candidates(depth, changes);
      match BookFault(candidates, Touched(changes))
      case Some(issue) => Failure(issue)
      case None => Success(Snapshots(index, candidates, Touched(changes), atMs))
  }

  /** The last size a delta writes at one level, if it writes there at all. */
  function LastWrite(changes: seq<Change>, token: Token, side: Side, price: real): Option<real> {
    if changes == [] then None
    else
      var c := changes[|changes| - 1];
      if c.token == token && c.side == side && c.price == price then Some(c.size)
      else LastWrite(changes[..|changes| - 1], token, side, price)
  }

  /** Editing copies change by change leaves, at every level, the last size written there. */
  lemma {:induction false} CandidateLevels(depth: map<Token, Depth>, changes: seq<Change>, token: Token, side: Side, price: real)
    requires forall c | c in changes :: c.token in depth
    ensures token !in Candidates(depth, changes) ==> LastWrite(changes, token, side, price).None?
    ensures token in Candidates(depth, changes) ==>
              Candidates(depth, changes)[token].SizeAt(side, price) ==
              match LastWrite(changes, token, side, price)
              case Some(size) => size
              case None => depth[token].SizeAt(side, price)
  {
    if changes != [] {
      CandidateLevels(depth, changes[..|changes| - 1], token, side, price);
    }
  }

  // ---------- removing depth ----------

  function Without(index: map<Token, Market>, depth: map<Token, Depth>, condition: Condition): map<Token, Depth>
    requires depth.Keys <= index.Keys
  {
    map t | t in depth && index[t].condition != condition :: depth[t]
  }

  class BookDepthProjector {
    const index: map<Token, Market>
    const order: seq<Token>
    var depth: map<Token, Depth>

    ghost predicate Valid()
      reads this
    {
      && depth.Keys <= index.Keys
      && (forall t :: t in order <==> t in index)
      && forall t | t in depth :: BookIssue(depth[t]).None?
    }

    constructor (index: map<Token, Market>, order: seq<Token>)
      requires forall t :: t in order <==> t in index
      ensures Valid() && depth == map[]
      ensures this.index == index && this.order == order
    {
      this.index, this.order := index, order;
      depth := map[];
    }

    method Clear()
      modifies this`depth
      ensures depth == map[]
    {
      depth := map[];
    }

    method InvalidateCondition(condition: Condition)
      requires Valid()
      modifies this`depth
      ensures Valid() && depth == Without(index, old(depth), condition)
    {
      var invalid := set t | t in depth && index[t].condition == condition;
      while invalid != {}
        invariant invalid <= old(depth).Keys
        invariant forall t | t in invalid :: index[t].condition == condition
        invariant depth.Keys == Without(index, old(depth), condition).Keys + invalid
        invariant forall t | t in depth :: depth[t] == old(depth)[t]
        decreases invalid
      {
        var t :| t in invalid;
        depth := depth - {t};
        invalid := invalid - {t};
      }
    }

    predicate HasBaselines(required: set<Token>)
      reads this
    {
      required != {} && required <= depth.Keys
    }

    /** Validate first, then own the new depth: a rejected baseline changes nothing. */
    method ApplyBaseline(token: Token, book: Depth, condition: Condition, atMs: nat)
      returns (r: Result<Snapshot, Issue>)
      requires Valid()
      modifies this`depth
      ensures Valid()
      ensures r == BaselineOutcome(index, token, book, condition, atMs)
      ensures depth == if r.Success? then old(depth)[token := book] else old(depth)
    {
      var market := MarketFor(index, token, condition);
      if market.None? {
        return Failure(BookIdentityMismatch);
      }
      var issue := BookIssue(book);
      if issue.Some? {
        return Failure(issue.value);
      }
      depth := depth[token := book];
      return Success(Snapshot(token, market.value, book, atMs));
    }

    /** Edit copies of every touched token, normalize all of them, and only then install. */
    method ApplyDelta(changes: seq<Change>, condition: Condition, atMs: nat)
      returns (r: Result<seq<Snapshot>, Issue>)
      requires Valid()
      modifies this`depth
      ensures Valid()
      ensures r == DeltaOutcome(index, old(depth), changes, condition, atMs)
      ensures depth == if r.Success? then old(depth) + Candidates(old(depth), changes) else old(depth)
    {
      var edited := EditCopies(changes, condition);
      if edited.Failure? {
        return Failure(edited.error);
      }
      var (candidates, touched) := edited.value;
      var projected := Project(candidates, touched, atMs);
      if projected.Success? {
        Install(candidates, touched);
      }
      return projected;
    }

    method EditCopies(changes: seq<Change>, condition: Condition)
      returns (r: Result<(map<Token, Depth>, seq<Token>), Issue>)
      ensures match ChangeFault(index, depth, changes, condition)
              case Some(issue) => r == Failure(issue)
              case None => r == Success((Candidates(depth, changes), Touched(changes)))
    {
      var candidates: map<Token, Depth> := map[];
      var touched: seq<Token> := [];
      for i := 0 to |changes|
        invariant ChangeFault(index, depth, changes[..i], condition).None?
        invariant candidates == Candidates(depth, changes[..i])
        invariant touched == Touched(changes[..i])
      {
        var c := changes[i];
        assert changes[..i + 1][..i] == changes[..i];
        if MarketFor(index, c.token, condition).None? || c.token !in depth {
          FaultStands(index, depth, changes, condition, i + 1);
          return Failure(if MarketFor(index, c.token, condition).None? then BookIdentityMismatch else MissingBookBaseline);
        }
        var base := if c.token in candidates then candidates[c.token] else depth[c.token];
        candidates := candidates[c.token := ApplyChange(base, c)];
        touched := WithToken(touched, c.token);
      }
      assert changes[..|changes|] == changes;
      return Success((candidates, touched));
    }

    method Project(candidates: map<Token, Depth>, touched: seq<Token>, atMs: nat)
      returns (r: Result<seq<Snapshot>, Issue>)
      requires forall t | t in touched :: t in candidates && t in index
      ensures match BookFault(candidates, touched)
              case Some(issue) => r == Failure(issue)
              case None => r == Success(Snapshots(index, candidates, touched, atMs))
    {
      var snapshots: seq<Snapshot> := [];
      for i := 0 to |touched|
        invariant BookFault(candidates, touched[..i]).None?
        invariant snapshots == Snapshots(index, candidates, touched[..i], atMs)
      {
        var t := touched[i];
        assert touched[..i + 1][..i] == touched[..i];
        var issue := BookIssue(candidates[t]);
        if issue.Some? {
          BookFaultStands(candidates, touched, i + 1);
          return Failure(issue.value);
        }
        snapshots := snapshots + [Snapshot(t, index[t], candidates[t], atMs)];
      }
      assert touched[..|touched|] == touched;
      return Success(snapshots);
    }

    method Install(candidates: map<Token, Depth>, touched: seq<Token>)
      requires forall t :: t in touched <==> t in candidates
      modifies this`depth
      ensures depth == old(depth) + candidates
    {
      for i := 0 to |touched|
        invariant depth.Keys == old(depth).Keys + set t | t in touched[..i]
        invariant forall t | t in depth ::
                    depth[t] == if t in touched[..i] then candidates[t] else old(depth)[t]
      {
        depth := depth[touched[i] := candidates[touched[i]]];
        assert touched[..i + 1] == touched[..i] + [touched[i]];
      }
      assert touched[..|touched|] == touched;
    }

    /** Every available book of one condition, in index order. */
    method ConditionSnapshots(condition: Condition, atMs: nat) returns (r: seq<Snapshot>)
      requires Valid()
      ensures r == Snapshots(index, depth, Available(index, depth, order, condition), atMs)
    {
      r := [];
      for i := 0 to |order|
        invariant r == Snapshots(index, depth, Available(index, depth, order[..i], condition), atMs)
      {
        var t := order[i];
        assert order[..i + 1][..i] == order[..i];
        if t in depth && index[t].condition == condition {
          r := r + [Snapshot(t, index[t], depth[t], atMs)];
        }
      }
      assert order[..|order|] == order;
    }
  }

  function BaselineOutcome(index: map<Token, Market>, token: Token, book: Depth, condition: Condition,
                           atMs: nat): Result<Snapshot, Issue>
  {
    match MarketFor(index, token, condition)
    case None => Failure(BookIdentityMismatch)
    case Some(market) =>
      match BookIssue(book)
      case Some(issue) => Failure(issue)
      case None => Success(Snapshot(token, market, book, atMs))
  }

  function Available(index: map<Token, Market>, depth: map<Token, Depth>, order: seq<Token>,
                     condition: Condition): (tokens: seq<Token>)
    ensures forall t :: t in tokens <==>
                        t in order && t in depth && t in index && index[t].condition == condition
  {
    if order == [] then []
    else
      var t := order[|order| - 1];
      var earlier := Available(index, depth, order[..|order| - 1], condition);
      assert order == order[..|order| - 1] + [t];
      if t in depth && t in index && index[t].condition == condition then earlier + [t] else earlier
  }

  lemma {:induction false} FaultStands(index: map<Token, Market>, depth: map<Token, Depth>, changes: seq<Change>,
                                       condition: Condition, n: nat)
    requires n <= |changes| && ChangeFault(index, depth, changes[..n], condition).Some?
    ensures ChangeFault(index, depth, changes, condition) == ChangeFault(index, depth, changes[..n], condition)
  {
    if n == |changes| {
      assert changes[..n] == changes;
    } else {
      var init := changes[..|changes| - 1];
      assert init[..n] == changes[..n];
      FaultStands(index, depth, init, condition, n);
    }
  }

  lemma {:induction false} BookFaultStands(books: map<Token, Depth>, tokens: seq<Token>, n: nat)
    requires forall t | t in tokens :: t in books
    requires n <= |tokens| && BookFault(books, tokens[..n]).Some?
    ensures BookFault(books, tokens) == BookFault(books, tokens[..n])
  {
    if n == |tokens| {
      assert tokens[..n] == tokens;
    } else {
      var init := tokens[..|tokens| - 1];
      assert init[..n] == tokens[..n];
      BookFaultStands(books, init, n);
    }
  }
}
