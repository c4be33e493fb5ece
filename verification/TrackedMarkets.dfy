/** The condition-keyed registry of every market some part of a run is interested in. */
module TrackedMarkets {
  import opened Common

  datatype Market = Market(condition: string, tokens: seq<string>, metadata: nat)

  datatype Interest = Configured | FollowedWallet | BrokerPosition

  datatype Entry = Entry(market: Market, interests: set<Interest>, owners: set<string>)

  datatype State = State(cap: Option<int>, entries: map<string, Entry>, terminal: set<string>, revision: nat)

  datatype Error = InvalidCap | LimitExceeded | AmbiguousMarketMetadata

  /** What a call returned: its flag, or the error it raised. */
  type Outcome = Result<bool, Error>

  datatype Op =
    | Add(market: Market, interest: Interest, owner: Option<string>)
    | Resolve(condition: string)

  function TokenSet(m: Market): set<string> { set t | t in m.tokens }

  /** The subscribed tokens. */
  function Tokens(s: State): set<string> {
    set c, t | c in s.entries && t in s.entries[c].market.tokens :: t
  }

  predicate AtCapacity(s: State, m: Market) {
    m.condition !in s.entries && m.condition !in s.terminal && s.cap.Some? && |s.entries| >= s.cap.value
  }

  predicate Conflicts(s: State, m: Market) {
    m.condition in s.entries && TokenSet(s.entries[m.condition].market) != TokenSet(m)
  }

  function WithInterest(e: Entry, interest: Interest, owner: Option<string>): Entry {
    e.(interests := e.interests + {interest}, owners := e.owners + if owner.Some? then {owner.value} else {})
  }

  function AddStep(s: State, m: Market, interest: Interest, owner: Option<string>): (State, Outcome) {
    if m.condition in s.terminal then (s, Success(false))
    else if m.condition !in s.entries then
      if AtCapacity(s, m) then (s, Failure(LimitExceeded))
      else
        (s.(entries := s.entries[m.condition := WithInterest(Entry(m, {}, {}), interest, owner)],
            revision := s.revision + 1), Success(true))
    else if Conflicts(s, m) then (s, Failure(AmbiguousMarketMetadata))
    else
      var before := s.entries[m.condition];
      var after := WithInterest(before.(market := m), interest, owner);
      (s.(entries := s.entries[m.condition := after]), Success(after != before))
  }

  function ResolveStep(s: State, c: string): (State, Outcome) {
    if c in s.entries then
      (s.(entries := s.entries - {c}, terminal := s.terminal + {c}, revision := s.revision + 1), Success(true))
    else (s.(terminal := s.terminal + {c}), Success(false))
  }

  function Step(s: State, op: Op): (State, Outcome) {
    match op
    case Add(m, interest, owner) => AddStep(s, m, interest, owner)
    case Resolve(c) => ResolveStep(s, c)
  }

  function Start(terminal: set<string>, cap: Option<int>): Result<State, Error> {
    if cap.Some? && cap.value < 1 then Failure(InvalidCap)
    else Success(State(cap, map[], set c | c in terminal && c != "", 0))
  }

  function Run(s: State, ops: seq<Op>): State {
    if ops == [] then s else Step(Run(s, ops[..|ops| - 1]), ops[|ops| - 1]).0
  }

  lemma {:induction false} Overwrite<V>(m: map<string, V>, k: string, first: V, last: V)
    ensures m[k := first][k := last] == m[k := last]
  {
  }

  // ---------- the registry object ----------

  class TrackedMarketRegistry {
    const cap: Option<int>
    var entries: map<string, Entry>
    var terminal: set<string>
    var revision: nat

    function Abs(): State
      reads this
    {
      State(cap, entries, terminal, revision)
    }

    constructor (terminal: set<string>, cap: Option<int>)
      requires cap.Some? ==> cap.value >= 1
      ensures Start(terminal, cap) == Success(Abs())
    {
      this.cap := cap;
      this.entries, this.revision := map[], 0;
      this.terminal := set c | c in terminal && c != "";
    }

    method EnsureCompatible(market: Market) returns (r: Result<(), Error>)
      ensures r.Failure? <==> Conflicts(Abs(), market)
      ensures r.Failure? ==> r.error == AmbiguousMarketMetadata
    {
      if market.condition in entries && TokenSet(entries[market.condition].market) != TokenSet(market) {
        return Failure(AmbiguousMarketMetadata);
      }
      return Success(());
    }

    method RequireCapacity(market: Market) returns (r: Result<(), Error>)
      ensures r.Failure? <==> AtCapacity(Abs(), market)
      ensures r.Failure? ==> r.error == LimitExceeded
    {
      if market.condition !in entries && market.condition !in terminal && cap.Some? && |entries| >= cap.value {
        return Failure(LimitExceeded);
      }
      return Success(());
    }

    method Add(market: Market, interest: Interest, owner: Option<string>) returns (r: Outcome)
      modifies this`entries, this`revision
      ensures (Abs(), r) == AddStep(old(Abs()), market, interest, owner)
    {
      var id := market.condition;
      if id in terminal { return Success(false); }
      if id !in entries {
        var capacity := RequireCapacity(market);
        if capacity.Failure? { return Failure(capacity.error); }
        entries := entries[id := Entry(market, {}, {})];
        var _ := NoteInterest(id, interest, owner);
        Overwrite(old(entries), id, Entry(market, {}, {}), entries[id]);
        NotifyChange();
        return Success(true);
      }
      var compatible := EnsureCompatible(market);
      if compatible.Failure? { return Failure(compatible.error); }
      var changed := entries[id].market != market;
      entries := entries[id := entries[id].(market := market)];
      var noted := NoteInterest(id, interest, owner);
      Overwrite(old(entries), id, old(entries)[id].(market := market), entries[id]);
      return Success(changed || noted);
    }

    /** The two sets of an entry grow in place; the flag says whether either did. */
    method NoteInterest(id: string, interest: Interest, owner: Option<string>) returns (changed: bool)
      requires id in entries
      modifies this`entries
      ensures entries == old(entries)[id := WithInterest(old(entries)[id], interest, owner)]
      ensures changed <==> WithInterest(old(entries)[id], interest, owner) != old(entries)[id]
    {
      changed := false;
      if interest !in entries[id].interests {
        entries := entries[id := entries[id].(interests := entries[id].interests + {interest})];
        changed := true;
      } else {
        assert entries[id].interests + {interest} == entries[id].interests;
      }
      if owner.Some? && owner.value !in entries[id].owners {
        entries := entries[id := entries[id].(owners := entries[id].owners + {owner.value})];
        changed := true;
      } else {
        assert entries[id].owners + (if owner.Some? then {owner.value} else {}) == entries[id].owners;
      }
      assert entries[id] == WithInterest(old(entries)[id], interest, owner);
      assert entries == old(entries)[id := entries[id]];
    }

    method Resolve(condition: string) returns (removed: bool)
      modifies this`entries, this`terminal, this`revision
      ensures (Abs(), Success(removed)) == ResolveStep(old(Abs()), condition)
    {
      terminal := terminal + {condition};
      if condition !in entries { return false; }
      entries := entries - {condition};
      NotifyChange();
      return true;
    }

    method NotifyChange()
      modifies this`revision
      ensures revision == old(revision) + 1
    {
      revision := revision + 1;
    }
  }

  // ---------- what every history keeps ----------

  ghost predicate Inv(s: State) {
    && s.entries.Keys !! s.terminal
    && (s.cap.Some? ==> |s.entries| <= s.cap.value)
    && (forall c | c in s.entries :: s.entries[c].market.condition == c)
  }

  lemma {:induction false} InsertSize<V>(m: map<string, V>, k: string, v: V)
    ensures m[k := v].Keys == m.Keys + {k}
    ensures |m[k := v]| == |m| + if k in m then 0 else 1
  {
    assert m[k := v].Keys == m.Keys + {k};
    assert k in m ==> m.Keys + {k} == m.Keys;
  }

  lemma {:induction false} RemoveSize<V>(m: map<string, V>, k: string)
    ensures (m - {k}).Keys == m.Keys - {k} && |m - {k}| <= |m|
  {
    assert (m - {k}).Keys == m.Keys - {k};
    assert k in m ==> m.Keys == (m.Keys - {k}) + {k};
    assert k !in m ==> m.Keys - {k} == m.Keys;
  }

  lemma {:induction false} InsertKeepsInv(s: State, id: string, e: Entry, revision: nat)
    requires Inv(s) && id !in s.terminal && e.market.condition == id
    requires id in s.entries || s.cap.None? || |s.entries| < s.cap.value
    ensures Inv(s.(entries := s.entries[id := e], revision := revision))
  {
    InsertSize(s.entries, id, e);
  }

  lemma {:induction false} AddKeepsInv(s: State, m: Market, interest: Interest, owner: Option<string>)
    requires Inv(s)
    ensures Inv(AddStep(s, m, interest, owner).0)
  {
    if m.condition in s.terminal {
    } else if m.condition in s.entries {
      InsertKeepsInv(s, m.condition, WithInterest(s.entries[m.condition].(market := m), interest, owner), s.revision);
    } else if !AtCapacity(s, m) {
      InsertKeepsInv(s, m.condition, WithInterest(Entry(m, {}, {}), interest, owner), s.revision + 1);
    }
  }

  lemma {:induction false} ResolveKeepsInv(s: State, c: string)
    requires Inv(s)
    ensures Inv(ResolveStep(s, c).0)
  {
    RemoveSize(s.entries, c);
  }

  lemma {:induction false} StepKeepsInv(s: State, op: Op)
    requires Inv(s)
    ensures Inv(Step(s, op).0)
  {
    match op
    case Add(m, interest, owner) => AddKeepsInv(s, m, interest, owner);
    case Resolve(c) => ResolveKeepsInv(s, c);
  }

  /** Tracked and terminal conditions stay disjoint and the cap holds, through every history of adds and
      resolves, refused ones included. */
  lemma {:induction false} RunKeepsInv(terminal: set<string>, cap: Option<int>, ops: seq<Op>)
    requires Start(terminal, cap).Success?
    ensures Inv(Run(Start(terminal, cap).value, ops))
  {
    if ops != [] {
      RunKeepsInv(terminal, cap, ops[..|ops| - 1]);
      StepKeepsInv(Run(Start(terminal, cap).value, ops[..|ops| - 1]), ops[|ops| - 1]);
    }
  }

  lemma {:induction false} StepKeepsTerminal(s: State, op: Op, c: string)
    requires Inv(s) && c in s.terminal
    ensures c in Step(s, op).0.terminal && c !in Step(s, op).0.entries
    ensures op.Add? && op.market.condition == c ==> Step(s, op) == (s, Success(false))
  {
    StepKeepsInv(s, op);
  }

  /** A condition resolved once is never tracked again. */
  lemma {:induction false} ResolvedForever(s: State, c: string, ops: seq<Op>)
    requires Inv(s)
    ensures var after := Run(Step(s, Resolve(c)).0, ops);
            Inv(after) && c in after.terminal && c !in after.entries
  {
    var s' := Step(s, Resolve(c)).0;
    StepKeepsInv(s, Resolve(c));
    if ops != [] {
      ResolvedForever(s, c, ops[..|ops| - 1]);
      StepKeepsInv(Run(s', ops[..|ops| - 1]), ops[|ops| - 1]);
      StepKeepsTerminal(Run(s', ops[..|ops| - 1]), ops[|ops| - 1], c);
    }
  }

  /** A step moves the revision by one exactly when it adds or removes a tracked condition, and only then may
      the subscribed tokens differ. */
  lemma {:induction false} RevisionFollowsTokens(s: State, op: Op)
    requires Inv(s)
    ensures var s' := Step(s, op).0;
            && s.revision <= s'.revision <= s.revision + 1
            && (s'.revision == s.revision <==> s'.entries.Keys == s.entries.Keys)
            && (s'.revision == s.revision ==> Tokens(s') == Tokens(s))
  {
    var s' := Step(s, op).0;
    match op
    case Add(m, interest, owner) =>
      if m.condition in s.entries && s' != s {
        assert s'.entries.Keys == s.entries.Keys;
        SameTokens(s, s', m);
      } else if s' != s {
        assert m.condition in s'.entries.Keys;
      }
    case Resolve(c) =>
      if c in s.entries {
        assert c !in s'.entries.Keys;
      }
  }

  lemma {:induction false} SameTokens(s: State, s': State, m: Market)
    requires m.condition in s.entries && !Conflicts(s, m) && s'.entries.Keys == s.entries.Keys
    requires forall c | c in s.entries && c != m.condition :: s'.entries[c] == s.entries[c]
    requires s'.entries[m.condition].market == m
    ensures Tokens(s') == Tokens(s)
  {
    assert TokenSet(s.entries[m.condition].market) == TokenSet(m);
    forall t ensures t in Tokens(s') <==> t in Tokens(s) {
      assert t in m.tokens <==> t in TokenSet(s.entries[m.condition].market);
    }
  }

  lemma {:induction false} InvAlways(s: State, ops: seq<Op>)
    requires Inv(s)
    ensures Inv(Run(s, ops))
  {
    if ops != [] {
      InvAlways(s, ops[..|ops| - 1]);
      StepKeepsInv(Run(s, ops[..|ops| - 1]), ops[|ops| - 1]);
    }
  }

  lemma {:induction false} RunOneMore(s: State, ops: seq<Op>, op: Op)
    ensures Run(s, ops + [op]) == Step(Run(s, ops), op).0
  {
    assert (ops + [op])[..|ops|] == ops;
  }

  /** Any two moments of a run with the same revision have the same subscribed tokens. */
  lemma {:induction false} EqualRevisionEqualTokens(s: State, ops: seq<Op>, later: seq<Op>)
    requires Inv(s)
    ensures Run(s, ops).revision <= Run(s, ops + later).revision
    ensures Run(s, ops).revision == Run(s, ops + later).revision ==> Tokens(Run(s, ops)) == Tokens(Run(s, ops + later))
    decreases |later|
  {
    if later == [] {
      assert ops + later == ops;
    } else {
      var front, last := later[..|later| - 1], later[|later| - 1];
      EqualRevisionEqualTokens(s, ops, front);
      InvAlways(s, ops + front);
      assert ops + later == (ops + front) + [last];
      RunOneMore(s, ops + front, last);
      RevisionFollowsTokens(Run(s, ops + front), last);
    }
  }

  /** Every tracked condition keeps its subscribed tokens. */
  ghost predicate SubscriptionsKept(s: State, s': State) {
    forall c | c in s.entries ::
      c in s'.entries && TokenSet(s'.entries[c].market) == TokenSet(s.entries[c].market)
  }

  /** The state with this market tracked, unchecked. */
  function Tracking(s: State, m: Market, interest: Interest, owner: Option<string>): State {
    s.(entries := s.entries[m.condition := WithInterest(Entry(m, {}, {}), interest, owner)])
  }

  /** An add is refused only when it has to be: for capacity if and only if tracking the new market would
      break what every history keeps, as ambiguous if and only if it would change a tracked subscription. A
      market that passes both checks made before an add is therefore added without error. */
  lemma {:induction false} AddRefusedExactly(s: State, m: Market, interest: Interest, owner: Option<string>)
    requires Inv(s)
    ensures var outcome := AddStep(s, m, interest, owner).1;
            var tracking := Tracking(s, m, interest, owner);
            && (outcome == Failure(LimitExceeded) <==>
                m.condition !in s.entries && m.condition !in s.terminal && !Inv(tracking))
            && (outcome == Failure(AmbiguousMarketMetadata) <==> !SubscriptionsKept(s, tracking))
            && (outcome.Failure? <==> AtCapacity(s, m) || Conflicts(s, m))
  {
    var tracking := Tracking(s, m, interest, owner);
    InsertSize(s.entries, m.condition, WithInterest(Entry(m, {}, {}), interest, owner));
    if m.condition in s.entries {
      assert tracking.entries[m.condition].market == m;
    }
  }

  /** The returned flag says whether the tracked entries changed; an error changes nothing at all. */
  lemma {:induction false} FlagReportsChange(s: State, op: Op)
    requires Inv(s)
    ensures var (s', outcome) := Step(s, op);
            && (outcome.Success? ==> (outcome.value <==> s'.entries != s.entries))
            && (outcome.Failure? ==> s' == s)
  {
    var s' := Step(s, op).0;
    match op
    case Add(m, interest, owner) =>
      if m.condition in s.entries && s'.entries == s.entries {
        assert s'.entries[m.condition] == s.entries[m.condition];
      }
    case Resolve(c) =>
      if c in s.entries {
        assert c !in s'.entries;
      }
  }

  // ---------- what a history of calls leaves ----------

  /** The adds for a condition that raised no error, in order. */
  function TakenAdds(s: State, ops: seq<Op>, c: string): (adds: seq<Op>)
    ensures forall op | op in adds :: op.Add?
  {
    if ops == [] then []
    else
      var front, op := ops[..|ops| - 1], ops[|ops| - 1];
      TakenAdds(s, front, c) +
      if op.Add? && op.market.condition == c && Step(Run(s, front), op).1.Success? then [op] else []
  }

  /** The entry holds the interests and owners of all these adds, and the market of the last. */
  ghost predicate Gathers(adds: seq<Op>, e: Entry)
    requires forall op | op in adds :: op.Add?
  {
    && adds != [] && e.market == adds[|adds| - 1].market
    && (forall x :: x in e.interests <==> exists op | op in adds :: op.interest == x)
    && forall o :: o in e.owners <==> exists op | op in adds :: op.owner == Some(o)
  }

  /** The entry these adds leave: none if there are none, or the condition is resolved. */
  ghost predicate LeftBy(adds: seq<Op>, c: string, after: State)
    requires forall op | op in adds :: op.Add?
  {
    && (c in after.entries <==> c !in after.terminal && adds != [])
    && (c in after.entries ==> Gathers(adds, after.entries[c]))
  }

  lemma {:induction false} GathersOneMore(adds: seq<Op>, add: Op, before: Entry, after: Entry)
    requires (forall op | op in adds :: op.Add?) && add.Add?
    requires adds != [] ==> Gathers(adds, before)
    requires adds == [] ==> before.interests == {} && before.owners == {}
    requires after == WithInterest(before.(market := add.market), add.interest, add.owner)
    ensures Gathers(adds + [add], after)
  {
    var all := adds + [add];
    assert forall op :: op in all <==> op in adds || op == add;
  }

  lemma {:induction false} LeftByStep(s: State, op: Op, adds: seq<Op>, c: string)
    requires (forall op | op in adds :: op.Add?) && Inv(s) && LeftBy(adds, c, s)
    ensures LeftBy(adds + if op.Add? && op.market.condition == c && Step(s, op).1.Success? then [op] else [], c, Step(s, op).0)
  {
    if op.Add? && op.market.condition == c && Step(s, op).1.Success? {
      if c !in s.terminal {
        var before := if c in s.entries then s.entries[c] else Entry(op.market, {}, {});
        GathersOneMore(adds, op, before, Step(s, op).0.entries[c]);
      }
    } else {
      EntryStays(s, op, c);
      assert adds + [] == adds;
    }
  }

  /** A call that takes no add for a condition can only resolve it. */
  lemma {:induction false} EntryStays(s: State, op: Op, c: string)
    requires Inv(s) && !(op.Add? && op.market.condition == c && Step(s, op).1.Success?)
    ensures var after := Step(s, op).0;
            && (c in after.entries <==> c in s.entries && op != Resolve(c))
            && (c in after.entries ==> after.entries[c] == s.entries[c])
            && (c in after.terminal <==> c in s.terminal || op == Resolve(c))
  {
  }

  lemma {:induction false} TerminalIsHistory(s: State, ops: seq<Op>, c: string)
    ensures c in Run(s, ops).terminal <==> c in s.terminal || Resolve(c) in ops
  {
    if ops != [] {
      var front, op := ops[..|ops| - 1], ops[|ops| - 1];
      assert ops == front + [op];
      TerminalIsHistory(s, front, c);
    }
  }

  /** From an empty registry: the resolved conditions are those it started with and those resolved since; a
      condition is tracked if and only if it is not resolved and an add for it was taken, and its entry then
      gathers the adds taken. */
  lemma {:induction false} EntriesAreHistory(s: State, ops: seq<Op>, c: string)
    requires Inv(s) && s.entries == map[]
    ensures c in Run(s, ops).terminal <==> c in s.terminal || Resolve(c) in ops
    ensures LeftBy(TakenAdds(s, ops, c), c, Run(s, ops))
  {
    TerminalIsHistory(s, ops, c);
    if ops != [] {
      var front := ops[..|ops| - 1];
      EntriesAreHistory(s, front, c);
      InvAlways(s, front);
      LeftByStep(Run(s, front), ops[|ops| - 1], TakenAdds(s, front, c), c);
    }
  }
}
