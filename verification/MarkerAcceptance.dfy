/** Which trades are accepted over a run, read off its operations and the number of markers waiting;
    and that what is accepted gets delivered: by a tick with room, and by every attended drain. */
module MarkerAcceptance {
  import opened Common
  import opened MarkerQueue
  import opened MarkerDelivery

  // ---------- one trade ----------

  /** At most 20 tokens are charted, and at most 256 markers of one wait for a sample. */
  predicate Accepts(charted: bool, count: nat, waiting: nat) {
    (charted || count < 20) && waiting < 256
  }

  lemma {:induction false} TradeAccepted(c: Charts, t: Token, side: Side)
    ensures var (c', accepted) := RecordTrade(c, t, side);
            && (accepted <==> Accepts(t in c.tokens, |c.tokens|, |PendingSides(c, t)|))
            && PendingSides(c', t) == PendingSides(c, t) + (if accepted then [side] else [])
            && (forall u | u != t :: SamePending(c, c', u))
            && c'.tokens == c.tokens + (if t in c.tokens || |c.tokens| >= 20 then [] else [t])
  {
  }

  // ---------- what the operations say ----------

  /** The observer has not been closed. */
  predicate Open(ops: seq<Op>) {
    Close !in ops
  }

  /** The tokens charted after these operations. */
  function Charted(ops: seq<Op>): set<Token> {
    if ops == [] then {}
    else
      var front := ops[..|ops| - 1];
      if Open(front) then ChartedBy(Charted(front), ops[|ops| - 1]) else Charted(front)
  }

  function ChartedBy(charted: set<Token>, op: Op): set<Token> {
    match op
    case Show(t) => Including(charted, t)
    case Trade(t, _) => Including(charted, t)
    case Settle(ts) => charted - set t | t in ts
    case _ => charted
  }

  function Including(charted: set<Token>, t: Token): set<Token> {
    if |charted| < 20 then charted + {t} else charted
  }

  /** How often settlements have removed a token. */
  function Removals(ops: seq<Op>, t: Token): nat {
    if ops == [] then 0
    else
      var front, op := ops[..|ops| - 1], ops[|ops| - 1];
      Removals(front, t) + if Open(front) && op.Settle? then multiset(op.tokens)[t] else 0
  }

  /** The trades emitted before the observer was closed that found their token charted, or room to chart
      it, and room among its waiting markers. */
  function Acceptable(capacity: nat, ops: seq<Op>): seq<Mark> {
    if ops == [] then []
    else
      var front, op := ops[..|ops| - 1], ops[|ops| - 1];
      Acceptable(capacity, front) +
      if op.Trade? && Open(front)
         && Accepts(op.token in Charted(front), |Charted(front)|, |PendingSides(Run(capacity, front).0.charts, op.token)|)
      then [Mark(op.token, Removals(front, op.token), op.side)]
      else []
  }

  // ---------- the run agrees ----------

  ghost predicate SameTokens(tokens: seq<Token>, charted: set<Token>) {
    DistinctTokens(tokens) && |tokens| == |charted| && forall t :: t in tokens <==> t in charted
  }

  ghost predicate Tallies(ops: seq<Op>, o: Observer, life: map<Token, nat>) {
    && (o.stage.Running? <==> Open(ops))
    && SameTokens(o.charts.tokens, Charted(ops))
    && forall t :: LifeOf(life, t) == Removals(ops, t)
  }

  lemma {:induction false} SetSize(tokens: seq<Token>, charted: set<Token>)
    requires DistinctTokens(tokens) && forall t :: t in tokens <==> t in charted
    ensures SameTokens(tokens, charted)
  {
    if tokens == [] {
      assert charted == {};
    } else {
      var front, last := tokens[..|tokens| - 1], tokens[|tokens| - 1];
      assert tokens == front + [last] && last !in front;
      SetSize(front, charted - {last});
    }
  }

  lemma {:induction false} TokenIncluded(tokens: seq<Token>, charted: set<Token>, t: Token)
    requires SameTokens(tokens, charted)
    ensures SameTokens(if t in tokens || |tokens| >= 20 then tokens else tokens + [t], Including(charted, t))
  {
    if t in tokens {
      assert charted + {t} == charted;
    } else if |tokens| < 20 {
      SetSize(tokens + [t], charted + {t});
    }
  }

  lemma {:induction false} TokensRemoved(c: Charts, ts: seq<Token>)
    requires DistinctTokens(c.tokens)
    ensures var c' := RemoveTokens(c, ts);
            && DistinctTokens(c'.tokens)
            && forall t :: t in c'.tokens <==> t in c.tokens && t !in ts
  {
    if ts != [] {
      var front, last := ts[..|ts| - 1], ts[|ts| - 1];
      TokensRemoved(c, front);
      RemoveMembers(RemoveTokens(c, front).tokens, last);
      assert ts == front + [last];
    }
  }

  lemma {:induction false} AckTokens(c: Charts, sources: map<Token, nat>, sample: Sample)
    ensures Acknowledge(c, sources, sample).tokens == c.tokens
  {
    if sample != [] {
      AckTokens(c, sources, sample[..|sample| - 1]);
    }
  }

  lemma {:induction false} FreshTokens(o: Observer)
    ensures Fresh(o).charts.tokens == o.charts.tokens && Fresh(o).stage == o.stage
  {
    AckTokens(o.charts, Ids(o.charts), TakeSample(o.charts));
  }

  lemma {:induction false} TickTokens(o: Observer)
    ensures SampleDurable(o).charts.tokens == o.charts.tokens && SampleDurable(o).stage == o.stage
  {
    if o.held.Some? {
      AckTokens(o.charts, o.sources, o.held.value);
      FreshTokens(o.Put(SampleEntry(o.held.value)).Acked(o.held.value).(held := None));
    } else {
      FreshTokens(o);
    }
  }

  lemma {:induction false} DrainTokens(o: Observer)
    ensures DrainStep(o).charts.tokens == o.charts.tokens
    ensures DrainStep(o).stage.Running? <==> o.stage.Running?
  {
    if o.stage.PutHeld? && o.held.Some? {
      AckTokens(o.charts, o.sources, o.held.value);
    } else if o.stage.PutFinal? {
      AckTokens(o.charts, o.sources, o.stage.sample);
    }
  }

  /** Only an open observer's tokens change, and a step closes it exactly when it is a close. */
  lemma {:induction false} TokensStep(o: Observer, op: Op)
    requires (op.Show? || op.Trade? || op.Settle?) ==> !o.stage.Running?
    requires Bounded(o)
    ensures Step(o, op).charts.tokens == o.charts.tokens
    ensures Step(o, op).stage.Running? <==> o.stage.Running? && !op.Close?
  {
    match op
    case Tick => TickTokens(o);
    case Drain => DrainTokens(o);
    case _ =>
  }

  lemma {:induction false} ChartedStep(o: Observer, charted: set<Token>, op: Op)
    requires SameTokens(o.charts.tokens, charted) && Bounded(o)
    ensures SameTokens(Step(o, op).charts.tokens, if o.stage.Running? then ChartedBy(charted, op) else charted)
    ensures Step(o, op).stage.Running? <==> o.stage.Running? && !op.Close?
  {
    if o.stage.Running? {
      match op
      case Show(t) => TokenIncluded(o.charts.tokens, charted, t);
      case Trade(t, side) =>
        TradeAccepted(o.charts, t, side);
        TokenIncluded(o.charts.tokens, charted, t);
        assert o.charts.tokens + [] == o.charts.tokens;
      case Settle(ts) =>
        TokensRemoved(o.charts, ts);
        SetSize(RemoveTokens(o.charts, ts).tokens, charted - set t | t in ts);
      case _ => TokensStep(o, op);
    } else {
      TokensStep(o, op);
    }
  }

  lemma {:induction false} LivesEnded(life: map<Token, nat>, ts: seq<Token>, t: Token)
    ensures LifeOf(EndLives(life, ts), t) == LifeOf(life, t) + multiset(ts)[t]
  {
    if ts != [] {
      LivesEnded(life, ts[..|ts| - 1], t);
      assert ts == ts[..|ts| - 1] + [ts[|ts| - 1]];
    }
  }

  lemma {:induction false} LifeStep(o: Observer, h: History, op: Op, t: Token)
    ensures LifeOf(Record(o, h, op).life, t) ==
            LifeOf(h.life, t) + if o.stage.Running? && op.Settle? then multiset(op.tokens)[t] else 0
  {
    if op.Settle? {
      LivesEnded(h.life, op.tokens, t);
    }
  }

  lemma {:induction false} RunTallies(capacity: nat, ops: seq<Op>)
    ensures Tallies(ops, Run(capacity, ops).0, Run(capacity, ops).1.life)
  {
    if ops == [] {
    } else {
      var front, op := ops[..|ops| - 1], ops[|ops| - 1];
      var (o, h) := Run(capacity, front);
      assert ops == front + [op];
      RunTallies(capacity, front);
      RunBounded(capacity, front);
      ChartedStep(o, Charted(front), op);
      forall t ensures LifeOf(Record(o, h, op).life, t) == Removals(ops, t) {
        LifeStep(o, h, op, t);
      }
    }
  }

  lemma {:induction false} AcceptedStep(o: Observer, h: History, op: Op)
    ensures Record(o, h, op).accepted == h.accepted +
            if op.Trade? && o.stage.Running?
               && Accepts(op.token in o.charts.tokens, |o.charts.tokens|, |PendingSides(o.charts, op.token)|)
            then [Mark(op.token, LifeOf(h.life, op.token), op.side)]
            else []
  {
    if op.Trade? {
      TradeAccepted(o.charts, op.token, op.side);
    }
  }

  /** The accepted trades of any run are exactly those emitted before the close that met the two bounds,
      in order, each counted to its token's lifetime. */
  lemma {:induction false} AcceptedExactly(capacity: nat, ops: seq<Op>)
    ensures Run(capacity, ops).1.accepted == Acceptable(capacity, ops)
    ensures forall t :: t in Run(capacity, ops).0.charts.tokens <==> t in Charted(ops)
    ensures forall t :: LifeOf(Run(capacity, ops).1.life, t) == Removals(ops, t)
  {
    RunTallies(capacity, ops);
    if ops != [] {
      var front, op := ops[..|ops| - 1], ops[|ops| - 1];
      var (o, h) := Run(capacity, front);
      AcceptedExactly(capacity, front);
      RunTallies(capacity, front);
      AcceptedStep(o, h, op);
    }
  }

  // ---------- ticks deliver ----------

  predicate Ticking(o: Observer) {
    o.stage.Running? || o.stage.Closing?
  }

  /** Room for so many more entries. */
  predicate Room(o: Observer, n: nat) {
    o.capacity == 0 || |o.queue| + n <= o.capacity
  }

  lemma {:induction false} FreshEmpties(o: Observer)
    requires WellFormed(o.charts) && Room(o, 1)
    ensures Fresh(o).charts.pending == map[] && Fresh(o).held == o.held
    ensures Fresh(o).queue == o.queue + [SampleEntry(TakeSample(o.charts))]
  {
    DrawsEverything(o.charts);
    FinalEmpties(o.charts, Ids(o.charts), TakeSample(o.charts));
  }

  /** A tick with room for the held sample and a fresh one leaves nothing waiting: every accepted trade of
      the tokens' present lifetimes has then been admitted to the queue. */
  lemma {:induction false} TickDelivers(capacity: nat, ops: seq<Op>)
    requires var o := Run(capacity, ops).0; Ticking(o) && Room(o, if o.held.Some? then 2 else 1)
    ensures var (o, h) := Run(capacity, ops + [Tick]);
            && o.held.None? && o.charts.pending == map[]
            && forall t :: Of(h.admitted, t, LifeOf(h.life, t)) == Of(h.accepted, t, LifeOf(h.life, t))
  {
    var (o, h) := Run(capacity, ops);
    var later := ops + [Tick];
    assert later[..|later| - 1] == ops;
    RunKeeps(capacity, ops);
    if o.held.Some? {
      AckKeepsForm(o.charts, o.sources, o.held.value);
      FreshEmpties(o.Put(SampleEntry(o.held.value)).Acked(o.held.value).(held := None));
    } else {
      FreshEmpties(o);
    }
    var (o', h') := Run(capacity, later);
    forall t ensures Of(h'.admitted, t, LifeOf(h'.life, t)) == Of(h'.accepted, t, LifeOf(h'.life, t)) {
      DeliveredThenPending(capacity, later, t, LifeOf(h'.life, t));
    }
  }

  /** A tick finding the queue full loses nothing: it keeps the sample it holds, or holds everything waiting. */
  lemma {:induction false} FullTickHolds(capacity: nat, ops: seq<Op>, t: Token)
    requires var o := Run(capacity, ops).0; Ticking(o) && !Room(o, 1)
    ensures var o := Run(capacity, ops).0;
            var o' := Run(capacity, ops + [Tick]).0;
            && o'.queue == o.queue && o'.charts == o.charts
            && (o.held.Some? ==> o' == o)
            && (o.held.None? ==> o'.held.Some? && MarkersFor(o'.held.value, t) == PendingSides(o.charts, t))
  {
    assert (ops + [Tick])[..|ops|] == ops;
    RunKeeps(capacity, ops);
    DrawsEverything(Run(capacity, ops).0.charts);
  }

  // ---------- an attended drain finishes ----------

  /** The writer and then the drain get a turn, n times. */
  function Rounds(n: nat): seq<Op> {
    if n == 0 then [] else Rounds(n - 1) + [Take, Drain]
  }

  /** A queue within its capacity, its end marker, if it has one, at its end. */
  ghost predicate Queued(queue: seq<Entry>, capacity: nat, ended: bool) {
    && (capacity == 0 || |queue| <= capacity)
    && (ended ==> queue != [] && queue[|queue| - 1].EndEntry?)
    && forall i | 0 <= i < |queue| && queue[i].EndEntry? :: i == |queue| - 1 && ended
  }

  ghost predicate Bounded(o: Observer) {
    (o.stage.PutHeld? ==> o.held.Some?) && Queued(o.queue, o.capacity, o.stage.Joining?)
  }

  lemma {:induction false} FreshBounded(o: Observer)
    requires Bounded(o) && !o.stage.Joining?
    ensures Bounded(Fresh(o)) && Fresh(o).stage == o.stage
  {
  }

  lemma {:induction false} TickBounded(o: Observer)
    requires Bounded(o) && Ticking(o)
    ensures Bounded(SampleDurable(o)) && SampleDurable(o).stage == o.stage
  {
    if o.held.None? {
      FreshBounded(o);
    } else if !o.Full() {
      FreshBounded(o.Put(SampleEntry(o.held.value)).Acked(o.held.value).(held := None));
    }
  }

  lemma {:induction false} StepBounded(o: Observer, op: Op)
    requires Bounded(o)
    ensures Bounded(Step(o, op))
  {
    match op
    case Tick => if Ticking(o) { TickBounded(o); }
    case Drain => DrainBounded(o);
    case _ =>
  }

  lemma {:induction false} DrainBounded(o: Observer)
    requires Bounded(o)
    ensures Bounded(DrainStep(o)) && |DrainStep(o).queue| <= |o.queue| + 1
  {
  }

  lemma {:induction false} RunBounded(capacity: nat, ops: seq<Op>)
    ensures Bounded(Run(capacity, ops).0)
  {
    if ops != [] {
      var front, op := ops[..|ops| - 1], ops[|ops| - 1];
      RunBounded(capacity, front);
      StepBounded(Run(capacity, front).0, op);
    }
  }

  /** How many rounds the drain still needs. */
  function Rank(o: Observer): nat {
    match o.stage
    case Closing => |o.queue| + 10
    case PutHeld => |o.queue| + 8
    case PutFinal(_) => |o.queue| + 6
    case PutHealth => |o.queue| + 4
    case PutEnd => |o.queue| + 2
    case Joining => |o.queue|
    case _ => 0
  }

  predicate Draining(o: Observer) {
    !o.stage.Running? && !o.stage.Stopped?
  }

  lemma {:induction false} TakeHelps(o: Observer)
    requires Bounded(o) && Draining(o)
    ensures var o' := Step(o, Take);
            if o.stage.Joining?
            then o'.stage == Stopped(true) || (o'.stage.Joining? && Rank(o') < Rank(o))
            else o'.stage == o.stage && Rank(o') <= Rank(o) && Room(o', 1)
  {
  }

  lemma {:induction false} DrainHelps(o: Observer)
    requires Bounded(o) && Draining(o) && !o.stage.Joining? && Room(o, 1)
    ensures Draining(DrainStep(o)) && Rank(DrainStep(o)) < Rank(o)
  {
  }

  function Turn(o: Observer): Observer {
    Step(Step(o, Take), Drain)
  }

  function Turns(o: Observer, n: nat): Observer {
    if n == 0 then o else Turn(Turns(o, n - 1))
  }

  lemma {:induction false} RunOneMore(capacity: nat, ops: seq<Op>, op: Op)
    ensures Run(capacity, ops + [op]).0 == Step(Run(capacity, ops).0, op)
  {
    assert (ops + [op])[..|ops|] == ops;
  }

  lemma {:induction false} RunTurn(capacity: nat, ops: seq<Op>, rounds: seq<Op>)
    ensures Run(capacity, ops + (rounds + [Take, Drain])).0 == Turn(Run(capacity, ops + rounds).0)
  {
    RunOneMore(capacity, ops + rounds, Take);
    RunOneMore(capacity, ops + rounds + [Take], Drain);
    assert ops + (rounds + [Take, Drain]) == ops + rounds + [Take] + [Drain];
  }

  lemma {:induction false} RunTurns(capacity: nat, ops: seq<Op>, n: nat)
    ensures Run(capacity, ops + Rounds(n)).0 == Turns(Run(capacity, ops).0, n)
  {
    if n == 0 {
      assert ops + Rounds(0) == ops;
    } else {
      RunTurns(capacity, ops, n - 1);
      RunTurn(capacity, ops, Rounds(n - 1));
    }
  }

  ghost predicate Attended(o: Observer) {
    Bounded(o) && !o.stage.Running? && o.stage != Stopped(false)
  }

  lemma {:induction false} TurnHelps(o: Observer)
    requires Attended(o)
    ensures Attended(Turn(o)) && (Turn(o).stage.Stopped? || Rank(Turn(o)) < Rank(o))
  {
    StepBounded(o, Take);
    StepBounded(Step(o, Take), Drain);
    if !o.stage.Stopped? {
      TakeHelps(o);
      if !o.stage.Joining? {
        DrainHelps(Step(o, Take));
      }
    }
  }

  lemma {:induction false} TurnsHelp(o: Observer, n: nat)
    requires Attended(o)
    ensures Attended(Turns(o, n)) && (Turns(o, n).stage.Stopped? || Rank(Turns(o, n)) + n <= Rank(o))
  {
    if n > 0 {
      TurnsHelp(o, n - 1);
      TurnHelps(Turns(o, n - 1));
      if Turns(o, n - 1).stage.Stopped? {
        StoppedStays(Turns(o, n - 1));
      }
    }
  }

  lemma {:induction false} StoppedStays(o: Observer)
    requires o.stage.Stopped?
    ensures Turn(o) == o
  {
  }

  /** A closed observer that is not abandoned and whose writer keeps taking entries drains to its end,
      within a number of rounds fixed by its queue; it has then delivered every accepted trade. */
  lemma {:induction false} DrainFinishes(capacity: nat, ops: seq<Op>)
    requires var o := Run(capacity, ops).0; !o.stage.Running? && o.stage != Stopped(false)
    ensures var (o, h) := Run(capacity, ops + Rounds(|Run(capacity, ops).0.queue| + 11));
            && o.stage == Stopped(true)
            && forall t :: Of(h.admitted, t, LifeOf(h.life, t)) == Of(h.accepted, t, LifeOf(h.life, t))
  {
    var n := |Run(capacity, ops).0.queue| + 11;
    var later := ops + Rounds(n);
    RunBounded(capacity, ops);
    RunTurns(capacity, ops, n);
    TurnsHelp(Run(capacity, ops).0, n);
    var (o, h) := Run(capacity, later);
    forall t ensures Of(h.admitted, t, LifeOf(h.life, t)) == Of(h.accepted, t, LifeOf(h.life, t)) {
      CompleteDrainDeliversAll(capacity, later, t);
    }
  }
}
