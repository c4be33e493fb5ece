/** Exactly-once delivery of chart markers within each token lifetime. */
module MarkerDelivery {
  import opened Common
  import opened MarkerQueue

  // ---------- markers of one token lifetime ----------

  function Of(marks: seq<Mark>, t: Token, l: nat): seq<Side> {
    if marks == [] then []
    else
      var m := marks[|marks| - 1];
      Of(marks[..|marks| - 1], t, l) + if m.token == t && m.life == l then [m.side] else []
  }

  function MarkersFor(sample: Sample, t: Token): seq<Side> {
    if sample == [] then []
    else if sample[|sample| - 1].token == t then sample[|sample| - 1].markers
    else MarkersFor(sample[..|sample| - 1], t)
  }

  lemma {:induction false} OfConcat(a: seq<Mark>, b: seq<Mark>, t: Token, l: nat)
    ensures Of(a + b, t, l) == Of(a, t, l) + Of(b, t, l)
  {
    if b == [] {
      assert a + b == a;
    } else {
      assert (a + b)[..|a + b| - 1] == a + b[..|b| - 1];
      OfConcat(a, b[..|b| - 1], t, l);
    }
  }

  lemma {:induction false} OfMarksOf(p: Point, life: nat, n: nat, t: Token, l: nat)
    requires n <= |p.markers|
    ensures Of(MarksOf(p, life)[..n], t, l) == if p.token == t && life == l then p.markers[..n] else []
  {
    if n > 0 {
      assert MarksOf(p, life)[..n][..n - 1] == MarksOf(p, life)[..n - 1];
      OfMarksOf(p, life, n - 1, t, l);
      assert p.markers[..n] == p.markers[..n - 1] + [p.markers[n - 1]];
    }
  }

  predicate DistinctPoints(sample: Sample) {
    forall i, j | 0 <= i < j < |sample| :: sample[i].token != sample[j].token
  }

  lemma {:induction false} OfMarks(sample: Sample, life: map<Token, nat>, t: Token, l: nat)
    requires DistinctPoints(sample)
    ensures Of(Marks(sample, life), t, l) == if LifeOf(life, t) == l then MarkersFor(sample, t) else []
  {
    if sample != [] {
      var init, p := sample[..|sample| - 1], sample[|sample| - 1];
      OfMarks(init, life, t, l);
      OfMarksLast(sample, life, t, l);
      if p.token == t {
        NoMarkersFor(init, t);
      }
    }
  }

  lemma {:induction false} OfMarksLast(sample: Sample, life: map<Token, nat>, t: Token, l: nat)
    requires sample != []
    ensures var init, p := sample[..|sample| - 1], sample[|sample| - 1];
            Of(Marks(sample, life), t, l) ==
            Of(Marks(init, life), t, l) + if p.token == t && LifeOf(life, t) == l then p.markers else []
  {
    var init, p := sample[..|sample| - 1], sample[|sample| - 1];
    OfConcat(Marks(init, life), MarksOf(p, LifeOf(life, p.token)), t, l);
    OfPoint(p, LifeOf(life, p.token), t, l);
  }

  lemma {:induction false} OfPoint(p: Point, life: nat, t: Token, l: nat)
    ensures Of(MarksOf(p, life), t, l) == if p.token == t && life == l then p.markers else []
  {
    OfMarksOf(p, life, |p.markers|, t, l);
    assert MarksOf(p, life)[..|p.markers|] == MarksOf(p, life) && p.markers[..|p.markers|] == p.markers;
  }

  lemma {:induction false} NoMarkersFor(sample: Sample, t: Token)
    requires forall i | 0 <= i < |sample| :: sample[i].token != t
    ensures MarkersFor(sample, t) == []
  {
    if sample != [] {
      NoMarkersFor(sample[..|sample| - 1], t);
    }
  }

  // ---------- what acknowledging a sample does to one token ----------

  predicate WellFormed(c: Charts) {
    && (forall i, j | 0 <= i < j < |c.tokens| :: c.tokens[i] != c.tokens[j])
    && (forall t | t in c.pending :: t in c.tokens && c.pending[t].sides != [] && c.pending[t].id < c.nextId)
    && |c.tokens| <= MAX_CHART_TOKENS
    && forall t | t in c.pending :: |c.pending[t].sides| <= MAX_PENDING_MARKERS_PER_TOKEN
  }

  function AfterAck(c: Charts, sources: map<Token, nat>, sample: Sample, t: Token): seq<Side> {
    var n := |MarkersFor(sample, t)|;
    var sides := PendingSides(c, t);
    if SameList(sources, c, t) then (if n <= |sides| then sides[n..] else []) else sides
  }

  lemma {:induction false} AckKeepsForm(c: Charts, sources: map<Token, nat>, sample: Sample)
    requires WellFormed(c)
    ensures var c' := Acknowledge(c, sources, sample);
            WellFormed(c') && c'.tokens == c.tokens && c'.nextId == c.nextId
  {
    if sample != [] {
      AckKeepsForm(c, sources, sample[..|sample| - 1]);
    }
  }

  predicate SamePending(c: Charts, c': Charts, t: Token) {
    (t in c'.pending <==> t in c.pending) && (t in c.pending ==> c'.pending[t] == c.pending[t])
  }

  predicate Samples(sample: Sample, t: Token) {
    exists i | 0 <= i < |sample| :: sample[i].token == t
  }

  lemma {:induction false} AckAbsent(c: Charts, sources: map<Token, nat>, sample: Sample, t: Token)
    requires !Samples(sample, t)
    ensures SamePending(c, Acknowledge(c, sources, sample), t) && MarkersFor(sample, t) == []
  {
    if sample != [] {
      var init := sample[..|sample| - 1];
      AckAbsent(c, sources, init, t);
    }
  }

  /** Each token sees only its own point: its list loses the sampled prefix, if it is still the sampled list. */
  lemma {:induction false} AcknowledgeEffect(c: Charts, sources: map<Token, nat>, sample: Sample, t: Token)
    requires WellFormed(c) && DistinctPoints(sample)
    ensures var c' := Acknowledge(c, sources, sample);
            && PendingSides(c', t) == AfterAck(c, sources, sample, t)
            && (t in c'.pending ==> t in c.pending && c'.pending[t].id == c.pending[t].id)
  {
    if sample != [] {
      var init := sample[..|sample| - 1];
      var p := sample[|sample| - 1];
      if p.token == t {
        AckAbsent(c, sources, init, t);
      } else {
        AcknowledgeEffect(c, sources, init, t);
        OtherPoint(Acknowledge(c, sources, init), sources, p, t);
      }
    }
  }

  lemma {:induction false} OtherPoint(c: Charts, sources: map<Token, nat>, p: Point, t: Token)
    requires p.token != t
    ensures SamePending(c, if SameList(sources, c, p.token) then AckMarkers(c, p.token, |p.markers|) else c, t)
  {
  }

  // ---------- the invariant ----------

  predicate Remembered(c: Charts, sources: map<Token, nat>, t: Token) {
    t in sources && t in c.pending && sources[t] == c.pending[t].id
  }

  /** One token's ledger. Its current lifetime is split exactly between admitted and pending; an ended
      lifetime has admitted a prefix, which the outstanding sample may only extend in order. */
  ghost predicate Balanced(accepted: seq<Mark>, admitted: seq<Mark>, t: Token, now: nat, pending: seq<Side>,
                           sampled: nat, out: Option<seq<Side>>, same: bool)
  {
    && Of(admitted, t, now) + pending == Of(accepted, t, now)
    && (forall l: nat | now < l :: Of(accepted, t, l) == [] && Of(admitted, t, l) == [])
    && (forall l: nat | l < now ::
          Of(admitted, t, l) + (if out.Some? && sampled == l then out.value else []) <= Of(accepted, t, l))
    && (out.Some? ==>
          && sampled <= now
          && (sampled == now ==> out.value <= pending && (out.value != [] ==> same))
          && (sampled < now ==> !same))
  }

  function OutFor(out: Option<Sample>, t: Token): Option<seq<Side>> {
    if out.Some? then Some(MarkersFor(out.value, t)) else None
  }

  ghost predicate TokenInv(c: Charts, sources: map<Token, nat>, out: Option<Sample>, h: History, t: Token) {
    Balanced(h.accepted, h.admitted, t, LifeOf(h.life, t), PendingSides(c, t),
             LifeOf(h.heldLife, t), OutFor(out, t), Remembered(c, sources, t))
  }

  ghost predicate Conserved(c: Charts, sources: map<Token, nat>, out: Option<Sample>, h: History) {
    && WellFormed(c)
    && (forall t | t in sources :: sources[t] < c.nextId)
    && (out.Some? ==> DistinctPoints(out.value))
    && forall t :: TokenInv(c, sources, out, h, t)
  }

  /** The sample holds all that is pending, drawn from the lists as they are. */
  ghost predicate Everything(c: Charts, sources: map<Token, nat>, sample: Sample) {
    sources == Ids(c) && forall t :: MarkersFor(sample, t) == PendingSides(c, t)
  }

  ghost predicate StageShape(o: Observer) {
    && (o.stage.PutHeld? ==> o.held.Some?)
    && (o.stage.PutFinal? ==> o.held.None? && Everything(o.charts, o.sources, o.stage.sample))
    && (o.stage in {PutHealth, PutEnd, Joining, Stopped(true)} ==> o.held.None? && o.charts.pending == map[])
    && forall i | 0 <= i < |o.queue| && o.queue[i].EndEntry? :: i == |o.queue| - 1 && o.stage.Joining?
  }

  ghost predicate Inv(o: Observer, h: History) {
    StageShape(o) && Conserved(o.charts, o.sources, o.Outstanding(), h)
  }

  // ---------- drawing, admitting, trading, removing ----------

  lemma {:induction false} DrawnMarkers(c: Charts, n: nat, t: Token)
    requires n <= |c.tokens| && WellFormed(c)
    ensures MarkersFor(TakeSample(c)[..n], t) == if t in c.tokens[..n] then PendingSides(c, t) else []
  {
    if n > 0 {
      assert TakeSample(c)[..n][..n - 1] == TakeSample(c)[..n - 1];
      assert c.tokens[..n] == c.tokens[..n - 1] + [c.tokens[n - 1]];
      DrawnMarkers(c, n - 1, t);
    }
  }

  lemma {:induction false} DrawsEverything(c: Charts)
    requires WellFormed(c)
    ensures Everything(c, Ids(c), TakeSample(c)) && DistinctPoints(TakeSample(c))
  {
    assert TakeSample(c)[..|c.tokens|] == TakeSample(c) && c.tokens[..|c.tokens|] == c.tokens;
    forall t ensures MarkersFor(TakeSample(c), t) == PendingSides(c, t) {
      DrawnMarkers(c, |c.tokens|, t);
    }
  }

  lemma {:induction false} DrawToken(c: Charts, sources: map<Token, nat>, h: History, t: Token)
    requires WellFormed(c) && TokenInv(c, sources, None, h, t)
    ensures TokenInv(c, Ids(c), Some(TakeSample(c)), h.(heldLife := h.life), t)
  {
    DrawsEverything(c);
  }

  lemma {:induction false} DrawKeeps(c: Charts, sources: map<Token, nat>, h: History)
    requires Conserved(c, sources, None, h)
    ensures Conserved(c, Ids(c), Some(TakeSample(c)), h.(heldLife := h.life))
  {
    DrawsEverything(c);
    forall t ensures TokenInv(c, Ids(c), Some(TakeSample(c)), h.(heldLife := h.life), t) {
      DrawToken(c, sources, h, t);
    }
  }

  lemma {:induction false} AdmittedMarks(h: History, sample: Sample, t: Token, l: nat)
    requires DistinctPoints(sample)
    ensures Of(h.admitted + Marks(sample, h.heldLife), t, l) ==
            Of(h.admitted, t, l) + if LifeOf(h.heldLife, t) == l then MarkersFor(sample, t) else []
  {
    OfConcat(h.admitted, Marks(sample, h.heldLife), t, l);
    OfMarks(sample, h.heldLife, t, l);
  }

  lemma {:induction false} BalancedAdmit(accepted: seq<Mark>, admitted: seq<Mark>, admitted': seq<Mark>, t: Token, now: nat,
                      pending: seq<Side>, pending': seq<Side>, sampled: nat, taken: seq<Side>, same: bool, same': bool)
    requires Balanced(accepted, admitted, t, now, pending, sampled, Some(taken), same)
    requires forall l: nat :: Of(admitted', t, l) == Of(admitted, t, l) + if l == sampled then taken else []
    requires pending' == if sampled == now then pending[|taken|..] else pending
    ensures Balanced(accepted, admitted', t, now, pending', sampled, None, same')
  {
    if sampled == now {
      assert pending == taken + pending';
      Reassociated(Of(admitted, t, now), taken, pending');
    }
  }

  lemma {:induction false} Reassociated(a: seq<Side>, b: seq<Side>, c: seq<Side>)
    ensures a + (b + c) == (a + b) + c
  {
  }

  lemma {:induction false} AdmitToken(c: Charts, sources: map<Token, nat>, sample: Sample, h: History, t: Token)
    requires WellFormed(c) && DistinctPoints(sample) && TokenInv(c, sources, Some(sample), h, t)
    ensures TokenInv(Acknowledge(c, sources, sample), map[], None, h.(admitted := h.admitted + Marks(sample, h.heldLife)), t)
  {
    AcknowledgeEffect(c, sources, sample, t);
    forall l: nat
      ensures Of(h.admitted + Marks(sample, h.heldLife), t, l) ==
              Of(h.admitted, t, l) + if l == LifeOf(h.heldLife, t) then MarkersFor(sample, t) else []
    {
      AdmittedMarks(h, sample, t, l);
    }
    BalancedAdmit(h.accepted, h.admitted, h.admitted + Marks(sample, h.heldLife), t, LifeOf(h.life, t),
                  PendingSides(c, t), PendingSides(Acknowledge(c, sources, sample), t),
                  LifeOf(h.heldLife, t), MarkersFor(sample, t), Remembered(c, sources, t), false);
  }

  lemma {:induction false} AdmitKeeps(c: Charts, sources: map<Token, nat>, sample: Sample, h: History)
    requires Conserved(c, sources, Some(sample), h)
    ensures Conserved(Acknowledge(c, sources, sample), map[], None, h.(admitted := h.admitted + Marks(sample, h.heldLife)))
  {
    AckKeepsForm(c, sources, sample);
    forall t
      ensures TokenInv(Acknowledge(c, sources, sample), map[], None, h.(admitted := h.admitted + Marks(sample, h.heldLife)), t)
    {
      AdmitToken(c, sources, sample, h, t);
    }
  }

  lemma {:induction false} OfOneMore(marks: seq<Mark>, m: Mark, t: Token, l: nat)
    ensures Of(marks + [m], t, l) == Of(marks, t, l) + if m.token == t && m.life == l then [m.side] else []
  {
    assert (marks + [m])[..|marks|] == marks;
  }

  lemma {:induction false} BalancedTrade(accepted: seq<Mark>, admitted: seq<Mark>, t: Token, now: nat, pending: seq<Side>,
                      sampled: nat, out: Option<seq<Side>>, same: bool, same': bool, m: Mark)
    requires Balanced(accepted, admitted, t, now, pending, sampled, out, same)
    requires m.token == t && m.life == now
    requires out.Some? ==> (same ==> same') && (sampled < now ==> !same')
    ensures Balanced(accepted + [m], admitted, t, now, pending + [m.side], sampled, out, same')
  {
    forall l: nat
      ensures Of(accepted + [m], t, l) == Of(accepted, t, l) + if l == now then [m.side] else []
    {
      OfOneMore(accepted, m, t, l);
    }
    Reassociated(Of(admitted, t, now), pending, [m.side]);
  }

  lemma {:induction false} TradeToken(c: Charts, sources: map<Token, nat>, out: Option<Sample>, h: History, t: Token, side: Side, u: Token)
    requires TokenInv(c, sources, out, h, u) && RecordTrade(c, t, side).1
    requires forall v | v in sources :: sources[v] < c.nextId
    ensures TokenInv(RecordTrade(c, t, side).0, sources, out,
                     h.(accepted := h.accepted + [Mark(t, LifeOf(h.life, t), side)]), u)
  {
    var c' := RecordTrade(c, t, side).0;
    var m := Mark(t, LifeOf(h.life, t), side);
    if u == t {
      TradeOwn(c, c', sources, out, h, t, m);
    } else {
      TradeLeavesOthers(c, sources, t, side, u);
      BalancedOther(h.accepted, h.admitted, u, LifeOf(h.life, u), PendingSides(c, u), LifeOf(h.heldLife, u), OutFor(out, u),
                    Remembered(c, sources, u), m);
    }
  }

  lemma {:induction false} TradeLeavesOthers(c: Charts, sources: map<Token, nat>, t: Token, side: Side, u: Token)
    requires u != t
    ensures var c' := RecordTrade(c, t, side).0;
            PendingSides(c', u) == PendingSides(c, u) && Remembered(c', sources, u) == Remembered(c, sources, u)
  {
  }

  lemma {:induction false} TradeOwn(c: Charts, c': Charts, sources: map<Token, nat>, out: Option<Sample>, h: History, t: Token, m: Mark)
    requires TokenInv(c, sources, out, h, t) && m.token == t && m.life == LifeOf(h.life, t)
    requires RecordTrade(c, t, m.side) == (c', true)
    requires forall v | v in sources :: sources[v] < c.nextId
    ensures TokenInv(c', sources, out, h.(accepted := h.accepted + [m]), t)
  {
    assert PendingSides(c', t) == PendingSides(c, t) + [m.side];
    BalancedTrade(h.accepted, h.admitted, t, m.life, PendingSides(c, t), LifeOf(h.heldLife, t), OutFor(out, t),
                  Remembered(c, sources, t), Remembered(c', sources, t), m);
  }

  lemma {:induction false} BalancedOther(accepted: seq<Mark>, admitted: seq<Mark>, t: Token, now: nat, pending: seq<Side>,
                      sampled: nat, out: Option<seq<Side>>, same: bool, m: Mark)
    requires Balanced(accepted, admitted, t, now, pending, sampled, out, same) && m.token != t
    ensures Balanced(accepted + [m], admitted, t, now, pending, sampled, out, same)
  {
    forall l: nat ensures Of(accepted + [m], t, l) == Of(accepted, t, l) {
      OfOneMore(accepted, m, t, l);
    }
  }

  lemma {:induction false} TradeKeeps(c: Charts, sources: map<Token, nat>, out: Option<Sample>, h: History, t: Token, side: Side)
    requires Conserved(c, sources, out, h)
    ensures var (c', accepted) := RecordTrade(c, t, side);
            Conserved(c', sources, out,
                      if accepted then h.(accepted := h.accepted + [Mark(t, LifeOf(h.life, t), side)]) else h)
  {
    var (c', accepted) := RecordTrade(c, t, side);
    var h' := if accepted then h.(accepted := h.accepted + [Mark(t, LifeOf(h.life, t), side)]) else h;
    forall u ensures TokenInv(c', sources, out, h', u) {
      assert TokenInv(c, sources, out, h, u);
      if accepted {
        TradeToken(c, sources, out, h, t, side, u);
      }
    }
  }

  ghost predicate DistinctTokens(tokens: seq<Token>) {
    forall i, j | 0 <= i < j < |tokens| :: tokens[i] != tokens[j]
  }

  lemma {:induction false} RemoveMembers(tokens: seq<Token>, t: Token)
    requires DistinctTokens(tokens)
    ensures DistinctTokens(Remove(tokens, t)) && |Remove(tokens, t)| <= |tokens|
    ensures forall u :: u in Remove(tokens, t) <==> u in tokens && u != t
  {
    if tokens != [] {
      var rest := tokens[1..];
      HeadAndRest(tokens, rest);
      if tokens[0] != t {
        RemoveMembers(rest, t);
        HeadIsNew(tokens[0], rest, Remove(rest, t));
      }
    }
  }

  lemma {:induction false} HeadAndRest(tokens: seq<Token>, rest: seq<Token>)
    requires tokens != [] && rest == tokens[1..] && DistinctTokens(tokens)
    ensures DistinctTokens(rest) && tokens[0] !in rest
    ensures forall u :: u in tokens <==> u == tokens[0] || u in rest
  {
    assert tokens == [tokens[0]] + rest;
    forall i, j | 0 <= i < j < |rest| ensures rest[i] != rest[j] {
      assert tokens[i + 1] != tokens[j + 1];
    }
    forall i | 0 <= i < |rest| ensures rest[i] != tokens[0] {
      assert tokens[0] != tokens[i + 1];
    }
  }

  lemma {:induction false} HeadIsNew(head: Token, rest: seq<Token>, kept: seq<Token>)
    requires head !in rest && DistinctTokens(kept) && forall u | u in kept :: u in rest
    ensures DistinctTokens([head] + kept)
    ensures forall u :: u in [head] + kept <==> u == head || u in kept
  {
    forall i | 0 <= i < |kept| ensures kept[i] != head {
      assert kept[i] in rest;
    }
  }

  /** Removing a token ends its lifetime: what was delivered of it is a prefix of what was accepted. */
  lemma {:induction false} EndedLife(accepted: seq<Mark>, admitted: seq<Mark>, t: Token, now: nat, pending: seq<Side>,
                                     sampled: nat, out: Option<seq<Side>>, same: bool)
    requires Balanced(accepted, admitted, t, now, pending, sampled, out, same)
    ensures Balanced(accepted, admitted, t, now + 1, [], sampled, out, false)
  {
    assert Of(accepted, t, now + 1) == [] && Of(admitted, t, now + 1) == [];
    forall l: nat | l < now + 1
      ensures Of(admitted, t, l) + (if out.Some? && sampled == l then out.value else []) <= Of(accepted, t, l)
    {
      if l == now {
        PrefixOfWhole(Of(admitted, t, l), if out.Some? && sampled == l then out.value else [], pending, Of(accepted, t, l));
      }
    }
  }

  lemma {:induction false} PrefixOfWhole(a: seq<Side>, b: seq<Side>, c: seq<Side>, whole: seq<Side>)
    requires a + c == whole && b <= c
    ensures a + b <= whole
  {
    assert whole[..|a + b|] == a + b;
  }

  lemma {:induction false} RemovedToken(c: Charts, sources: map<Token, nat>, out: Option<Sample>, h: History, t: Token, u: Token)
    requires TokenInv(c, sources, out, h, u)
    ensures TokenInv(RemoveToken(c, t), sources, out, h.(life := h.life[t := LifeOf(h.life, t) + 1]), u)
  {
    if u == t {
      EndedLife(h.accepted, h.admitted, t, LifeOf(h.life, t), PendingSides(c, t),
                LifeOf(h.heldLife, t), OutFor(out, t), Remembered(c, sources, t));
    } else {
      var c', life := RemoveToken(c, t), h.life[t := LifeOf(h.life, t) + 1];
      assert LifeOf(life, u) == LifeOf(h.life, u) && PendingSides(c', u) == PendingSides(c, u);
      assert Remembered(c', sources, u) == Remembered(c, sources, u);
    }
  }

  lemma {:induction false} RemoveKeeps(c: Charts, sources: map<Token, nat>, out: Option<Sample>, h: History, t: Token)
    requires Conserved(c, sources, out, h)
    ensures Conserved(RemoveToken(c, t), sources, out, h.(life := h.life[t := LifeOf(h.life, t) + 1]))
  {
    var c' := RemoveToken(c, t);
    var h' := h.(life := h.life[t := LifeOf(h.life, t) + 1]);
    RemoveMembers(c.tokens, t);
    forall u ensures TokenInv(c', sources, out, h', u) {
      RemovedToken(c, sources, out, h, t, u);
    }
  }

  lemma {:induction false} RemoveAllKeeps(c: Charts, sources: map<Token, nat>, out: Option<Sample>, h: History, ts: seq<Token>)
    requires Conserved(c, sources, out, h)
    ensures Conserved(RemoveTokens(c, ts), sources, out, h.(life := EndLives(h.life, ts)))
  {
    if ts != [] {
      var earlier := ts[..|ts| - 1];
      RemoveAllKeeps(c, sources, out, h, earlier);
      RemoveKeeps(RemoveTokens(c, earlier), sources, out, h.(life := EndLives(h.life, earlier)), ts[|ts| - 1]);
    }
  }

  lemma {:induction false} ActivateKeeps(c: Charts, sources: map<Token, nat>, out: Option<Sample>, h: History, t: Token)
    requires Conserved(c, sources, out, h)
    ensures Conserved(Activate(c, t).0, sources, out, h)
  {
    forall u ensures TokenInv(Activate(c, t).0, sources, out, h, u) {
      assert TokenInv(c, sources, out, h, u);
    }
  }

  /** Without an outstanding sample nothing depends on the remembered lists or lifetimes. */
  lemma {:induction false} NothingOut(c: Charts, sources: map<Token, nat>, sources': map<Token, nat>, h: History, h': History)
    requires Conserved(c, sources, None, h) && (forall t | t in sources' :: sources'[t] < c.nextId)
    requires h'.life == h.life && h'.accepted == h.accepted && h'.admitted == h.admitted
    ensures Conserved(c, sources', None, h')
  {
    forall t ensures TokenInv(c, sources', None, h', t) {
      assert TokenInv(c, sources, None, h, t);
    }
  }

  /** Losing the outstanding sample loses nothing that was admitted. */
  lemma {:induction false} ForgetKeeps(c: Charts, sources: map<Token, nat>, out: Option<Sample>, h: History)
    requires Conserved(c, sources, out, h)
    ensures Conserved(c, sources, None, h)
  {
    forall t ensures TokenInv(c, sources, None, h, t) {
      assert TokenInv(c, sources, out, h, t);
    }
  }

  // ---------- every step keeps it ----------

  lemma {:induction false} FreshKeeps(o: Observer, h: History)
    requires StageShape(o) && (o.stage.Running? || o.stage.Closing?) && o.held.None?
    requires Conserved(o.charts, o.sources, None, h)
    ensures Inv(Fresh(o), RecordFresh(o, h))
  {
    DrawKeeps(o.charts, o.sources, h);
    if !o.Full() {
      var sample := TakeSample(o.charts);
      AdmitKeeps(o.charts, Ids(o.charts), sample, h.(heldLife := h.life));
      NothingOut(Acknowledge(o.charts, Ids(o.charts), sample), map[], map[],
                 h.(heldLife := h.life, admitted := h.admitted + Marks(sample, h.life)), RecordFresh(o, h));
    }
  }

  lemma {:induction false} TickKeeps(o: Observer, h: History)
    requires Inv(o, h) && (o.stage.Running? || o.stage.Closing?)
    ensures Inv(SampleDurable(o), RecordTick(o, h))
  {
    match o.held
    case None => FreshKeeps(o, h);
    case Some(sample) =>
      if !o.Full() {
        AdmitKeeps(o.charts, o.sources, sample, h);
        FreshKeeps(o.Put(SampleEntry(sample)).Acked(sample).(held := None),
                   h.(admitted := h.admitted + Marks(sample, h.heldLife)));
      }
  }

  /** Admitting a sample of everything pending leaves nothing pending. */
  lemma {:induction false} FinalEmpties(c: Charts, sources: map<Token, nat>, sample: Sample)
    requires WellFormed(c) && DistinctPoints(sample) && Everything(c, sources, sample)
    ensures Acknowledge(c, sources, sample).pending == map[]
  {
    AckKeepsForm(c, sources, sample);
    var c' := Acknowledge(c, sources, sample);
    forall t ensures t !in c'.pending {
      AcknowledgeEffect(c, sources, sample, t);
    }
  }

  lemma {:induction false} DrainKeeps(o: Observer, h: History)
    requires Inv(o, h)
    ensures Inv(DrainStep(o), RecordDrain(o, h))
  {
    match o.stage
    case Closing =>
      if o.held.None? {
        DrawKeeps(o.charts, o.sources, h);
        DrawsEverything(o.charts);
      }
    case PutHeld => DrainHeldKeeps(o, h);
    case PutFinal(sample) =>
      if !o.Full() {
        AdmitKeeps(o.charts, o.sources, sample, h);
        FinalEmpties(o.charts, o.sources, sample);
      }
    case _ =>
  }

  lemma {:induction false} DrainHeldKeeps(o: Observer, h: History)
    requires Inv(o, h) && o.stage.PutHeld?
    ensures Inv(DrainStep(o), RecordDrain(o, h))
  {
    if !o.Full() {
      var sample := o.held.value;
      var h' := h.(admitted := h.admitted + Marks(sample, h.heldLife));
      AdmitKeeps(o.charts, o.sources, sample, h);
      DrawKeeps(Acknowledge(o.charts, o.sources, sample), map[], h');
      DrawsEverything(Acknowledge(o.charts, o.sources, sample));
    }
  }

  lemma {:induction false} StepKeeps(o: Observer, h: History, op: Op)
    requires Inv(o, h)
    ensures Inv(Step(o, op), Record(o, h, op))
  {
    var out := o.Outstanding();
    match op
    case Show(t) => if o.stage.Running? { ActivateKeeps(o.charts, o.sources, out, h, t); }
    case Trade(t, side) => if o.stage.Running? { TradeKeeps(o.charts, o.sources, out, h, t, side); }
    case Settle(ts) => if o.stage.Running? { RemoveAllKeeps(o.charts, o.sources, out, h, ts); }
    case Tick => if o.stage.Running? || o.stage.Closing? { TickKeeps(o, h); }
    case Drain => DrainKeeps(o, h);
    case GiveUp => ForgetKeeps(o.charts, o.sources, out, h);
    case _ =>
  }

  lemma {:induction false} RunKeeps(capacity: nat, ops: seq<Op>)
    ensures Inv(Run(capacity, ops).0, Run(capacity, ops).1)
  {
    if ops != [] {
      RunKeeps(capacity, ops[..|ops| - 1]);
      var (o, h) := Run(capacity, ops[..|ops| - 1]);
      StepKeeps(o, h, ops[|ops| - 1]);
    }
  }

  // ---------- the guarantees ----------

  /** In a token's current lifetime, the markers of admitted samples followed by those still pending
      are exactly the accepted trades, in order; an ended lifetime admitted a prefix of its trades. */
  lemma {:induction false} DeliveredThenPending(capacity: nat, ops: seq<Op>, t: Token, l: nat)
    ensures var (o, h) := Run(capacity, ops);
            var now := LifeOf(h.life, t);
            && (l == now ==> Of(h.admitted, t, l) + PendingSides(o.charts, t) == Of(h.accepted, t, l))
            && (l < now ==> Of(h.admitted, t, l) <= Of(h.accepted, t, l))
            && (l > now ==> Of(h.admitted, t, l) == [] && Of(h.accepted, t, l) == [])
  {
    RunKeeps(capacity, ops);
    var (o, h) := Run(capacity, ops);
    assert TokenInv(o.charts, o.sources, o.Outstanding(), h, t);
  }

  /** An ended lifetime whose markers are in the outstanding sample will still deliver them, in order. */
  lemma {:induction false} OutstandingExtends(capacity: nat, ops: seq<Op>, t: Token)
    requires Run(capacity, ops).0.Outstanding().Some?
    ensures var (o, h) := Run(capacity, ops);
            var l := LifeOf(h.heldLife, t);
            l <= LifeOf(h.life, t) && Of(h.admitted, t, l) + MarkersFor(o.Outstanding().value, t) <= Of(h.accepted, t, l)
  {
    RunKeeps(capacity, ops);
    var (o, h) := Run(capacity, ops);
    assert TokenInv(o.charts, o.sources, o.Outstanding(), h, t);
  }

  /** A drain that ran to its end has delivered every accepted trade of every live token. */
  lemma {:induction false} CompleteDrainDeliversAll(capacity: nat, ops: seq<Op>, t: Token)
    requires Run(capacity, ops).0.stage == Stopped(true)
    ensures var h := Run(capacity, ops).1;
            Of(h.admitted, t, LifeOf(h.life, t)) == Of(h.accepted, t, LifeOf(h.life, t))
  {
    RunKeeps(capacity, ops);
    DeliveredThenPending(capacity, ops, t, LifeOf(Run(capacity, ops).1.life, t));
  }

  // ---------- the admitted history is what entered the queue ----------

  function AllOf(marks: seq<Mark>, t: Token): seq<Side> {
    if marks == [] then []
    else
      var m := marks[|marks| - 1];
      AllOf(marks[..|marks| - 1], t) + if m.token == t then [m.side] else []
  }

  function EntrySides(entries: seq<Entry>, t: Token): seq<Side> {
    if entries == [] then []
    else
      var e := entries[|entries| - 1];
      EntrySides(entries[..|entries| - 1], t) + if e.SampleEntry? then MarkersFor(e.sample, t) else []
  }

  lemma {:induction false} AllOfConcat(a: seq<Mark>, b: seq<Mark>, t: Token)
    ensures AllOf(a + b, t) == AllOf(a, t) + AllOf(b, t)
  {
    if b == [] {
      assert a + b == a;
    } else {
      assert (a + b)[..|a + b| - 1] == a + b[..|b| - 1];
      AllOfConcat(a, b[..|b| - 1], t);
    }
  }

  lemma {:induction false} AllOfMarksOf(p: Point, life: nat, n: nat, t: Token)
    requires n <= |p.markers|
    ensures AllOf(MarksOf(p, life)[..n], t) == if p.token == t then p.markers[..n] else []
  {
    if n > 0 {
      assert MarksOf(p, life)[..n][..n - 1] == MarksOf(p, life)[..n - 1];
      AllOfMarksOf(p, life, n - 1, t);
      assert p.markers[..n] == p.markers[..n - 1] + [p.markers[n - 1]];
    }
  }

  lemma {:induction false} AllOfMarks(sample: Sample, life: map<Token, nat>, t: Token)
    requires DistinctPoints(sample)
    ensures AllOf(Marks(sample, life), t) == MarkersFor(sample, t)
  {
    if sample != [] {
      var p := sample[|sample| - 1];
      var init := sample[..|sample| - 1];
      AllOfMarks(init, life, t);
      AllOfConcat(Marks(init, life), MarksOf(p, LifeOf(life, p.token)), t);
      AllOfPoint(p, LifeOf(life, p.token), t);
      if p.token == t {
        NoMarkersFor(init, t);
      }
    }
  }

  lemma {:induction false} AllOfPoint(p: Point, life: nat, t: Token)
    ensures AllOf(MarksOf(p, life), t) == if p.token == t then p.markers else []
  {
    AllOfMarksOf(p, life, |p.markers|, t);
    assert MarksOf(p, life)[..|p.markers|] == MarksOf(p, life) && p.markers[..|p.markers|] == p.markers;
  }

  lemma {:induction false} EntryConcat(entries: seq<Entry>, e: Entry, t: Token)
    ensures EntrySides(entries + [e], t) == EntrySides(entries, t) + if e.SampleEntry? then MarkersFor(e.sample, t) else []
  {
    assert (entries + [e])[..|entries|] == entries;
  }

  /** `marks` grew by exactly the markers that joined the queue. */
  ghost predicate Entered(queue: seq<Entry>, queue': seq<Entry>, marks: seq<Mark>, marks': seq<Mark>, t: Token) {
    queue <= queue' && AllOf(marks', t) == AllOf(marks, t) + EntrySides(queue'[|queue|..], t)
  }

  lemma {:induction false} PutEntered(queue0: seq<Entry>, queue: seq<Entry>, marks0: seq<Mark>, marks: seq<Mark>, sample: Sample, life: map<Token, nat>, t: Token)
    requires Entered(queue0, queue, marks0, marks, t) && DistinctPoints(sample)
    ensures Entered(queue0, queue + [SampleEntry(sample)], marks0, marks + Marks(sample, life), t)
  {
    AllOfConcat(marks, Marks(sample, life), t);
    AllOfMarks(sample, life, t);
    Joined(queue0, queue, SampleEntry(sample), t);
    Reassociated(AllOf(marks0, t), EntrySides(queue[|queue0|..], t), MarkersFor(sample, t));
  }

  lemma {:induction false} Joined(queue0: seq<Entry>, queue: seq<Entry>, e: Entry, t: Token)
    requires queue0 <= queue
    ensures queue0 <= queue + [e]
    ensures EntrySides((queue + [e])[|queue0|..], t) ==
            EntrySides(queue[|queue0|..], t) + if e.SampleEntry? then MarkersFor(e.sample, t) else []
  {
    EntryConcat(queue[|queue0|..], e, t);
    assert (queue + [e])[|queue0|..] == queue[|queue0|..] + [e];
  }

  lemma {:induction false} FreshEntered(queue0: seq<Entry>, marks0: seq<Mark>, o: Observer, h: History, t: Token)
    requires WellFormed(o.charts) && Entered(queue0, o.queue, marks0, h.admitted, t)
    ensures Entered(queue0, Fresh(o).queue, marks0, RecordFresh(o, h).admitted, t)
  {
    if !o.Full() {
      DrawsEverything(o.charts);
      PutEntered(queue0, o.queue, marks0, h.admitted, TakeSample(o.charts), h.life, t);
    }
  }

  lemma {:induction false} TickEntered(o: Observer, h: History, t: Token)
    requires Inv(o, h) && (o.stage.Running? || o.stage.Closing?)
    ensures Entered(o.queue, SampleDurable(o).queue, h.admitted, RecordTick(o, h).admitted, t)
  {
    assert o.queue[|o.queue|..] == [];
    match o.held
    case None => FreshEntered(o.queue, h.admitted, o, h, t);
    case Some(sample) =>
      if !o.Full() {
        AckKeepsForm(o.charts, o.sources, sample);
        PutEntered(o.queue, o.queue, h.admitted, h.admitted, sample, h.heldLife, t);
        FreshEntered(o.queue, h.admitted, o.Put(SampleEntry(sample)).Acked(sample).(held := None),
                     h.(admitted := h.admitted + Marks(sample, h.heldLife)), t);
      }
  }

  lemma {:induction false} OtherEntered(queue: seq<Entry>, e: Entry, marks: seq<Mark>, t: Token)
    requires !e.SampleEntry?
    ensures Entered(queue, queue, marks, marks, t) && Entered(queue, queue + [e], marks, marks, t)
  {
    assert queue[|queue|..] == [];
    EntryConcat([], e, t);
    assert (queue + [e])[|queue|..] == [] + [e];
  }

  lemma {:induction false} DrainEntered(o: Observer, h: History, t: Token)
    requires Inv(o, h)
    ensures Entered(o.queue, DrainStep(o).queue, h.admitted, RecordDrain(o, h).admitted, t)
  {
    OtherEntered(o.queue, OtherEntry, h.admitted, t);
    OtherEntered(o.queue, EndEntry, h.admitted, t);
    match o.stage
    case PutHeld => PutEntered(o.queue, o.queue, h.admitted, h.admitted, o.held.value, h.heldLife, t);
    case PutFinal(sample) => PutEntered(o.queue, o.queue, h.admitted, h.admitted, sample, h.heldLife, t);
    case _ =>
  }

  lemma {:induction false} StepEnters(o: Observer, h: History, op: Op, t: Token)
    requires Inv(o, h) && !op.Take? && !op.GiveUp?
    ensures Entered(o.queue, Step(o, op).queue, h.admitted, Record(o, h, op).admitted, t)
  {
    OtherEntered(o.queue, OtherEntry, h.admitted, t);
    match op
    case Tick => if o.stage.Running? || o.stage.Closing? { TickEntered(o, h, t); }
    case Drain => DrainEntered(o, h, t);
    case _ =>
  }

  /** The entry the writer takes in this step, if it takes one. */
  function TakenBy(o: Observer, op: Op): seq<Entry> {
    if op.Take? && o.queue != [] && !o.stage.Stopped? then [o.queue[0]] else []
  }

  /** The entries the writer has taken from the queue. */
  function Taken(capacity: nat, ops: seq<Op>): seq<Entry> {
    if ops == [] then []
    else
      var front := ops[..|ops| - 1];
      Taken(capacity, front) + TakenBy(Run(capacity, front).0, ops[|ops| - 1])
  }

  predicate GaveUp(o: Observer) {
    o.stage.Stopped? && !o.stage.drained
  }

  lemma {:induction false} EntriesConcat(a: seq<Entry>, b: seq<Entry>, t: Token)
    ensures EntrySides(a + b, t) == EntrySides(a, t) + EntrySides(b, t)
  {
    if b == [] {
      assert a + b == a;
    } else {
      assert (a + b)[..|a + b| - 1] == a + b[..|b| - 1];
      EntriesConcat(a, b[..|b| - 1], t);
    }
  }

  /** Appending to the queue keeps taken entries and queue in step with the admitted markers. */
  lemma {:induction false} EnteredBehind(taken: seq<Entry>, queue: seq<Entry>, queue': seq<Entry>, marks: seq<Mark>, marks': seq<Mark>, t: Token)
    requires AllOf(marks, t) == EntrySides(taken + queue, t) && Entered(queue, queue', marks, marks', t)
    ensures AllOf(marks', t) == EntrySides(taken + queue', t)
  {
    EntriesConcat(taken + queue, queue'[|queue|..], t);
    assert taken + queue' == (taken + queue) + queue'[|queue|..];
  }

  lemma {:induction false} TakenMoves(taken: seq<Entry>, o: Observer, op: Op)
    requires op.Take? || Step(o, op).queue == o.queue
    ensures taken + TakenBy(o, op) + Step(o, op).queue == taken + o.queue
  {
  }

  /** One step moves an entry from the queue to the writer, or appends what it admits. */
  lemma {:induction false} StepAdmits(taken: seq<Entry>, o: Observer, h: History, op: Op, t: Token)
    requires Inv(o, h) && !GaveUp(Step(o, op))
    requires AllOf(h.admitted, t) == EntrySides(taken + o.queue, t)
    ensures AllOf(Record(o, h, op).admitted, t) == EntrySides(taken + TakenBy(o, op) + Step(o, op).queue, t)
  {
    if op.Take? || op.GiveUp? {
      TakenMoves(taken, o, op);
    } else {
      assert taken + TakenBy(o, op) == taken;
      StepEnters(o, h, op, t);
      EnteredBehind(taken, o.queue, Step(o, op).queue, h.admitted, Record(o, h, op).admitted, t);
    }
  }

  /** Until the drain gives up, the markers counted as admitted are exactly those of the samples the writer
      has taken followed by those still queued, in order, for every token. */
  lemma {:induction false} AdmittedIsQueued(capacity: nat, ops: seq<Op>, t: Token)
    requires !GaveUp(Run(capacity, ops).0)
    ensures AllOf(Run(capacity, ops).1.admitted, t) == EntrySides(Taken(capacity, ops) + Run(capacity, ops).0.queue, t)
  {
    if ops != [] {
      var front := ops[..|ops| - 1];
      var (o, h) := Run(capacity, front);
      RunKeeps(capacity, front);
      AdmittedIsQueued(capacity, front, t);
      StepAdmits(Taken(capacity, front), o, h, ops[|ops| - 1], t);
    }
  }
}
