/** The dashboard's marker lists as heap objects, and the observer over them, proved to
    take the steps of the marker protocol. Acknowledgement compares object identity. */
module RuntimeObserver {
  import opened Common
  import opened MarkerAcceptance
  import opened MarkerQueue

  class MarkerList {
    ghost const id: nat
    var sides: seq<Side>

    constructor (ghost id: nat)
      ensures this.id == id && sides == []
    {
      this.id := id;
      sides := [];
    }
  }

  class DashboardHistory {
    var tokens: seq<Token>
    var pending: map<Token, MarkerList>
    ghost var issued: seq<MarkerList>

    ghost predicate Valid()
      reads this, issued
    {
      && (forall i | 0 <= i < |issued| :: issued[i].id == i)
      && (forall t | t in pending :: pending[t] in issued)
      && (forall t, u | t in pending && u in pending && t != u :: pending[t] != pending[u])
    }

    ghost function Lists(): map<Token, Markers>
      reads this, pending.Values
    {
      map t | t in pending :: Markers(pending[t].id, pending[t].sides)
    }

    ghost function Abs(): Charts
      reads this, pending.Values
    {
      Charts(tokens, Lists(), |issued|)
    }

    constructor ()
      ensures Valid() && Abs() == Charts([], map[], 0) && issued == []
    {
      tokens, pending, issued := [], map[], [];
    }

    method ActivateToken(t: Token) returns (ok: bool)
      requires Valid()
      modifies this`tokens
      ensures Valid() && (Abs(), ok) == Activate(old(Abs()), t)
      ensures pending == old(pending) && issued == old(issued)
    {
      ok := true;
      if t !in tokens {
        if |tokens| >= MAX_CHART_TOKENS {
          return false;
        }
        tokens := tokens + [t];
      }
      assert Lists() == old(Lists());
    }

    method RecordTrade(t: Token, side: Side) returns (ok: bool)
      requires Valid()
      modifies this, issued
      ensures Valid() && (Abs(), ok) == MarkerQueue.RecordTrade(old(Abs()), t, side)
      ensures ok <==> Accepts(t in old(tokens), |old(tokens)|, |PendingSides(old(Abs()), t)|)
      ensures PendingSides(Abs(), t) == PendingSides(old(Abs()), t) + if ok then [side] else []
      ensures old(issued) <= issued && fresh(issued[|old(issued)|..])
    {
      TradeAccepted(Abs(), t, side);
      ok := ActivateToken(t);
      if ok {
        if t !in pending {
          StartList(t, side);
        } else if |pending[t].sides| >= MAX_PENDING_MARKERS_PER_TOKEN {
          ok := false;
        } else {
          Append(t, side);
        }
      }
    }

    method StartList(t: Token, side: Side)
      requires Valid() && t !in pending
      modifies this`pending, this`issued
      ensures Valid() && tokens == old(tokens)
      ensures Abs() == old(Abs()).(pending := old(Abs()).pending[t := Markers(old(Abs()).nextId, [side])], nextId := old(Abs()).nextId + 1)
      ensures old(issued) <= issued && fresh(issued[|old(issued)|..])
    {
      var list := new MarkerList(|issued|);
      list.sides := [side];
      pending := pending[t := list];
      issued := issued + [list];
      assert Lists() == old(Lists())[t := Markers(|old(issued)|, [side])];
    }

    method Append(t: Token, side: Side)
      requires Valid() && t in pending
      modifies pending[t]
      ensures Valid() && Abs() == old(Abs()).(pending := old(Abs()).pending[t := Markers(old(pending[t].id), old(pending[t].sides) + [side])])
    {
      pending[t].sides := pending[t].sides + [side];
      assert Lists() == old(Lists())[t := Markers(pending[t].id, pending[t].sides)];
    }

    method AcknowledgeMarkers(t: Token, count: nat)
      requires Valid()
      modifies this`pending, issued
      ensures Valid() && Abs() == AckMarkers(old(Abs()), t, count)
      ensures tokens == old(tokens) && issued == old(issued)
      ensures forall u | u in pending :: u in old(pending) && pending[u] == old(pending[u])
    {
      if t in pending {
        var list := pending[t];
        list.sides := if count >= |list.sides| then [] else list.sides[count..];
        if list.sides == [] {
          pending := pending - {t};
          assert Lists() == old(Lists()) - {t};
        } else {
          assert Lists() == old(Lists())[t := Markers(list.id, list.sides)];
        }
      }
    }

    method RemoveTokens(ts: seq<Token>)
      requires Valid()
      modifies this`pending, this`tokens
      ensures Valid() && Abs() == MarkerQueue.RemoveTokens(old(Abs()), ts)
      ensures issued == old(issued)
    {
      for i := 0 to |ts|
        invariant Valid() && issued == old(issued)
        invariant Abs() == MarkerQueue.RemoveTokens(old(Abs()), ts[..i])
      {
        assert ts[..i + 1][..i] == ts[..i];
        ghost var before := Lists();
        pending := pending - {ts[i]};
        tokens := Remove(tokens, ts[i]);
        assert Lists() == before - {ts[i]};
      }
      assert ts[..|ts|] == ts;
    }
  }

  class DashboardProjection {
    const charts: DashboardHistory
    var sources: map<Token, MarkerList>

    ghost predicate Valid()
      reads this, charts, charts.issued
    {
      charts.Valid() && forall t | t in sources :: sources[t] in charts.issued
    }

    ghost function Sources(): map<Token, nat>
      reads this
    {
      map t | t in sources :: sources[t].id
    }

    constructor ()
      ensures Valid() && fresh(charts) && charts.Abs() == Charts([], map[], 0) && sources == map[] && charts.issued == []
    {
      charts := new DashboardHistory();
      sources := map[];
    }

    /** Remember which lists the sample was drawn from, and copy what they hold. */
    method SampleDurable() returns (sample: Sample)
      requires Valid()
      modifies this`sources
      ensures Valid() && sample == TakeSample(charts.Abs()) && Sources() == Ids(charts.Abs())
    {
      sources := charts.pending;
      sample := [];
      for i := 0 to |charts.tokens|
        invariant Valid() && sources == charts.pending
        invariant sample == TakeSample(charts.Abs())[..i]
      {
        var t := charts.tokens[i];
        sample := sample + [Point(t, if t in charts.pending then charts.pending[t].sides else [])];
      }
    }

    method AcknowledgeSample(sample: Sample)
      requires Valid()
      modifies this`sources, charts`pending, charts.issued
      ensures Valid() && sources == map[]
      ensures charts.Abs() == Acknowledge(old(charts.Abs()), old(Sources()), sample)
      ensures charts.issued == old(charts.issued)
    {
      for i := 0 to |sample|
        invariant Valid() && sources == old(sources) && charts.issued == old(charts.issued)
        invariant charts.Abs() == Acknowledge(old(charts.Abs()), old(Sources()), sample[..i])
      {
        assert sample[..i + 1][..i] == sample[..i];
        var p := sample[i];
        var same := if p.token in sources
                    then p.token in charts.pending && charts.pending[p.token] == sources[p.token]
                    else p.token !in charts.pending;
        assert same == SameList(Sources(), charts.Abs(), p.token) by {
          IdentityIsId(p.token);
        }
        if same {
          charts.AcknowledgeMarkers(p.token, |p.markers|);
        }
      }
      assert sample[..|sample|] == sample;
      sources := map[];
    }

    lemma {:induction false} IdentityIsId(t: Token)
      requires Valid()
      ensures t in sources && t in charts.pending ==>
                (charts.pending[t] == sources[t] <==> charts.pending[t].id == sources[t].id)
    {
      if t !in sources || t !in charts.pending {
        return;
      }
      var i :| 0 <= i < |charts.issued| && charts.issued[i] == charts.pending[t];
      var j :| 0 <= j < |charts.issued| && charts.issued[j] == sources[t];
    }
  }

  /** After `n` durable events are offered in turn. */
  function Offered(o: Observer, n: nat): Observer {
    if n == 0 then o else Step(Offered(o, n - 1), Durable)
  }

  class WebRuntimeObserver {
    const projection: DashboardProjection
    const capacity: nat
    var queue: seq<Entry>
    var held: Option<Sample>
    var health: bool
    var stage: Stage

    ghost predicate Valid()
      reads this, projection, projection.charts, projection.charts.issued
    {
      projection.Valid()
    }

    ghost function Abs(): Observer
      reads this, projection, projection.charts, projection.charts.pending.Values
    {
      Observer(projection.charts.Abs(), projection.Sources(), queue, capacity, held, health, stage)
    }

    constructor (capacity: nat)
      ensures Valid() && Abs() == Initial(capacity)
    {
      projection := new DashboardProjection();
      this.capacity := capacity;
      queue, held, health, stage := [], None, false, Running;
      new;
      assert projection.Sources() == map[];
    }

    /** Offer an entry without waiting: false when the queue is full. */
    method Enqueue(e: Entry) returns (ok: bool)
      modifies this`queue
      ensures ok == !old(Abs()).Full()
      ensures queue == if ok then old(queue) + [e] else old(queue)
    {
      ok := capacity == 0 || |queue| < capacity;
      if ok {
        queue := queue + [e];
      }
    }

    /** Offer a sample; only if it is admitted are its markers consumed. */
    method Admit(sample: Sample) returns (ok: bool)
      requires Valid()
      modifies this`queue, projection`sources, projection.charts`pending, projection.charts.issued
      ensures Valid() && projection.charts.issued == old(projection.charts.issued)
      ensures ok == !old(Abs()).Full()
      ensures Abs() == if ok then old(Abs()).Put(SampleEntry(sample)).Acked(sample) else old(Abs())
    {
      ok := Enqueue(SampleEntry(sample));
      if ok {
        projection.AcknowledgeSample(sample);
        assert projection.Sources() == map[];
      }
    }

    method Draw() returns (sample: Sample)
      requires Valid()
      modifies projection`sources
      ensures Valid() && (Abs(), sample) == old(Abs()).Draw()
    {
      sample := projection.SampleDurable();
    }

    method SampleDurable()
      requires Valid()
      modifies this`queue, this`held, projection`sources, projection.charts`pending, projection.charts.issued
      ensures Valid() && Abs() == MarkerQueue.SampleDurable(old(Abs()))
    {
      if held.Some? {
        var admitted := Admit(held.value);
        if !admitted {
          return;
        }
        held := None;
      }
      FreshSample();
    }

    method FreshSample()
      requires Valid() && held.None?
      modifies this`queue, this`held, projection`sources, projection.charts`pending, projection.charts.issued
      ensures Valid() && Abs() == Fresh(old(Abs()))
    {
      var sample := Draw();
      var admitted := Admit(sample);
      if !admitted {
        held := Some(sample);
      }
    }

    /** Resume the shutdown drain where it waits. */
    method Drain()
      requires Valid()
      modifies this`queue, this`held, this`stage, projection`sources, projection.charts`pending, projection.charts.issued
      ensures Valid() && Abs() == DrainStep(old(Abs()))
    {
      match stage
      case Closing =>
        if held.Some? {
          stage := PutHeld;
        } else {
          DrawFinal();
        }
      case PutHeld => DrainHeld();
      case PutFinal(_) => DrainFinal();
      case PutHealth => DrainPlain(OtherEntry, PutEnd);
      case PutEnd => DrainPlain(EndEntry, Joining);
      case _ =>
    }

    method DrainHeld()
      requires Valid() && stage.PutHeld?
      modifies this`queue, this`held, this`stage, projection`sources, projection.charts`pending, projection.charts.issued
      ensures Valid() && Abs() == DrainStep(old(Abs()))
    {
      if held.Some? {
        var moved := Admit(held.value);
        if moved {
          held := None;
          DrawFinal();
        }
      }
    }

    method DrainFinal()
      requires Valid() && stage.PutFinal?
      modifies this`queue, this`stage, projection`sources, projection.charts`pending, projection.charts.issued
      ensures Valid() && Abs() == DrainStep(old(Abs()))
    {
      var moved := Admit(stage.sample);
      if moved {
        stage := if health then PutHealth else PutEnd;
      }
    }

    method DrainPlain(e: Entry, next: Stage)
      requires Valid()
      modifies this`queue, this`stage
      ensures Valid() && Abs() == if old(Abs()).Full() then old(Abs()) else old(Abs()).Put(e).(stage := next)
    {
      var moved := Enqueue(e);
      if moved {
        stage := next;
      }
    }

    method DrawFinal()
      requires Valid()
      modifies this`stage, projection`sources
      ensures Valid()
      ensures Abs() == var (drawn, sample) := old(Abs()).Draw(); drawn.(stage := PutFinal(sample))
    {
      var sample := Draw();
      stage := PutFinal(sample);
    }

    /** A fill, unless the observer has been closed: the projection records its marker, then each of the
        durable events projected from it is offered to the queue. */
    method EmitTrade(t: Token, side: Side, projected: nat) returns (overflow: bool)
      requires Valid()
      modifies this`queue, projection.charts, projection.charts.issued
      ensures Valid() && Abs() == Offered(Step(old(Abs()), Trade(t, side)), projected)
      ensures overflow <==>
              stage.Running? && !Accepts(t in old(projection.charts.tokens), |old(projection.charts.tokens)|, |PendingSides(old(Abs()).charts, t)|)
    {
      overflow := false;
      if stage.Running? {
        var ok := projection.charts.RecordTrade(t, side);
        overflow := !ok;
      }
      OfferProjected(projected);
    }

    method EmitSettlement(ts: seq<Token>, projected: nat)
      requires Valid()
      modifies this`queue, projection.charts`pending, projection.charts`tokens
      ensures Valid() && Abs() == Offered(Step(old(Abs()), Settle(ts)), projected)
    {
      if stage.Running? {
        projection.charts.RemoveTokens(ts);
      }
      OfferProjected(projected);
    }

    method OfferProjected(n: nat)
      requires Valid()
      modifies this`queue
      ensures Valid() && Abs() == Offered(old(Abs()), n)
    {
      for i := 0 to n
        invariant Valid() && Abs() == Offered(old(Abs()), i)
      {
        EmitDurable();
      }
    }

    method EmitBook(t: Token)
      requires Valid()
      modifies projection.charts`tokens
      ensures Valid() && Abs() == Step(old(Abs()), Show(t))
    {
      if stage.Running? {
        var _ := projection.charts.ActivateToken(t);
      }
    }

    method EmitDurable()
      requires Valid()
      modifies this`queue
      ensures Valid() && Abs() == Step(old(Abs()), Durable)
    {
      if stage.Running? {
        var _ := Enqueue(OtherEntry);
      }
    }

    method Stop()
      requires Valid()
      modifies this`stage
      ensures Valid() && Abs() == Step(old(Abs()), Close)
    {
      if stage.Running? {
        stage := Closing;
      }
    }

    /** The writer takes the oldest entry; the end marker finishes it. */
    method NextEntry()
      requires Valid()
      modifies this`queue, this`stage
      ensures Valid() && Abs() == Step(old(Abs()), Take)
    {
      if queue != [] && !stage.Stopped? {
        if queue[0].EndEntry? {
          stage := Stopped(true);
        }
        queue := queue[1..];
      }
    }

    /** The drain timed out or failed: everything not yet written is dropped. */
    method Abandon()
      requires Valid()
      modifies this`queue, this`held, this`stage
      ensures Valid() && Abs() == Step(old(Abs()), GiveUp)
    {
      if !stage.Running? && !stage.Stopped? {
        stage, held, queue := Stopped(false), None, [];
      }
    }
  }
}
