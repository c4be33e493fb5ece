/** Durable chart markers: the dashboard collects trade markers per token, the observer
    samples them and offers the sample to a bounded queue, and only a sample that was
    admitted consumes its markers. This file is the protocol as a state machine. */
module MarkerQueue {
  import opened Common

  type Token = string

  datatype Side = Buy | Sell

  const MAX_CHART_TOKENS: nat := 20
  const MAX_PENDING_MARKERS_PER_TOKEN: nat := 256

  // ---------- the dashboard's marker lists ----------

  /** A list object: which object it is, and what it holds. */
  datatype Markers = Markers(id: nat, sides: seq<Side>)

  datatype Charts = Charts(tokens: seq<Token>, pending: map<Token, Markers>, nextId: nat)

  function Activate(c: Charts, t: Token): (Charts, bool) {
    if t in c.tokens then (c, true)
    else if |c.tokens| >= MAX_CHART_TOKENS then (c, false)
    else (c.(tokens := c.tokens + [t]), true)
  }

  /** An accepted trade is appended to the token's list, a new list if it has none. */
  function RecordTrade(c: Charts, t: Token, side: Side): (Charts, bool) {
    var (c', active) := Activate(c, t);
    if !active then (c, false)
    else if t !in c'.pending then
      (c'.(pending := c'.pending[t := Markers(c'.nextId, [side])], nextId := c'.nextId + 1), true)
    else if |c'.pending[t].sides| >= MAX_PENDING_MARKERS_PER_TOKEN then (c', false)
    else (c'.(pending := c'.pending[t := c'.pending[t].(sides := c'.pending[t].sides + [side])]), true)
  }

  /** Delete the first markers of a list; an emptied list is dropped. */
  function AckMarkers(c: Charts, t: Token, count: nat): Charts {
    if t !in c.pending then c
    else if count >= |c.pending[t].sides| then c.(pending := c.pending - {t})
    else c.(pending := c.pending[t := c.pending[t].(sides := c.pending[t].sides[count..])])
  }

  function Remove(tokens: seq<Token>, t: Token): (r: seq<Token>) {
    if tokens == [] then []
    else if tokens[0] == t then tokens[1..]
    else [tokens[0]] + Remove(tokens[1..], t)
  }

  function RemoveToken(c: Charts, t: Token): Charts {
    c.(tokens := Remove(c.tokens, t), pending := c.pending - {t})
  }

  function RemoveTokens(c: Charts, ts: seq<Token>): Charts {
    if ts == [] then c else RemoveToken(RemoveTokens(c, ts[..|ts| - 1]), ts[|ts| - 1])
  }

  // ---------- sampling and acknowledging ----------

  datatype Point = Point(token: Token, markers: seq<Side>)

  type Sample = seq<Point>

  function PendingSides(c: Charts, t: Token): seq<Side> {
    if t in c.pending then c.pending[t].sides else []
  }

  function Ids(c: Charts): map<Token, nat> {
    map t | t in c.pending :: c.pending[t].id
  }

  function TakeSample(c: Charts): (s: Sample)
    ensures |s| == |c.tokens|
    ensures forall i | 0 <= i < |s| :: s[i] == Point(c.tokens[i], PendingSides(c, c.tokens[i]))
  {
    seq(|c.tokens|, i requires 0 <= i < |c.tokens| => Point(c.tokens[i], PendingSides(c, c.tokens[i])))
  }

  /** Both lookups miss, or both find the same list object. */
  predicate SameList(sources: map<Token, nat>, c: Charts, t: Token) {
    if t in sources then t in c.pending && c.pending[t].id == sources[t] else t !in c.pending
  }

  function Acknowledge(c: Charts, sources: map<Token, nat>, sample: Sample): Charts {
    if sample == [] then c
    else
      var earlier := Acknowledge(c, sources, sample[..|sample| - 1]);
      var p := sample[|sample| - 1];
      if SameList(sources, earlier, p.token) then AckMarkers(earlier, p.token, |p.markers|) else earlier
  }

  // ---------- the observer ----------

  datatype Entry = SampleEntry(sample: Sample) | OtherEntry | EndEntry

  /** Running; closed to new events; the awaits of the shutdown drain; stopped, drained or not. */
  datatype Stage =
    | Running | Closing | PutHeld | PutFinal(sample: Sample) | PutHealth | PutEnd | Joining
    | Stopped(drained: bool)

  datatype Observer = Observer(
    charts: Charts,
    sources: map<Token, nat>,
    queue: seq<Entry>,
    capacity: nat,
    held: Option<Sample>,
    health: bool,
    stage: Stage)
  {
    /** A capacity of zero is an unbounded queue. */
    predicate Full() {
      capacity != 0 && |queue| >= capacity
    }

    function Put(e: Entry): Observer {
      this.(queue := queue + [e])
    }

    /** Draw a sample, remembering which list objects it was drawn from. */
    function Draw(): (Observer, Sample) {
      (this.(sources := Ids(charts)), TakeSample(charts))
    }

    function Acked(sample: Sample): Observer {
      this.(charts := Acknowledge(charts, sources, sample), sources := map[])
    }

    /** The sample that has been drawn and not yet admitted. */
    function Outstanding(): Option<Sample> {
      if stage.PutFinal? then Some(stage.sample) else held
    }
  }

  datatype Op =
    | Show(token: Token)
    | Trade(token: Token, side: Side)
    | Settle(tokens: seq<Token>)
    | Health
    | Durable
    | Tick
    | Take
    | Close
    | Drain
    | GiveUp

  /** Draw a fresh sample; admit and acknowledge it, or hold it when the queue is full. */
  function Fresh(o: Observer): Observer {
    var (drawn, sample) := o.Draw();
    if drawn.Full() then drawn.(held := Some(sample))
    else drawn.Put(SampleEntry(sample)).Acked(sample)
  }

  /** One durable tick: a held sample goes first, unchanged; only after it is admitted is a new one drawn. */
  function SampleDurable(o: Observer): Observer {
    match o.held
    case None => Fresh(o)
    case Some(sample) =>
      if o.Full() then o
      else Fresh(o.Put(SampleEntry(sample)).Acked(sample).(held := None))
  }

  /** The shutdown drain, resumed at the put it is waiting on; it moves only when there is room. */
  function DrainStep(o: Observer): Observer {
    match o.stage
    case Closing =>
      if o.held.Some? then o.(stage := PutHeld)
      else var (drawn, sample) := o.Draw(); drawn.(stage := PutFinal(sample))
    case PutHeld =>
      if o.Full() || o.held.None? then o
      else
        var (drawn, sample) := o.Put(SampleEntry(o.held.value)).Acked(o.held.value).(held := None).Draw();
        drawn.(stage := PutFinal(sample))
    case PutFinal(sample) =>
      if o.Full() then o
      else o.Put(SampleEntry(sample)).Acked(sample).(stage := if o.health then PutHealth else PutEnd)
    case PutHealth => if o.Full() then o else o.Put(OtherEntry).(stage := PutEnd)
    case PutEnd => if o.Full() then o else o.Put(EndEntry).(stage := Joining)
    case _ => o
  }

  function Step(o: Observer, op: Op): Observer {
    match op
    case Show(t) => if o.stage.Running? then o.(charts := Activate(o.charts, t).0) else o
    case Trade(t, side) => if o.stage.Running? then o.(charts := RecordTrade(o.charts, t, side).0) else o
    case Settle(ts) => if o.stage.Running? then o.(charts := RemoveTokens(o.charts, ts)) else o
    case Health => if o.stage.Running? then o.(health := true) else o
    case Durable => if o.stage.Running? && !o.Full() then o.Put(OtherEntry) else o
    case Tick => if o.stage.Running? || o.stage.Closing? then SampleDurable(o) else o
    case Take =>
      if o.queue == [] || o.stage.Stopped? then o
      else if o.queue[0].EndEntry? then o.(queue := o.queue[1..], stage := Stopped(true))
      else o.(queue := o.queue[1..])
    case Close => if o.stage.Running? then o.(stage := Closing) else o
    case Drain => DrainStep(o)
    case GiveUp =>
      if o.stage.Running? || o.stage.Stopped? then o
      else o.(stage := Stopped(false), held := None, queue := [])
  }

  function Initial(capacity: nat): Observer {
    Observer(Charts([], map[], 0), map[], [], capacity, None, false, Running)
  }

  // ---------- history ----------

  /** One marker with the lifetime of its token (the number of removals before it). */
  datatype Mark = Mark(token: Token, life: nat, side: Side)

  datatype History = History(life: map<Token, nat>, heldLife: map<Token, nat>, accepted: seq<Mark>, admitted: seq<Mark>)

  function LifeOf(life: map<Token, nat>, t: Token): nat {
    if t in life then life[t] else 0
  }

  function EndLives(life: map<Token, nat>, ts: seq<Token>): map<Token, nat> {
    if ts == [] then life
    else
      var earlier := EndLives(life, ts[..|ts| - 1]);
      earlier[ts[|ts| - 1] := LifeOf(earlier, ts[|ts| - 1]) + 1]
  }

  function MarksOf(p: Point, life: nat): (marks: seq<Mark>)
  {
    seq(|p.markers|, i requires 0 <= i < |p.markers| => Mark(p.token, life, p.markers[i]))
  }

  function Marks(sample: Sample, life: map<Token, nat>): seq<Mark> {
    if sample == [] then []
    else
      var p := sample[|sample| - 1];
      Marks(sample[..|sample| - 1], life) + MarksOf(p, LifeOf(life, p.token))
  }

  /** The markers one step admits: of the outstanding sample, then of a fresh one. */
  function Record(o: Observer, h: History, op: Op): History {
    match op
    case Trade(t, side) =>
      if o.stage.Running? && RecordTrade(o.charts, t, side).1
      then h.(accepted := h.accepted + [Mark(t, LifeOf(h.life, t), side)])
      else h
    case Settle(ts) => if o.stage.Running? then h.(life := EndLives(h.life, ts)) else h
    case Tick => if o.stage.Running? || o.stage.Closing? then RecordTick(o, h) else h
    case Drain => RecordDrain(o, h)
    case _ => h
  }

  function RecordFresh(o: Observer, h: History): History {
    if o.Full() then h.(heldLife := h.life)
    else h.(admitted := h.admitted + Marks(TakeSample(o.charts), h.life))
  }

  function RecordTick(o: Observer, h: History): History {
    match o.held
    case None => RecordFresh(o, h)
    case Some(sample) =>
      if o.Full() then h
      else RecordFresh(o.Put(SampleEntry(sample)).Acked(sample).(held := None),
                       h.(admitted := h.admitted + Marks(sample, h.heldLife)))
  }

  function RecordDrain(o: Observer, h: History): History {
    match o.stage
    case Closing => if o.held.Some? then h else h.(heldLife := h.life)
    case PutHeld =>
      if o.Full() || o.held.None? then h
      else h.(admitted := h.admitted + Marks(o.held.value, h.heldLife), heldLife := h.life)
    case PutFinal(sample) =>
      if o.Full() then h else h.(admitted := h.admitted + Marks(sample, h.heldLife))
    case _ => h
  }

  function Run(capacity: nat, ops: seq<Op>): (Observer, History) {
    if ops == [] then (Initial(capacity), History(map[], map[], [], []))
    else
      var (o, h) := Run(capacity, ops[..|ops| - 1]);
      var op := ops[|ops| - 1];
      (Step(o, op), Record(o, h, op))
  }
}
