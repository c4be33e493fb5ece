/** The append-only event log of one run, read backwards in pages and forwards as a replay. */
module EventPaging {
  import opened Common

  const MAX_EVENT_PAGE_LIMIT: nat := 500
  const MAX_DURABLE_EVENT_ID: nat := 9007199254740991

  datatype Body =
    | ChartSample | WalletTimeline | StreamHealth
    | RunLifecycle(terminal: bool) | RunFailure | BrokerFailure
    | BrokerFill(accepted: bool) | BotActivity(severe: bool) | MarketSettlement(hasPositions: bool)
    | OtherEvent

  datatype Event = Event(id: nat, body: Body)

  datatype View = Activity | Diagnostics | Dashboard

  predicate Selected(view: View, e: Event) {
    match view
    case Dashboard => e.body.ChartSample? || e.body.WalletTimeline? || e.body.StreamHealth?
    case Diagnostics => !e.body.ChartSample?
    case Activity =>
      match e.body
      case RunLifecycle(_) => true
      case RunFailure => true
      case BrokerFailure => true
      case BrokerFill(accepted) => !accepted
      case BotActivity(severe) => severe
      case MarketSettlement(hasPositions) => hasPositions
      case _ => false
  }

  /** The kinds a dashboard draws, which no view's selection can withhold from a replay. */
  predicate ForDashboard(e: Event) { e.body in {ChartSample, WalletTimeline, StreamHealth} }

  /** What a replay after an event has to deliver. */
  predicate Due(view: View, after: nat, e: Event) { e.id > after && (Selected(view, e) || ForDashboard(e)) }

  predicate TerminalEvent(e: Event) { e.body.RunLifecycle? && e.body.terminal }

  ghost predicate Increasing(log: seq<Event>) {
    forall i, j | 0 <= i < j < |log| :: log[i].id < log[j].id
  }

  // ---------- selecting rows ----------

  /** Which events a query is about: a view, a view with the dashboard's events, or all. */
  datatype Scope = All | Only(view: View) | WithDashboard(view: View)

  datatype Query = Query(scope: Scope, atMost: Option<nat>, below: Option<nat>, above: Option<nat>)

  predicate InScope(scope: Scope, e: Event) {
    match scope
    case All => true
    case Only(view) => Selected(view, e)
    case WithDashboard(view) => Selected(view, e) || Selected(Dashboard, e)
  }

  predicate Matches(q: Query, e: Event) {
    && InScope(q.scope, e)
    && (q.atMost.Some? ==> e.id <= q.atMost.value)
    && (q.below.Some? ==> e.id < q.below.value)
    && (q.above.Some? ==> e.id > q.above.value)
  }

  function Where(s: seq<Event>, q: Query): seq<Event> {
    if s == [] then []
    else Where(s[..|s| - 1], q) + if Matches(q, s[|s| - 1]) then [s[|s| - 1]] else []
  }

  function InView(view: View): Query { Query(Only(view), None, None, None) }

  function Below(before: Option<nat>): Query { Query(All, None, before, None) }

  function PageRow(view: View, cursor: nat, before: Option<nat>): Query {
    Query(Only(view), Some(cursor), before, None)
  }

  function After(view: View, after: nat): Query { Query(WithDashboard(view), None, None, Some(after)) }

  function Reverse(s: seq<Event>): seq<Event> {
    if s == [] then [] else [s[|s| - 1]] + Reverse(s[..|s| - 1])
  }

  function Limit(s: seq<Event>, limit: nat): seq<Event> {
    if |s| <= limit then s else s[..limit]
  }

  // ---------- the store ----------

  datatype Page = Page(events: seq<Event>, nextBefore: Option<nat>, streamCursor: nat)

  function NextPageCursor(events: seq<Event>, hasMore: bool): Option<nat> {
    if !hasMore || events == [] then None else Some(events[0].id)
  }

  function Watermark(log: seq<Event>): nat {
    if log == [] then 0 else log[|log| - 1].id
  }

  /** The watermark is read first; the rows are read later, when the log may have grown. */
  function ReadPage(atWatermark: seq<Event>, atRows: seq<Event>, before: Option<nat>, limit: nat, view: View): Page {
    var cursor := Watermark(atWatermark);
    var rows := Limit(Reverse(Where(atRows, PageRow(view, cursor, before))), limit + 1);
    var hasMore := |rows| > limit;
    var events := Reverse(Limit(rows, limit));
    Page(events, NextPageCursor(events, hasMore), cursor)
  }

  datatype Delivery = Delivery(event: Event, dashboardOnly: bool)

  function AsDeliveries(events: seq<Event>, view: View): seq<Delivery> {
    if events == [] then []
    else
      var last := events[|events| - 1];
      AsDeliveries(events[..|events| - 1], view) + [Delivery(last, !Selected(view, last))]
  }

  function ReadDeliveries(log: seq<Event>, after: nat, view: View): seq<Delivery> {
    AsDeliveries(Limit(Where(log, After(view, after)), MAX_EVENT_PAGE_LIMIT), view)
  }

  /** Deliveries of due events only, in id order, each on the channel its view decides. */
  ghost predicate Sound(log: seq<Event>, after: nat, view: View, ds: seq<Delivery>) {
    && (forall i, j | 0 <= i < j < |ds| :: ds[i].event.id < ds[j].event.id)
    && forall d | d in ds :: d.event in log && Due(view, after, d.event) && (d.dashboardOnly <==> !Selected(view, d.event))
  }

  ghost predicate Delivered(ds: seq<Delivery>, e: Event) {
    exists d | d in ds :: d.event == e
  }

  class EventStore {
    var log: seq<Event>

    constructor ()
      ensures log == []
    {
      log := [];
    }

    /** The database chose `id`, later than every visible one; an id past the public range is rolled back. */
    method Append(id: nat, body: Body) returns (r: Option<Event>)
      requires log != [] ==> log[|log| - 1].id < id
      requires Increasing(log)
      modifies this
      ensures Increasing(log)
      ensures r.None? <==> !(1 <= id <= MAX_DURABLE_EVENT_ID)
      ensures r.None? ==> log == old(log)
      ensures r.Some? ==> r.value == Event(id, body) && log == old(log) + [r.value]
    {
      if 1 <= id <= MAX_DURABLE_EVENT_ID {
        log := log + [Event(id, body)];
        return Some(Event(id, body));
      }
      return None;
    }
  }

  // ---------- facts about selecting ----------

  lemma {:induction false} ReverseConcat(a: seq<Event>, b: seq<Event>)
    ensures Reverse(a + b) == Reverse(b) + Reverse(a)
  {
    if b == [] {
      assert a + b == a;
    } else {
      assert (a + b)[..|a + b| - 1] == a + b[..|b| - 1];
      ReverseConcat(a, b[..|b| - 1]);
    }
  }

  lemma {:induction false} ReverseTwice(s: seq<Event>)
    ensures Reverse(Reverse(s)) == s && |Reverse(s)| == |s|
  {
    if s != [] {
      var front, last := s[..|s| - 1], s[|s| - 1];
      ReverseTwice(front);
      ReverseConcat([last], Reverse(front));
      assert [last][..0] == [] && Reverse([last]) == [last] + Reverse([]);
      assert s == front + [last];
    }
  }

  /** Descending, cut to the limit and turned round again, a selection keeps its latest rows in order. */
  lemma {:induction false} ReversedTail(s: seq<Event>, limit: nat)
    ensures var rows := Limit(Reverse(s), limit + 1);
            && (|rows| > limit <==> |s| > limit)
            && Reverse(Limit(rows, limit)) == if |s| <= limit then s else s[|s| - limit..]
  {
    ReverseTwice(s);
    if |s| > limit {
      var older, page := s[..|s| - limit], s[|s| - limit..];
      assert s == older + page;
      ReverseConcat(older, page);
      ReverseTwice(page);
      assert Limit(Limit(Reverse(s), limit + 1), limit) == Reverse(page);
    }
  }

  lemma {:induction false} WhereMember(s: seq<Event>, q: Query, e: Event)
    ensures e in Where(s, q) <==> e in s && Matches(q, e)
  {
    if s != [] {
      WhereMember(s[..|s| - 1], q, e);
      assert s == s[..|s| - 1] + [s[|s| - 1]];
    }
  }

  lemma {:induction false} WhereConcat(a: seq<Event>, b: seq<Event>, q: Query)
    ensures Where(a + b, q) == Where(a, q) + Where(b, q)
  {
    if b == [] {
      assert a + b == a;
    } else {
      assert (a + b)[..|a + b| - 1] == a + b[..|b| - 1];
      WhereConcat(a, b[..|b| - 1], q);
    }
  }

  lemma {:induction false} WhereNone(s: seq<Event>, q: Query)
    requires forall e | e in s :: !Matches(q, e)
    ensures Where(s, q) == []
  {
    if s != [] {
      assert s[|s| - 1] in s;
      WhereNone(s[..|s| - 1], q);
    }
  }

  lemma {:induction false} WhereAll(s: seq<Event>, q: Query)
    requires forall e | e in s :: Matches(q, e)
    ensures Where(s, q) == s
  {
    if s != [] {
      assert s[|s| - 1] in s;
      WhereAll(s[..|s| - 1], q);
    }
  }

  lemma {:induction false} WhereOneMore(s: seq<Event>, e: Event, q: Query)
    ensures Where(s + [e], q) == Where(s, q) + if Matches(q, e) then [e] else []
  {
    assert (s + [e])[..|s|] == s;
  }

  lemma {:induction false} WhereTwice(s: seq<Event>, p: Query, q: Query, both: Query)
    requires forall e | e in s :: Matches(both, e) <==> Matches(p, e) && Matches(q, e)
    ensures Where(Where(s, p), q) == Where(s, both)
  {
    if s != [] {
      var front, last := s[..|s| - 1], s[|s| - 1];
      assert last in s && forall e | e in front :: e in s;
      WhereTwice(front, p, q, both);
      if Matches(p, last) {
        WhereOneMore(Where(front, p), last, q);
      } else {
        assert Where(s, p) == Where(front, p);
      }
    }
  }

  lemma {:induction false} WhereIncreases(s: seq<Event>, q: Query)
    requires Increasing(s)
    ensures Increasing(Where(s, q))
  {
    if s != [] {
      var front, rows := s[..|s| - 1], Where(s[..|s| - 1], q);
      WhereIncreases(front, q);
      forall i | 0 <= i < |rows| ensures rows[i].id < s[|s| - 1].id {
        WhereMember(front, q, rows[i]);
        var j :| 0 <= j < |front| && front[j] == rows[i];
        assert s[j] == rows[i];
      }
    }
  }

  /** Below the id of a row, an increasing selection is just the part before that row. */
  lemma {:induction false} BelowRow(s: seq<Event>, i: nat)
    requires Increasing(s) && i < |s|
    ensures Where(s, Below(Some(s[i].id))) == s[..i]
  {
    var q := Below(Some(s[i].id));
    assert s == s[..i] + s[i..];
    WhereConcat(s[..i], s[i..], q);
    WhereAll(s[..i], q);
    WhereNone(s[i..], q);
  }

  /** Above the id of a row, the part after it. */
  lemma {:induction false} AboveRow(s: seq<Event>, i: nat, q: Query)
    requires Increasing(s) && i < |s| && q == Query(All, None, None, Some(s[i].id))
    ensures Where(s, q) == s[i + 1..]
  {
    assert s == s[..i + 1] + s[i + 1..];
    WhereConcat(s[..i + 1], s[i + 1..], q);
    WhereNone(s[..i + 1], q);
    WhereAll(s[i + 1..], q);
  }

  /** The watermark of a part of the log separates that part's events from all later ones. */
  lemma {:induction false} WatermarkCuts(log: seq<Event>, n: nat, e: Event)
    requires Increasing(log) && n <= |log|
    ensures e in log[..n] ==> e.id <= Watermark(log[..n])
    ensures (forall x | x in log :: x.id >= 1) && e in log[n..] ==> e.id > Watermark(log[..n])
  {
    if e in log[n..] {
      var i :| n <= i < |log| && log[i] == e;
      assert n > 0 ==> log[n - 1].id < log[i].id;
    }
  }

  // ---------- what is read ----------

  lemma {:induction false} DeliveriesAt(events: seq<Event>, view: View)
    ensures |AsDeliveries(events, view)| == |events|
    ensures forall i | 0 <= i < |events| :: AsDeliveries(events, view)[i] == Delivery(events[i], !Selected(view, events[i]))
  {
    if events != [] {
      DeliveriesAt(events[..|events| - 1], view);
    }
  }

  lemma {:induction false} DueRows(log: seq<Event>, after: nat, view: View)
    requires Increasing(log)
    ensures Increasing(Where(log, After(view, after)))
    ensures forall e :: e in Where(log, After(view, after)) <==> e in log && Due(view, after, e)
  {
    WhereIncreases(log, After(view, after));
    forall e ensures e in Where(log, After(view, after)) <==> e in log && Due(view, after, e) {
      WhereMember(log, After(view, after), e);
    }
  }

  /** The deliveries of the first rows are sound, and are of just those rows. */
  lemma {:induction false} FirstRowsDelivered(log: seq<Event>, after: nat, view: View, rows: seq<Event>, k: nat)
    requires Increasing(rows) && k <= |rows|
    requires forall e :: e in rows <==> e in log && Due(view, after, e)
    ensures Sound(log, after, view, AsDeliveries(rows[..k], view))
    ensures forall e :: Delivered(AsDeliveries(rows[..k], view), e) <==> e in rows[..k]
  {
    var ds := AsDeliveries(rows[..k], view);
    DeliveriesAt(rows[..k], view);
    forall d | d in ds ensures d.event in rows && (d.dashboardOnly <==> !Selected(view, d.event)) {
      var i :| 0 <= i < |ds| && ds[i] == d;
    }
    forall e | e in rows[..k] ensures Delivered(ds, e) {
      var i :| 0 <= i < k && rows[i] == e;
      assert ds[i] in ds;
    }
  }

  /** One read delivers, each once and in id order, the due events from the first on, up to 500 of them;
      each is marked for the dashboard only exactly when the view does not select it. */
  lemma {:induction false} ReadDeliversDue(log: seq<Event>, after: nat, view: View)
    requires Increasing(log)
    ensures var ds := ReadDeliveries(log, after, view);
            && Sound(log, after, view, ds) && |ds| <= 500
            && forall e | e in log && Due(view, after, e) ::
                 Delivered(ds, e) || (|ds| == 500 && e.id > ds[499].event.id)
  {
    var rows := Where(log, After(view, after));
    var k := if |rows| <= 500 then |rows| else 500;
    assert Limit(rows, MAX_EVENT_PAGE_LIMIT) == rows[..k];
    DueRows(log, after, view);
    FirstRowsDelivered(log, after, view, rows, k);
    DeliveriesAt(rows[..k], view);
    forall e | e in log && Due(view, after, e)
      ensures e in rows[..k] || (k == 500 && e.id > rows[499].id)
    {
      var i :| 0 <= i < |rows| && rows[i] == e;
      assert i < k ==> rows[..k][i] == e;
    }
  }

  /** Nothing stored is out of reach: diagnostics holds all of activity, it and the dashboard between them
      every event, and both ordinary views the event that ends a run, which no replay shows off channel. */
  lemma {:induction false} ViewsCover(e: Event)
    ensures Selected(Activity, e) ==> Selected(Diagnostics, e)
    ensures Selected(Diagnostics, e) || ForDashboard(e)
    ensures Selected(Dashboard, e) <==> ForDashboard(e)
    ensures TerminalEvent(e) ==> Selected(Activity, e) && Selected(Diagnostics, e) && !ForDashboard(e)
  {
  }

  // ---------- the events of a view ----------

  function ViewEvents(log: seq<Event>, view: View): seq<Event> {
    if log == [] then []
    else ViewEvents(log[..|log| - 1], view) + if Selected(view, log[|log| - 1]) then [log[|log| - 1]] else []
  }

  lemma {:induction false} ViewIsWhere(log: seq<Event>, view: View)
    ensures Where(log, InView(view)) == ViewEvents(log, view)
  {
    if log != [] {
      ViewIsWhere(log[..|log| - 1], view);
    }
  }
}
