/** Following the log forwards: what a replay delivers, on which channel, and what paging back and
    replaying show between them. */
module EventReplay {
  import opened Common
  import opened EventHistory
  import opened EventPaging

  // ---------- the replay ----------

  function UpToTerminal(events: seq<Event>): seq<Event> {
    if events == [] then []
    else if TerminalEvent(events[0]) then [events[0]]
    else [events[0]] + UpToTerminal(events[1..])
  }

  lemma {:induction false} UpToTerminalConcat(a: seq<Event>, b: seq<Event>)
    requires forall e | e in a :: !TerminalEvent(e)
    ensures UpToTerminal(a + b) == a + UpToTerminal(b)
  {
    if a == [] {
      assert a + b == b;
    } else {
      assert (a + b)[1..] == a[1..] + b;
      UpToTerminalConcat(a[1..], b);
      assert [a[0]] + (a[1..] + UpToTerminal(b)) == a + UpToTerminal(b);
    }
  }

  lemma {:induction false} UpToTerminalPrefix(a: seq<Event>, b: seq<Event>, t: nat)
    requires t < |a| && TerminalEvent(a[t]) && forall i | 0 <= i < t :: !TerminalEvent(a[i])
    ensures UpToTerminal(a + b) == a[..t + 1]
  {
    if t > 0 {
      assert (a + b)[1..] == a[1..] + b;
      UpToTerminalPrefix(a[1..], b, t - 1);
      assert [a[0]] + a[1..][..t] == a[..t + 1];
    } else {
      assert (a + b)[0] == a[0];
    }
  }

  /** What a replay from `after` owes a reader, of the log as it is when the replay ends. */
  ghost function Owed(log: seq<Event>, after: nat, view: View): seq<Event> {
    UpToTerminal(Where(log, After(view, after)))
  }

  // ---------- what is owed, told by members ----------

  /** An event before `id` that was due has ended the replay. */
  ghost predicate Ended(log: seq<Event>, after: nat, view: View, id: nat) {
    exists t | t in log :: Due(view, after, t) && TerminalEvent(t) && t.id < id
  }

  /** Every due event up to the first that ends the run, each once, in id order and on its channel; no others. */
  ghost predicate DeliversDue(log: seq<Event>, after: nat, view: View, ds: seq<Delivery>) {
    && Sound(log, after, view, ds)
    && forall e | e in log :: Delivered(ds, e) <==> Due(view, after, e) && !Ended(log, after, view, e.id)
  }

  lemma {:induction false} UpToTerminalCut(events: seq<Event>) returns (k: nat)
    ensures k <= |events| && UpToTerminal(events) == events[..k]
    ensures Unfinished(events[..k]) ==> k == |events|
    ensures !Unfinished(events[..k]) ==> Stops(events, k)
  {
    if events == [] {
      k := 0;
    } else if TerminalEvent(events[0]) {
      k := 1;
      assert events[..1] == [events[0]] && events[0] in events[..1];
    } else {
      var rest := UpToTerminalCut(events[1..]);
      k := rest + 1;
      assert events[..k] == [events[0]] + events[1..][..rest];
      if !Unfinished(events[..k]) {
        assert Stops(events[1..], rest);
        assert forall j | 0 <= j < k - 1 :: events[j] == if j == 0 then events[0] else events[1..][j - 1];
      }
    }
  }

  /** The rows a replay owes are exactly those no earlier row ends. */
  lemma {:induction false} OwedRow(rows: seq<Event>, k: nat, i: nat)
    requires Increasing(rows) && k <= |rows| && i < |rows|
    requires (Unfinished(rows[..k]) && k == |rows|) || Stops(rows, k)
    ensures i < k <==> forall j | 0 <= j < |rows| && TerminalEvent(rows[j]) :: rows[j].id >= rows[i].id
  {
    if k == |rows| && Unfinished(rows[..k]) {
      assert forall j | 0 <= j < |rows| :: rows[..k][j] == rows[j];
      forall j | 0 <= j < |rows| ensures !TerminalEvent(rows[j]) {
        assert rows[..k][j] in rows[..k];
      }
    }
  }

  /** A replay's deliveries answer to that account. */
  lemma {:induction false} ReplayDeliversDue(log: seq<Event>, after: nat, view: View)
    requires Increasing(log)
    ensures DeliversDue(log, after, view, AsDeliveries(Owed(log, after, view), view))
  {
    var rows := Where(log, After(view, after));
    DueRows(log, after, view);
    var k := UpToTerminalCut(rows);
    FirstRowsDelivered(log, after, view, rows, k);
    forall e | e in log && Due(view, after, e) ensures e in rows[..k] <==> !Ended(log, after, view, e.id) {
      var i :| 0 <= i < |rows| && rows[i] == e;
      OwedRow(rows, k, i);
      RowAt(rows, k, i);
      EndedByRow(log, after, view, rows, e.id);
    }
  }

  lemma {:induction false} RowAt(rows: seq<Event>, k: nat, i: nat)
    requires Increasing(rows) && k <= |rows| && i < |rows|
    ensures rows[i] in rows[..k] <==> i < k
  {
    if i < k {
      assert rows[..k][i] == rows[i];
    }
  }

  lemma {:induction false} EndedByRow(log: seq<Event>, after: nat, view: View, rows: seq<Event>, id: nat)
    requires forall e :: e in rows <==> e in log && Due(view, after, e)
    ensures Ended(log, after, view, id) <==> exists j | 0 <= j < |rows| && TerminalEvent(rows[j]) :: rows[j].id < id
  {
    if Ended(log, after, view, id) {
      var t :| t in log && Due(view, after, t) && TerminalEvent(t) && t.id < id;
      var j :| 0 <= j < |rows| && rows[j] == t;
    }
    if j :| 0 <= j < |rows| && TerminalEvent(rows[j]) && rows[j].id < id {
      assert rows[j] in rows;
    }
  }

  /** A full batch from an earlier state of the log is the start of what any later state still owes. */
  lemma {:induction false} LaterThan(log: seq<Event>, after: nat, view: View, batch: seq<Event>, n: nat)
    requires Increasing(log) && n <= |log|
    requires batch == Limit(Where(log[..n], After(view, after)), MAX_EVENT_PAGE_LIMIT)
    requires |batch| == MAX_EVENT_PAGE_LIMIT
    ensures Where(log, After(view, after)) == batch + Where(log, After(view, batch[|batch| - 1].id))
    ensures batch[|batch| - 1] in log && batch[|batch| - 1].id > after
  {
    var rows, i := Where(log, After(view, after)), |batch| - 1;
    assert log == log[..n] + log[n..];
    WhereConcat(log[..n], log[n..], After(view, after));
    assert batch == rows[..i + 1] && batch[i] == rows[i];
    AfterRow(log, after, view, rows, i);
  }

  lemma {:induction false} AfterRow(log: seq<Event>, after: nat, view: View, rows: seq<Event>, i: nat)
    requires Increasing(log) && rows == Where(log, After(view, after)) && i < |rows|
    ensures rows == rows[..i + 1] + Where(log, After(view, rows[i].id))
    ensures rows[i] in log && rows[i].id > after
  {
    WhereIncreases(log, After(view, after));
    WhereMember(log, After(view, after), rows[i]);
    var above := Query(All, None, None, Some(rows[i].id));
    AboveRow(rows, i, above);
    WhereTwice(log, After(view, after), above, After(view, rows[i].id));
  }

  lemma {:induction false} OwedWhenShort(log: seq<Event>, after: nat, view: View, sent: seq<Event>, rows: seq<Event>)
    requires Where(log, After(view, after)) == sent + rows
    requires forall e | e in sent + rows :: !TerminalEvent(e)
    ensures Owed(log, after, view) == sent + rows
  {
    UpToTerminalConcat(sent + rows, []);
    assert sent + rows + [] == sent + rows;
  }

  lemma {:induction false} OwedAtTerminal(log: seq<Event>, after: nat, view: View, sent: seq<Event>, rows: seq<Event>, i: nat)
    requires Where(log, After(view, after)) == sent + rows && i < |rows| && TerminalEvent(rows[i])
    requires (forall e | e in sent :: !TerminalEvent(e)) && forall j | 0 <= j < i :: !TerminalEvent(rows[j])
    ensures Owed(log, after, view) == sent + rows[..i + 1]
  {
    UpToTerminalConcat(sent, rows);
    UpToTerminalPrefix(rows, [], i);
    assert rows + [] == rows;
  }

  /** Each read of a replay sees at least what the one before saw. */
  ghost predicate Growing(sees: nat -> nat, bound: nat) {
    && (forall k: nat :: sees(k) <= bound)
    && (forall j: nat, k: nat | j <= k :: sees(j) <= sees(k))
  }

  /** `sent` followed by what is later than the cursor is all a log owes, for every later state of the log. */
  ghost predicate SentSoFar(log: seq<Event>, n: nat, after: nat, view: View, sent: seq<Event>, cursor: nat) {
    forall m | n <= m <= |log| ::
      Where(log[..m], After(view, after)) == sent + Where(log[..m], After(view, cursor))
  }

  lemma {:induction false} BatchSent(log: seq<Event>, n: nat, after: nat, view: View, sent: seq<Event>, cursor: nat, batch: seq<Event>)
    requires Increasing(log) && n <= |log|
    requires SentSoFar(log, n, after, view, sent, cursor)
    requires batch == Limit(Where(log[..n], After(view, cursor)), MAX_EVENT_PAGE_LIMIT)
    requires |batch| == MAX_EVENT_PAGE_LIMIT
    ensures SentSoFar(log, n, after, view, sent + batch, batch[|batch| - 1].id)
    ensures cursor < batch[|batch| - 1].id <= Watermark(log)
  {
    var next := batch[|batch| - 1].id;
    forall m | n <= m <= |log|
      ensures Where(log[..m], After(view, after)) == (sent + batch) + Where(log[..m], After(view, next))
    {
      assert log[..m][..n] == log[..n];
      LaterThan(log[..m], cursor, view, batch, n);
      assert (sent + batch) + Where(log[..m], After(view, next)) == sent + (batch + Where(log[..m], After(view, next)));
    }
    LaterThan(log, cursor, view, batch, n);
    WatermarkCuts(log, |log|, batch[|batch| - 1]);
    assert log[..|log|] == log;
  }

  lemma {:induction false} SentLater(log: seq<Event>, n: nat, n': nat, after: nat, view: View, sent: seq<Event>, cursor: nat)
    requires SentSoFar(log, n, after, view, sent, cursor) && n <= n'
    ensures SentSoFar(log, n', after, view, sent, cursor)
  {
  }

  ghost predicate SentPart(batch: seq<Delivery>, sent: seq<Delivery>, terminal: bool) {
    && |sent| <= |batch| && sent == batch[..|sent|]
    && (!terminal ==> |sent| == |batch| && forall j | 0 <= j < |batch| :: !TerminalEvent(batch[j].event))
    && (terminal ==> sent != [] && TerminalEvent(batch[|sent| - 1].event)
                     && forall j | 0 <= j < |sent| - 1 :: !TerminalEvent(batch[j].event))
  }

  /** The frames of one batch: it stops after a terminal event. */
  method SendBatch(batch: seq<Delivery>) returns (sent: seq<Delivery>, terminal: bool)
    ensures SentPart(batch, sent, terminal)
  {
    sent := [];
    var i := 0;
    while i < |batch|
      invariant 0 <= i <= |batch| && sent == batch[..i]
      invariant forall j | 0 <= j < i :: !TerminalEvent(batch[j].event)
    {
      sent := sent + [batch[i]];
      if TerminalEvent(batch[i].event) { return sent, true; }
      i := i + 1;
    }
    terminal := false;
  }

  lemma {:induction false} DeliveriesConcat(a: seq<Event>, b: seq<Event>, view: View)
    ensures AsDeliveries(a + b, view) == AsDeliveries(a, view) + AsDeliveries(b, view)
  {
    if b == [] {
      assert a + b == a;
    } else {
      assert (a + b)[..|a + b| - 1] == a + b[..|b| - 1];
      DeliveriesConcat(a, b[..|b| - 1], view);
    }
  }

  /** The first `i` events end at the first terminal one. */
  ghost predicate Stops(events: seq<Event>, i: nat) {
    && 1 <= i <= |events| && TerminalEvent(events[i - 1])
    && forall j | 0 <= j < i - 1 :: !TerminalEvent(events[j])
  }

  /** How a replay ends: at a terminal event or a short batch everything owed has been delivered. */
  lemma {:induction false} ReplayEnds(log: seq<Event>, after: nat, view: View, sent: seq<Event>, cursor: nat, i: nat, terminal: bool)
    requires Where(log, After(view, after)) == sent + Where(log, After(view, cursor)) && Unfinished(sent)
    requires var events := Limit(Where(log, After(view, cursor)), MAX_EVENT_PAGE_LIMIT);
             && i <= |events|
             && (terminal ==> Stops(events, i))
             && (!terminal ==> i == |events| < MAX_EVENT_PAGE_LIMIT && Unfinished(events))
    ensures Owed(log, after, view) == sent + Limit(Where(log, After(view, cursor)), MAX_EVENT_PAGE_LIMIT)[..i]
  {
    var rows := Where(log, After(view, cursor));
    if terminal {
      OwedAtTerminal(log, after, view, sent, rows, i - 1);
      assert rows[..i] == Limit(rows, MAX_EVENT_PAGE_LIMIT)[..i];
    } else {
      OwedWhenShort(log, after, view, sent, rows);
      assert rows[..i] == rows;
    }
  }

  /** The replay loop. It ends after a terminal event or a short batch, and has then delivered exactly what
      is owed of the log its last read saw; `ReplayDeliversDue` says which events those are. */
  method Replay(log: seq<Event>, sees: nat -> nat, after: nat, view: View)
    returns (delivered: seq<Delivery>, last: nat)
    requires Increasing(log) && Growing(sees, |log|)
    ensures sees(last) <= |log|
    ensures delivered == AsDeliveries(Owed(log[..sees(last)], after, view), view)
  {
    var cursor := after;
    last := 0;
    delivered := [];
    ghost var sent: seq<Event> := [];
    while true
      invariant delivered == AsDeliveries(sent, view) && Unfinished(sent)
      invariant SentSoFar(log, sees(last), after, view, sent, cursor)
      decreases Watermark(log) - cursor
    {
      var n := sees(last);
      var batch := ReadDeliveries(log[..n], cursor, view);
      ghost var rows := Where(log[..n], After(view, cursor));
      ghost var events := Limit(rows, MAX_EVENT_PAGE_LIMIT);
      if batch == [] {
        NothingLeft(log[..n], after, view, sent, cursor);
        return;
      }
      var frames, terminal := SendBatch(batch);
      FramesSent(sent, events, batch, view, frames, terminal);
      delivered := delivered + frames;
      if terminal || |batch| < MAX_EVENT_PAGE_LIMIT {
        ReplayEnds(log[..n], after, view, sent, cursor, |frames|, terminal);
        return;
      }
      BatchSent(log, n, after, view, sent, cursor, events);
      StillUnfinished(sent, events, |frames|);
      cursor := batch[|batch| - 1].event.id;
      assert cursor == events[|events| - 1].id;
      sent := sent + events;
      last := last + 1;
      SentLater(log, n, sees(last), after, view, sent, cursor);
    }
  }

  ghost predicate Unfinished(events: seq<Event>) {
    forall e | e in events :: !TerminalEvent(e)
  }

  lemma {:induction false} StillUnfinished(sent: seq<Event>, events: seq<Event>, n: nat)
    requires Unfinished(sent) && Unfinished(events) && n == |events|
    ensures Unfinished(sent + events) && events[..n] == events
  {
  }

  lemma {:induction false} NothingLeft(log: seq<Event>, after: nat, view: View, sent: seq<Event>, cursor: nat)
    requires Where(log, After(view, after)) == sent + Where(log, After(view, cursor))
    requires Unfinished(sent) && ReadDeliveries(log, cursor, view) == []
    ensures Owed(log, after, view) == sent
  {
    DeliveriesAt(Limit(Where(log, After(view, cursor)), MAX_EVENT_PAGE_LIMIT), view);
    OwedWhenShort(log, after, view, sent, []);
    assert sent + [] == sent;
  }

  /** The frames of a batch, appended to what was delivered, are the deliveries of its events so far. */
  lemma {:induction false} FramesSent(sent: seq<Event>, events: seq<Event>, batch: seq<Delivery>, view: View, frames: seq<Delivery>,
                   terminal: bool)
    requires batch == AsDeliveries(events, view) && SentPart(batch, frames, terminal)
    ensures |batch| == |events| && |frames| <= |events|
    ensures batch != [] ==> batch[|batch| - 1].event == events[|events| - 1]
    ensures terminal ==> Stops(events, |frames|)
    ensures !terminal ==> |frames| == |events| && Unfinished(events)
    ensures AsDeliveries(sent, view) + frames == AsDeliveries(sent + events[..|frames|], view)
  {
    DeliveriesAt(events, view);
    FramesAreEvents(batch, events, view, frames);
    DeliveriesConcat(sent, events[..|frames|], view);
  }

  lemma {:induction false} FramesAreEvents(batch: seq<Delivery>, events: seq<Event>, view: View, frames: seq<Delivery>)
    requires batch == AsDeliveries(events, view) && |frames| <= |batch| && frames == batch[..|frames|]
    ensures |batch| == |events| && frames == AsDeliveries(events[..|frames|], view)
  {
    DeliveriesAt(events, view);
    DeliveriesAt(events[..|frames|], view);
    DeliveriesConcat(events[..|frames|], events[|frames|..], view);
    assert events[..|frames|] + events[|frames|..] == events;
  }

  // ---------- both together ----------

  /** Of what a replay delivers, the part on the view's own channel. */
  function OnChannel(deliveries: seq<Delivery>): seq<Event> {
    if deliveries == [] then []
    else
      var last := deliveries[|deliveries| - 1];
      OnChannel(deliveries[..|deliveries| - 1]) + if last.dashboardOnly then [] else [last.event]
  }

  lemma {:induction false} OnChannelIsView(events: seq<Event>, view: View)
    ensures OnChannel(AsDeliveries(events, view)) == Where(events, InView(view))
  {
    if events != [] {
      var front, last := events[..|events| - 1], events[|events| - 1];
      OnChannelIsView(front, view);
      OnChannelSnoc(AsDeliveries(front, view), Delivery(last, !Selected(view, last)));
    }
  }

  lemma {:induction false} OnChannelSnoc(deliveries: seq<Delivery>, d: Delivery)
    ensures OnChannel(deliveries + [d]) == OnChannel(deliveries) + if d.dashboardOnly then [] else [d.event]
  {
    assert (deliveries + [d])[..|deliveries|] == deliveries;
  }

  /** A run's terminal event is its last. */
  ghost predicate OnlyLastTerminal(log: seq<Event>) {
    forall i | 0 <= i < |log| - 1 :: !TerminalEvent(log[i])
  }

  /** Pages walked back from the start of a session, then a replay from the first page's cursor: every event
      of the view is shown exactly once and in order, up to the end of what the replay saw; and for the dashboard
      only, in id order, every event since the first page that it draws and the view does not select. */
  lemma {:induction false} HistoryThenReplay(s: Schedule, limit: nat, view: View, seen: nat)
    requires limit >= 1 && s.marks(0) <= seen <= |s.log|
    requires OnlyLastTerminal(s.log[..seen])
    ensures var pages := HistoryWalk(s, limit, view);
            var ds := AsDeliveries(Owed(s.log[..seen], pages[0].streamCursor, view), view);
            && Collected(pages) + OnChannel(ds) == ViewEvents(s.log[..seen], view)
            && OffChannel(s.log[s.marks(0)..seen], view, ds)
  {
    WalkFromTheStart(s, limit, view);
    ReplayedPart(s.log, s.marks(0), seen, view);
    WhereSplit(s.log, s.marks(0), seen, InView(view));
    ViewIsWhere(s.log[..seen], view);
    ViewIsWhere(s.log[s.marks(0)..seen], view);
  }

  lemma {:induction false} WhereSplit(log: seq<Event>, n: nat, seen: nat, q: Query)
    requires n <= seen <= |log|
    ensures Where(log[..seen], q) == Where(log[..n], q) + Where(log[n..seen], q)
  {
    assert log[..seen] == log[..n] + log[n..seen];
    WhereConcat(log[..n], log[n..seen], q);
  }

  /** While no event but the last ends the run, a replay owes every deliverable event. */
  lemma {:induction false} OwedIsAll(log: seq<Event>, after: nat, view: View)
    requires OnlyLastTerminal(log)
    ensures Owed(log, after, view) == Where(log, After(view, after))
  {
    if log == [] {
    } else {
      var front, last := log[..|log| - 1], log[|log| - 1];
      var rows, tail := Where(front, After(view, after)), if Matches(After(view, after), last) then [last] else [];
      forall e | e in rows ensures !TerminalEvent(e) {
        WhereMember(front, After(view, after), e);
      }
      UpToTerminalConcat(rows, tail);
      assert UpToTerminal(tail) == tail;
    }
  }

  /** A replay from a watermark shows, on the view's own channel, exactly the later events of the view, and
      off it exactly the later events only the dashboard draws. */
  lemma {:induction false} ReplayedPart(log: seq<Event>, n: nat, seen: nat, view: View)
    requires ValidLog(log) && n <= seen <= |log|
    requires OnlyLastTerminal(log[..seen])
    ensures var ds := AsDeliveries(Owed(log[..seen], Watermark(log[..n]), view), view);
            OnChannel(ds) == ViewEvents(log[n..seen], view) && OffChannel(log[n..seen], view, ds)
  {
    var cursor := Watermark(log[..n]);
    var rows := Where(log[..seen], After(view, cursor));
    OwedIsAll(log[..seen], cursor, view);
    OnChannelIsView(rows, view);
    LaterRowsOnly(log, n, seen, view);
    ViewIsWhere(log[n..seen], view);
    OffChannelPart(log, n, seen, view);
  }

  /** The deliveries marked for the dashboard only: in id order, of just the events only it draws. */
  ghost predicate OffChannel(log: seq<Event>, view: View, ds: seq<Delivery>) {
    && (forall i, j | 0 <= i < j < |ds| :: ds[i].event.id < ds[j].event.id)
    && forall e :: Delivery(e, true) in ds <==> e in log && ForDashboard(e) && !Selected(view, e)
  }

  /** Until the last event nothing ends the run, so everything due is delivered. */
  lemma {:induction false} NothingEnds(log: seq<Event>, after: nat, view: View, e: Event)
    requires Increasing(log) && OnlyLastTerminal(log) && e in log
    ensures !Ended(log, after, view, e.id)
  {
    var i :| 0 <= i < |log| && log[i] == e;
    forall t | t in log && TerminalEvent(t) ensures t.id >= e.id {
      var j :| 0 <= j < |log| && log[j] == t;
    }
  }

  lemma {:induction false} OffChannelPart(log: seq<Event>, n: nat, seen: nat, view: View)
    requires ValidLog(log) && n <= seen <= |log|
    requires OnlyLastTerminal(log[..seen])
    ensures OffChannel(log[n..seen], view, AsDeliveries(Owed(log[..seen], Watermark(log[..n]), view), view))
  {
    var after := Watermark(log[..n]);
    var ds := AsDeliveries(Owed(log[..seen], after, view), view);
    ReplayDeliversDue(log[..seen], after, view);
    LaterIds(log, n, seen);
    forall e ensures Delivery(e, true) in ds <==> e in log[n..seen] && ForDashboard(e) && !Selected(view, e) {
      EitherPart(log, n, seen, e);
      if e in log[..seen] {
        NothingEnds(log[..seen], after, view, e);
        WatermarkCuts(log, n, e);
      }
    }
  }

  lemma {:induction false} EitherPart(log: seq<Event>, n: nat, seen: nat, e: Event)
    requires n <= seen <= |log|
    ensures e in log[..seen] <==> e in log[..n] || e in log[n..seen]
  {
    assert log[..seen] == log[..n] + log[n..seen];
  }

  lemma {:induction false} LaterIds(log: seq<Event>, n: nat, seen: nat)
    requires ValidLog(log) && n <= seen <= |log|
    ensures forall e | e in log[n..seen] :: e.id > Watermark(log[..n])
  {
    forall e | e in log[n..seen] ensures e.id > Watermark(log[..n]) {
      var i :| n <= i < seen && log[i] == e;
      assert log[n..][i - n] == e;
      WatermarkCuts(log, n, e);
    }
  }

  lemma {:induction false} LaterRowsOnly(log: seq<Event>, n: nat, seen: nat, view: View)
    requires ValidLog(log) && n <= seen <= |log|
    ensures var q := After(view, Watermark(log[..n]));
            Where(Where(log[..seen], q), InView(view)) == Where(log[n..seen], InView(view))
  {
    var q := After(view, Watermark(log[..n]));
    assert log[..seen] == log[..n] + log[n..seen];
    WhereConcat(log[..n], log[n..seen], q);
    NoneBeforeWatermark(log, n, q, view);
    assert [] + Where(log[n..seen], q) == Where(log[n..seen], q);
    ViewAfterWatermark(log, n, seen, q, view);
  }

  lemma {:induction false} NoneBeforeWatermark(log: seq<Event>, n: nat, q: Query, view: View)
    requires ValidLog(log) && n <= |log| && q == After(view, Watermark(log[..n]))
    ensures Where(log[..n], q) == []
  {
    forall e | e in log[..n] ensures !Matches(q, e) {
      WatermarkCuts(log, n, e);
    }
    WhereNone(log[..n], q);
  }

  lemma {:induction false} ViewAfterWatermark(log: seq<Event>, n: nat, seen: nat, q: Query, view: View)
    requires ValidLog(log) && n <= seen <= |log| && q == After(view, Watermark(log[..n]))
    ensures Where(Where(log[n..seen], q), InView(view)) == Where(log[n..seen], InView(view))
  {
    LaterIds(log, n, seen);
    WhereTwice(log[n..seen], q, InView(view), InView(view));
  }
}
