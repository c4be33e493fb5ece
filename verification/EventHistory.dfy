/** A reader that walks history backwards while it grows and then replays forwards from its first page. */
module EventHistory {
  import opened Common
  import opened EventPaging

  /** The log as it finally is, and how much of it request `k` sees: first for its watermark, then for its rows. */
  datatype Timeline = Timeline(log: seq<Event>, marks: nat -> nat, rows: nat -> nat)

  ghost predicate ValidSchedule(s: Timeline) {
    && ValidLog(s.log)
    && (forall k: nat :: s.marks(k) <= s.rows(k) <= |s.log|)
    && (forall j: nat, k: nat | j <= k :: s.marks(j) <= s.marks(k))
  }

  type Schedule = s: Timeline | ValidSchedule(s) ghost witness Timeline([], (k: nat) => 0, (k: nat) => 0)

  ghost predicate ValidLog(log: seq<Event>) {
    Increasing(log) && forall e | e in log :: e.id >= 1
  }

  ghost function RequestPage(s: Schedule, k: nat, before: Option<nat>, limit: nat, view: View): Page
  {
    ReadPage(s.log[..s.marks(k)], s.log[..s.rows(k)], before, limit, view)
  }

  /** The part of the log that the first request's watermark covers. */
  ghost function FirstSeen(s: Schedule): seq<Event>
  {
    s.log[..s.marks(0)]
  }

  // ---------- one page ----------

  /** What a request may still return, whatever was appended in the meantime: the rows of the first
      request's watermark that are in the view and below the cursor it was given. */
  function Remaining(seen: seq<Event>, before: Option<nat>, view: View): seq<Event> {
    Where(Where(seen, InView(view)), Below(before))
  }

  /** A cursor only ever comes from an event the first request saw. */
  ghost predicate Cursor(seen: seq<Event>, k: nat, before: Option<nat>) {
    if before.None? then k == 0 else before.value <= Watermark(seen)
  }

  lemma {:induction false} PageRowsAreRemaining(log: seq<Event>, n0: nat, n1: nat, n2: nat, before: Option<nat>, view: View)
    requires ValidLog(log) && n0 <= n1 <= n2 <= |log|
    requires if before.None? then n0 == n1 else before.value <= Watermark(log[..n0])
    ensures Where(log[..n2], PageRow(view, Watermark(log[..n1]), before)) == Remaining(log[..n0], before, view)
  {
    var q := PageRow(view, Watermark(log[..n1]), before);
    assert log[..n2] == log[..n0] + log[n0..n2];
    WhereConcat(log[..n0], log[n0..n2], q);
    LaterRowsExcluded(log, n0, n1, n2, before, view);
    forall e | e in log[..n0] ensures Matches(q, e) <==> Matches(InView(view), e) && Matches(Below(before), e) {
      var i :| 0 <= i < n0 && log[i] == e;
      assert log[..n1][i] == e;
      WatermarkCuts(log, n1, e);
    }
    WhereTwice(log[..n0], InView(view), Below(before), q);
  }

  lemma {:induction false} LaterRowsExcluded(log: seq<Event>, n0: nat, n1: nat, n2: nat, before: Option<nat>, view: View)
    requires ValidLog(log) && n0 <= n1 <= n2 <= |log|
    requires if before.None? then n0 == n1 else before.value <= Watermark(log[..n0])
    ensures Where(log[n0..n2], PageRow(view, Watermark(log[..n1]), before)) == []
  {
    var q := PageRow(view, Watermark(log[..n1]), before);
    forall e | e in log[n0..n2] ensures !Matches(q, e) {
      var i :| n0 <= i < n2 && log[i] == e;
      assert log[n0..][i - n0] == e;
      WatermarkCuts(log, n0, e);
    }
    WhereNone(log[n0..n2], q);
  }

  /** A page is the end of what remains, ascending; its cursor is there exactly when something is left. */
  predicate IsTail(page: Page, rest: seq<Event>, limit: nat)
    requires limit >= 1
  {
    if |rest| <= limit then page.events == rest && page.nextBefore == None
    else page.events == rest[|rest| - limit..] && page.nextBefore == Some(rest[|rest| - limit].id)
  }

  lemma {:induction false} PageIsTail(s: Schedule, k: nat, before: Option<nat>, limit: nat, view: View)
    requires limit >= 1 && Cursor(FirstSeen(s), k, before)
    ensures IsTail(RequestPage(s, k, before, limit, view), Remaining(FirstSeen(s), before, view), limit)
  {
    var n0, n1, n2 := s.marks(0), s.marks(k), s.rows(k);
    assert n0 <= n1 <= n2 <= |s.log|;
    var rest := Remaining(FirstSeen(s), before, view);
    assert rest == Where(s.log[..n2], PageRow(view, Watermark(s.log[..n1]), before)) by {
      PageRowsAreRemaining(s.log, n0, n1, n2, before, view);
    }
    PageOfRows(s.log[..n1], s.log[..n2], before, limit, view, rest);
  }

  lemma {:induction false} PageOfRows(atMark: seq<Event>, atRows: seq<Event>, before: Option<nat>, limit: nat, view: View, rest: seq<Event>)
    requires limit >= 1 && rest == Where(atRows, PageRow(view, Watermark(atMark), before))
    ensures IsTail(ReadPage(atMark, atRows, before, limit, view), rest, limit)
  {
    ReversedTail(rest, limit);
  }

  // ---------- the walk ----------

  lemma {:induction false} RemainingFacts(seen: seq<Event>, before: Option<nat>, view: View)
    requires ValidLog(seen)
    ensures Increasing(Remaining(seen, before, view))
    ensures forall e | e in Remaining(seen, before, view) :: e.id <= Watermark(seen)
  {
    var base := Where(seen, InView(view));
    WhereIncreases(seen, InView(view));
    WhereIncreases(base, Below(before));
    forall e | e in Remaining(seen, before, view) ensures e.id <= Watermark(seen) {
      WhereMember(base, Below(before), e);
      WhereMember(seen, InView(view), e);
      assert seen[..|seen|] == seen;
      WatermarkCuts(seen, |seen|, e);
    }
  }

  /** Moving the cursor to the first event of a page leaves exactly what was before that page. */
  lemma {:induction false} RemainingBelow(seen: seq<Event>, before: Option<nat>, view: View, i: nat)
    requires ValidLog(seen) && i < |Remaining(seen, before, view)|
    ensures Remaining(seen, Some(Remaining(seen, before, view)[i].id), view) == Remaining(seen, before, view)[..i]
  {
    var base := Where(seen, InView(view));
    var rest := Remaining(seen, before, view);
    var at := Some(rest[i].id);
    RemainingFacts(seen, before, view);
    WhereMember(base, Below(before), rest[i]);
    WhereTwice(base, Below(before), Below(at), Below(at));
    BelowRow(rest, i);
  }

  lemma {:induction false} CursorNeedsLimit(s: Schedule, k: nat, before: Option<nat>, limit: nat, view: View)
    ensures limit == 0 ==>
              RequestPage(s, k, before, limit, view).nextBefore.None? && RequestPage(s, k, before, limit, view).events == []
  {
  }

  lemma {:induction false} CursorMovesDown(s: Schedule, k: nat, before: Option<nat>, limit: nat, view: View)
    requires limit >= 1 && Cursor(FirstSeen(s), k, before)
    requires RequestPage(s, k, before, limit, view).nextBefore.Some?
    ensures var next := RequestPage(s, k, before, limit, view).nextBefore;
            var rest := Remaining(FirstSeen(s), before, view);
            && Cursor(FirstSeen(s), k + 1, next)
            && limit < |rest| && Remaining(FirstSeen(s), next, view) == rest[..|rest| - limit]
  {
    var rest := Remaining(FirstSeen(s), before, view);
    PageIsTail(s, k, before, limit, view);
    RemainingFacts(FirstSeen(s), before, view);
    RemainingBelow(FirstSeen(s), before, view, |rest| - limit);
    assert rest[|rest| - limit] in rest;
  }

  /** Where a reader gets its pages: the request's number and cursor. */
  type Source = (nat, Option<nat>) -> Page

  /** The source as the store answers while the log grows. */
  ghost function Requests(s: Schedule, limit: nat, view: View): Source {
    (k: nat, before: Option<nat>) => RequestPage(s, k, before, limit, view)
  }

  /** Every page of the source is the end of what remains of `seen`, and its cursor leaves the rest. */
  ghost predicate Serves(source: Source, seen: seq<Event>, limit: nat, view: View) {
    forall k: nat, before: Option<nat> | Cursor(seen, k, before) ::
      ServesAt(source(k, before), Remaining(seen, before, view), seen, k, limit, view)
  }

  ghost predicate ServesAt(page: Page, rest: seq<Event>, seen: seq<Event>, k: nat, limit: nat, view: View) {
    if limit == 0 then page.events == [] && page.nextBefore.None?
    else
      && IsTail(page, rest, limit)
      && (page.nextBefore.Some? ==>
            limit < |rest| && Cursor(seen, k + 1, page.nextBefore)
            && Remaining(seen, page.nextBefore, view) == rest[..|rest| - limit])
  }

  lemma {:induction false} RequestsServe(s: Schedule, limit: nat, view: View)
    ensures Serves(Requests(s, limit, view), FirstSeen(s), limit, view)
  {
    forall k: nat, before: Option<nat> | Cursor(FirstSeen(s), k, before)
      ensures ServesAt(RequestPage(s, k, before, limit, view), Remaining(FirstSeen(s), before, view), FirstSeen(s), k, limit, view)
    {
      if limit == 0 {
        CursorNeedsLimit(s, k, before, limit, view);
      } else {
        PageIsTail(s, k, before, limit, view);
        if RequestPage(s, k, before, limit, view).nextBefore.Some? {
          CursorMovesDown(s, k, before, limit, view);
        }
      }
    }
  }

  /** The pages a reader collects, latest request last, until a page has no cursor. */
  ghost function Walk(source: Source, seen: seq<Event>, k: nat, before: Option<nat>, limit: nat, view: View): seq<Page>
    requires Serves(source, seen, limit, view) && Cursor(seen, k, before)
    decreases |Remaining(seen, before, view)|
  {
    var page := source(k, before);
    assert ServesAt(page, Remaining(seen, before, view), seen, k, limit, view);
    if page.nextBefore.None? then [page] else [page] + Walk(source, seen, k + 1, page.nextBefore, limit, view)
  }

  /** The walk of a reader of the store, from its newest page. */
  ghost function HistoryWalk(s: Schedule, limit: nat, view: View): seq<Page> {
    RequestsServe(s, limit, view);
    Walk(Requests(s, limit, view), FirstSeen(s), 0, None, limit, view)
  }

  /** Older pages first, as a reader shows them. */
  function Collected(pages: seq<Page>): seq<Event> {
    if pages == [] then [] else Collected(pages[1..]) + pages[0].events
  }

  lemma {:induction false} CollectedFirst(page: Page, later: seq<Page>)
    ensures Collected([page] + later) == Collected(later) + page.events
    ensures Collected([page]) == page.events
  {
    assert ([page] + later)[1..] == later;
    assert [page][1..] == [] && [] + page.events == page.events;
  }

  /** Pages that cut `rest` up from its end, all full but the last. */
  predicate Cuts(pages: seq<Page>, rest: seq<Event>, limit: nat)
    requires limit >= 1
  {
    && pages != [] && IsTail(pages[0], rest, limit)
    && if pages[0].nextBefore.None? then |pages| == 1
       else limit < |rest| && Cuts(pages[1..], rest[..|rest| - limit], limit)
  }

  lemma {:induction false} CutsFirst(page: Page, later: seq<Page>, rest: seq<Event>, limit: nat)
    requires limit >= 1 && IsTail(page, rest, limit)
    ensures page.nextBefore.None? ==> Cuts([page], rest, limit)
    ensures page.nextBefore.Some? && limit < |rest| && Cuts(later, rest[..|rest| - limit], limit) ==>
              Cuts([page] + later, rest, limit)
  {
    assert ([page] + later)[1..] == later;
  }

  lemma {:induction false} CutsLater(pages: seq<Page>, rest: seq<Event>, limit: nat) returns (left: seq<Event>)
    requires limit >= 1 && Cuts(pages, rest, limit) && pages[0].nextBefore.Some?
    ensures rest == left + pages[0].events && |left| < |rest|
    ensures Cuts(pages[1..], left, limit) && pages == [pages[0]] + pages[1..]
  {
    left := rest[..|rest| - limit];
  }

  lemma {:induction false} CutsCollected(pages: seq<Page>, rest: seq<Event>, limit: nat)
    requires limit >= 1 && Cuts(pages, rest, limit)
    ensures Collected(pages) == rest
    decreases |rest|, |pages|
  {
    if pages[0].nextBefore.Some? {
      var left := CutsLater(pages, rest, limit);
      CutsCollected(pages[1..], left, limit);
    } else {
      assert pages == [pages[0]];
      CollectedFirst(pages[0], []);
    }
  }

  lemma {:induction false} CutsFull(pages: seq<Page>, rest: seq<Event>, limit: nat)
    requires limit >= 1 && Cuts(pages, rest, limit)
    ensures AllButLastFull(pages, limit)
  {
    if pages[0].nextBefore.Some? {
      CutsFull(pages[1..], rest[..|rest| - limit], limit);
    }
  }

  /** One request of a walk. */
  lemma {:induction false} WalkUnfolds(source: Source, seen: seq<Event>, k: nat, before: Option<nat>, limit: nat, view: View)
    returns (page: Page)
    requires Serves(source, seen, limit, view) && Cursor(seen, k, before)
    ensures ServesAt(page, Remaining(seen, before, view), seen, k, limit, view)
    ensures Walk(source, seen, k, before, limit, view) ==
            if page.nextBefore.None? then [page] else [page] + Walk(source, seen, k + 1, page.nextBefore, limit, view)
  {
    page := source(k, before);
  }

  /** The pages of a walk cut up what remains. */
  lemma {:induction false} WalkCuts(source: Source, seen: seq<Event>, k: nat, before: Option<nat>, limit: nat, view: View,
                                    rest: seq<Event>)
    requires Serves(source, seen, limit, view) && Cursor(seen, k, before) && limit >= 1
    requires rest == Remaining(seen, before, view)
    ensures Cuts(Walk(source, seen, k, before, limit, view), rest, limit)
    decreases |rest|
  {
    var page := WalkUnfolds(source, seen, k, before, limit, view);
    var later: seq<Page> := [];
    if page.nextBefore.Some? {
      later := Walk(source, seen, k + 1, page.nextBefore, limit, view);
      WalkCuts(source, seen, k + 1, page.nextBefore, limit, view, rest[..|rest| - limit]);
    }
    CutsFirst(page, later, rest, limit);
  }

  /** Walking back, every event still remaining is collected once, in order. */
  lemma {:induction false} WalkCollectsRemaining(source: Source, seen: seq<Event>, k: nat, before: Option<nat>, limit: nat, view: View)
    requires Serves(source, seen, limit, view) && Cursor(seen, k, before) && limit >= 1
    ensures Collected(Walk(source, seen, k, before, limit, view)) == Remaining(seen, before, view)
  {
    WalkCuts(source, seen, k, before, limit, view, Remaining(seen, before, view));
    CutsCollected(Walk(source, seen, k, before, limit, view), Remaining(seen, before, view), limit);
  }

  /** Every page but the last request's is full, so the walk takes no more requests than it must. */
  lemma {:induction false} WalkIsShort(s: Schedule, limit: nat, view: View)
    requires limit >= 1
    ensures AllButLastFull(HistoryWalk(s, limit, view), limit)
  {
    RequestsServe(s, limit, view);
    var rest := Remaining(FirstSeen(s), None, view);
    WalkCuts(Requests(s, limit, view), FirstSeen(s), 0, None, limit, view, rest);
    CutsFull(HistoryWalk(s, limit, view), rest, limit);
  }

  predicate AllButLastFull(pages: seq<Page>, limit: nat) {
    |pages| <= 1 || (|pages[0].events| == limit && AllButLastFull(pages[1..], limit))
  }

  // ---------- the whole walk ----------

  /** The whole walk shows every event of the view up to its first watermark, which is its stream cursor. */
  lemma {:induction false} WalkFromTheStart(s: Schedule, limit: nat, view: View)
    requires limit >= 1
    ensures var pages := HistoryWalk(s, limit, view);
            && pages != [] && pages[0].streamCursor == Watermark(FirstSeen(s))
            && Collected(pages) == ViewEvents(FirstSeen(s), view) == Where(FirstSeen(s), InView(view))
  {
    ViewIsWhere(FirstSeen(s), view);
    RequestsServe(s, limit, view);
    WalkCollectsRemaining(Requests(s, limit, view), FirstSeen(s), 0, None, limit, view);
    WhereAll(Where(FirstSeen(s), InView(view)), Below(None));
    FirstCursor(s, limit, view);
  }

  lemma {:induction false} FirstCursor(s: Schedule, limit: nat, view: View)
    ensures var pages := HistoryWalk(s, limit, view);
            pages != [] && pages[0].streamCursor == Watermark(FirstSeen(s))
  {
    assert HistoryWalk(s, limit, view)[0] == RequestPage(s, 0, None, limit, view);
  }

  /** A walk is complete if and only if its page limit is positive or there is nothing to show. */
  lemma {:induction false} WalkCompleteExactly(s: Schedule, limit: nat, view: View)
    ensures Collected(HistoryWalk(s, limit, view)) == Where(FirstSeen(s), InView(view)) <==>
            limit >= 1 || Where(FirstSeen(s), InView(view)) == []
  {
    if limit >= 1 {
      WalkFromTheStart(s, limit, view);
    } else {
      var page := RequestPage(s, 0, None, 0, view);
      CursorNeedsLimit(s, 0, None, 0, view);
      assert HistoryWalk(s, 0, view) == [page];
      CollectedFirst(page, []);
    }
  }
}
