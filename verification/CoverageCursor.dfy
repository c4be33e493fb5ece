/** The coverage object a replay drives: its duration loop, its two indices, and the clock loop that
    starts and ends blackouts at their boundaries. */
module CoverageCursor {
  import opened Common
  import opened CoverageGaps

  datatype Error = NegativeTimestamp | EndBeforeStart | TimeMovesBackwards

  /** The union of the first `n` intervals. */
  function UnionTo(intervals: seq<(int, int)>, n: nat): set<int>
    requires n <= |intervals|
  {
    if n == 0 then {} else UnionTo(intervals, n - 1) + Points(intervals[n - 1].0, intervals[n - 1].1)
  }

  lemma {:induction false} UnionToIsUnion(intervals: seq<(int, int)>, n: nat)
    requires n <= |intervals|
    ensures UnionTo(intervals, n) == Union(intervals[..n])
  {
    if n > 0 {
      UnionToIsUnion(intervals, n - 1);
      assert intervals[..n][..n - 1] == intervals[..n - 1];
    }
  }

  /** The merging state: what was seen is the closed pieces, of length `duration`, and the running one. */
  ghost predicate Merged(seen: set<int>, closed: set<int>, duration: nat, start: int, end: int) {
    && start < end && seen == closed + Points(start, end)
    && |closed| == duration && (forall t | t in closed :: t < start)
  }

  lemma {:induction false} PointsJoin(start: int, end: int, start': int, end': int)
    requires start <= start' <= end && start' < end'
    ensures Points(start, end) + Points(start', end') == Points(start, Max(end, end'))
  {
  }

  lemma {:induction false} MergeTouching(seen: set<int>, closed: set<int>, duration: nat, start: int, end: int, v: (int, int))
    requires Merged(seen, closed, duration, start, end) && start <= v.0 <= end && v.0 < v.1
    ensures Merged(seen + Points(v.0, v.1), closed, duration, start, Max(end, v.1))
  {
    PointsJoin(start, end, v.0, v.1);
    assert seen + Points(v.0, v.1) == closed + (Points(start, end) + Points(v.0, v.1));
  }

  lemma {:induction false} MergeApart(seen: set<int>, closed: set<int>, duration: nat, start: int, end: int, v: (int, int))
    requires Merged(seen, closed, duration, start, end) && end < v.0 < v.1
    ensures Merged(seen + Points(v.0, v.1), closed + Points(start, end), duration + (end - start), v.0, v.1)
  {
    PointsCount(start, end);
    assert closed !! Points(start, end);
  }

  lemma {:induction false} MergeTotal(seen: set<int>, closed: set<int>, duration: nat, start: int, end: int)
    requires Merged(seen, closed, duration, start, end)
    ensures |seen| == duration + (end - start)
  {
    PointsCount(start, end);
    assert closed !! Points(start, end);
  }

  /** The closed length and the running interval once one more interval is merged. */
  function MergeNext(m: (int, int, int), v: (int, int)): (int, int, int) {
    if v.0 <= m.2 then (m.0, m.1, Max(m.2, v.1)) else (m.0 + (m.2 - m.1), v.0, v.1)
  }

  /** What the loop has after the first `n` intervals: closed length, then the running interval. */
  function MergeFold(intervals: seq<(int, int)>, n: nat): (int, int, int)
    requires 1 <= n <= |intervals|
  {
    if n == 1 then (0, intervals[0].0, intervals[0].1)
    else MergeNext(MergeFold(intervals, n - 1), intervals[n - 1])
  }

  lemma {:induction false} MergeFirst(v: (int, int))
    requires v.0 < v.1
    ensures Merged({} + Points(v.0, v.1), {}, 0, v.0, v.1)
  {
  }

  lemma {:induction false} MergeStep(seen: set<int>, closed: set<int>, m: (int, int, int), v: (int, int))
    returns (closed': set<int>)
    requires m.0 >= 0 && Merged(seen, closed, m.0, m.1, m.2) && m.1 <= v.0 < v.1
    ensures var next := MergeNext(m, v);
            next.0 >= 0 && next.1 <= v.0 && Merged(seen + Points(v.0, v.1), closed', next.0, next.1, next.2)
  {
    if v.0 <= m.2 {
      MergeTouching(seen, closed, m.0, m.1, m.2, v);
      closed' := closed;
    } else {
      MergeApart(seen, closed, m.0, m.1, m.2, v);
      closed' := closed + Points(m.1, m.2);
    }
  }

  lemma {:induction false} MergeFoldMeasures(intervals: seq<(int, int)>, n: nat) returns (closed: set<int>)
    requires 1 <= n <= |intervals|
    requires forall i, j | 0 <= i < j < |intervals| :: intervals[i].0 <= intervals[j].0
    requires forall i | 0 <= i < |intervals| :: intervals[i].0 < intervals[i].1
    ensures var m := MergeFold(intervals, n);
            m.0 >= 0 && m.1 <= intervals[n - 1].0 && Merged(UnionTo(intervals, n), closed, m.0, m.1, m.2)
  {
    var v := intervals[n - 1];
    if n == 1 {
      MergeFirst(v);
      assert UnionTo(intervals, 0) == {};
      closed := {};
    } else {
      var shut := MergeFoldMeasures(intervals, n - 1);
      assert intervals[n - 2].0 <= v.0;
      closed := MergeStep(UnionTo(intervals, n - 1), shut, MergeFold(intervals, n - 1), v);
    }
  }

  /** Sorted intervals merged from the left: the lengths of the merged pieces add up to the union's size. */
  lemma {:induction false} MergeFoldTotal(intervals: seq<(int, int)>)
    requires intervals != []
    requires forall i, j | 0 <= i < j < |intervals| :: intervals[i].0 <= intervals[j].0
    requires forall i | 0 <= i < |intervals| :: intervals[i].0 < intervals[i].1
    ensures var (duration, start, end) := MergeFold(intervals, |intervals|);
            duration + (end - start) == |Union(intervals)|
  {
    var closed := MergeFoldMeasures(intervals, |intervals|);
    UnionToIsUnion(intervals, |intervals|);
    var (duration, start, end) := MergeFold(intervals, |intervals|);
    assert intervals[..|intervals|] == intervals;
    MergeTotal(Union(intervals), closed, duration, start, end);
  }

  method MergedLength(intervals: seq<(int, int)>) returns (duration: int)
    requires forall i, j | 0 <= i < j < |intervals| :: intervals[i].0 <= intervals[j].0
    requires forall i | 0 <= i < |intervals| :: intervals[i].0 < intervals[i].1
    ensures duration == |Union(intervals)|
  {
    if intervals == [] { return 0; }
    duration := 0;
    var currentStart, currentEnd := intervals[0].0, intervals[0].1;
    var i := 1;
    while i < |intervals|
      invariant 1 <= i <= |intervals|
      invariant (duration, currentStart, currentEnd) == MergeFold(intervals, i)
    {
      var (start, end) := intervals[i];
      i := i + 1;
      if start <= currentEnd {
        currentEnd := Max(currentEnd, end);
        continue;
      }
      duration := duration + (currentEnd - currentStart);
      currentStart, currentEnd := start, end;
    }
    MergeFoldTotal(intervals);
    duration := duration + (currentEnd - currentStart);
  }

  class ReplayCoverage {
    ghost const input: seq<Gap>
    const startAt: int
    const endAt: int
    const records: seq<Gap>
    const endRecords: seq<Gap>
    var nextStart: nat
    var nextEnd: nat

    ghost predicate Valid()
      reads this
    {
      && startAt <= endAt
      && (forall g | g in input :: ValidGap(g))
      && records == Starts(input, startAt, endAt) && endRecords == Ends(input, startAt, endAt)
      && InBounds()
    }

    predicate InBounds()
      reads this
    {
      nextStart <= |records| && nextEnd <= |endRecords|
    }

    function Abs(): Cursor
      reads this
    {
      Cursor(nextStart, nextEnd)
    }

    constructor (records: seq<Gap>, startAt: int, endAt: int)
      requires startAt <= endAt && forall g | g in records :: ValidGap(g)
      ensures Valid() && Abs() == Cursor(0, 0)
      ensures input == records && this.startAt == startAt && this.endAt == endAt
    {
      this.input := records;
      this.startAt, this.endAt := startAt, endAt;
      this.records := Starts(records, startAt, endAt);
      this.endRecords := Ends(records, startAt, endAt);
      nextStart, nextEnd := 0, 0;
    }

    static method Build(records: seq<Gap>, startAt: int, endAt: int) returns (r: Result<ReplayCoverage, Error>)
      requires forall g | g in records :: ValidGap(g)
      ensures r.Success? <==> 0 <= startAt <= endAt
      ensures r.Success? ==>
                var c := r.value;
                fresh(c) && c.Valid() && c.Abs() == Cursor(0, 0) && c.input == records &&
                c.startAt == startAt && c.endAt == endAt
      ensures startAt < 0 || endAt < 0 ==> r == Failure(NegativeTimestamp)
      ensures 0 <= endAt < startAt ==> r == Failure(EndBeforeStart)
    {
      if startAt < 0 || endAt < 0 { return Failure(NegativeTimestamp); }
      if endAt < startAt { return Failure(EndBeforeStart); }
      var c := new ReplayCoverage(records, startAt, endAt);
      return Success(c);
    }

    /** The union's wall-clock length is the number of selected milliseconds inside some given gap. */
    method DurationMs() returns (duration: int)
      requires Valid()
      ensures duration == |Covered(input, startAt, endAt)|
    {
      var unsorted := Intervals(records, startAt, endAt);
      var intervals := SortBy(unsorted, IntervalOrder());
      SortIsOrdered(unsorted, IntervalOrder());
      UnionIsCovered(input, startAt, endAt);
      forall i | 0 <= i < |intervals| ensures intervals[i].0 < intervals[i].1 {
        assert intervals[i] in unsorted;
      }
      forall i, j | 0 <= i < j < |intervals| ensures intervals[i].0 <= intervals[j].0 {
        assert Before(IntervalOrder()(intervals[i]), IntervalOrder()(intervals[j]));
      }
      duration := MergedLength(intervals);
    }

    function NextStartAt(): Option<int>
      reads this
    {
      if nextStart >= |records| then None else Some(StartOrder(startAt)(records[nextStart]).0)
    }

    function NextEndAt(): Option<int>
      reads this
    {
      if nextEnd >= |endRecords| then None else Some(EndOrder()(endRecords[nextEnd]).0)
    }

    function NextBoundaryAt(): Option<int>
      requires InBounds()
      reads this
    {
      NextBoundary(records, endRecords, startAt, Abs())
    }

    method PopNextStartRecords() returns (popped: seq<Gap>)
      requires Valid()
      modifies this`nextStart
      ensures InBounds() && Abs() == Step(old(Abs()), records, endRecords, startAt, PopNextStart)
      ensures popped == records[old(nextStart)..nextStart]
    {
      if nextStart >= |records| { return []; }
      var at := StartOrder(startAt)(records[nextStart]).0;
      var end := nextStart;
      SelectionFacts(input, startAt, endAt);
      end := EndOfGroup(at);
      popped := records[nextStart..end];
      nextStart := end;
    }

    /** The loop stops at the first record that starts at another time; sorted, that is a later time. */
    method EndOfGroup(at: int) returns (end: nat)
      requires nextStart < |records| && at == StartOrder(startAt)(records[nextStart]).0
      requires InOrder(records, StartOrder(startAt))
      ensures end == GroupEnd(records, StartOrder(startAt), nextStart)
    {
      end := nextStart;
      while end < |records| && StartOrder(startAt)(records[end]).0 == at
        invariant nextStart <= end <= |records|
        invariant GroupEnd(records, StartOrder(startAt), nextStart) == Advance(records, StartOrder(startAt), end, at)
      {
        end := end + 1;
      }
      assert nextStart < end < |records| ==>
          Before(StartOrder(startAt)(records[nextStart]), StartOrder(startAt)(records[end]));
    }

    method PopStartRecordsThrough(observedAt: int) returns (r: Result<seq<Gap>, Error>)
      requires Valid()
      modifies this`nextStart
      ensures InBounds() && (observedAt < 0 <==> r.Failure?)
      ensures r.Failure? ==> Abs() == old(Abs())
      ensures r.Success? ==> Abs() == Step(old(Abs()), records, endRecords, startAt, PopStarts(observedAt))
      ensures r.Success? ==> r.value == records[old(nextStart)..nextStart]
    {
      if observedAt < 0 { return Failure(NegativeTimestamp); }
      var popped: seq<Gap> := [];
      while NextStartAt().Some? && NextStartAt().value <= observedAt
        invariant Valid() && old(nextStart) <= nextStart
        invariant popped == records[old(nextStart)..nextStart]
        invariant Advance(records, StartOrder(startAt), old(nextStart), observedAt) ==
                  Advance(records, StartOrder(startAt), nextStart, observedAt)
        decreases |records| - nextStart
      {
        ghost var before := nextStart;
        AdvanceThroughGroup(records, StartOrder(startAt), nextStart, observedAt);
        var group := PopNextStartRecords();
        popped := popped + group;
        SliceExtends(records, old(nextStart), before, nextStart);
      }
      return Success(popped);
    }

    method PopEndRecordsThrough(observedAt: int) returns (r: Result<seq<Gap>, Error>)
      requires Valid()
      modifies this`nextEnd
      ensures InBounds() && (observedAt < 0 <==> r.Failure?)
      ensures r.Failure? ==> Abs() == old(Abs())
      ensures r.Success? ==> Abs() == Step(old(Abs()), records, endRecords, startAt, PopEnds(observedAt))
      ensures r.Success? ==> r.value == endRecords[old(nextEnd)..nextEnd]
    {
      if observedAt < 0 { return Failure(NegativeTimestamp); }
      var start := nextEnd;
      while NextEndAt().Some? && NextEndAt().value <= observedAt
        invariant start <= nextEnd <= |endRecords|
        invariant Advance(endRecords, EndOrder(), start, observedAt) ==
                  Advance(endRecords, EndOrder(), nextEnd, observedAt)
        decreases |endRecords| - nextEnd
      {
        nextEnd := nextEnd + 1;
      }
      return Success(endRecords[start..nextEnd]);
    }

    /** One stop of the clock: starts first, then ends, through the earliest boundary left. */
    method StopAt(at: int) returns (stop: Blackouts)
      requires Valid() && at >= 0
      modifies this
      ensures InBounds() && Abs() == StopCursor(records, endRecords, startAt, old(Abs()), at)
      ensures stop == Blackouts(at, records[old(nextStart)..nextStart], endRecords[old(nextEnd)..nextEnd])
    {
      var started := PopStartRecordsThrough(at);
      var ended := PopEndRecordsThrough(at);
      stop := Blackouts(at, started.value, ended.value);
    }

    lemma {:induction false} StopKeeps(c: Cursor, at: int, target: int)
      requires Valid() && c == Abs() && NextBoundaryAt() == Some(at) && at <= target
      requires PoppedBy(records, endRecords, startAt, c, target)
      ensures InOrder(records, StartOrder(startAt)) && InOrder(endRecords, EndOrder())
      ensures var r := StopCursor(records, endRecords, startAt, c, at);
              PoppedBy(records, endRecords, startAt, r, target) && c.nextStart + c.nextEnd < r.nextStart + r.nextEnd
    {
      SelectionFacts(input, startAt, endAt);
      StopIsPunctual(records, endRecords, startAt, c, at);
    }

    lemma {:induction false} MovedTo(target: int)
      requires Valid() && PoppedBy(records, endRecords, startAt, Abs(), target)
      requires NextBoundaryAt().Some? ==> target < NextBoundaryAt().value
      ensures endAt <= target ==> nextStart == |records| && nextEnd == |endRecords|
      ensures startAt <= target <= endAt ==>
                forall g | ValidGap(g) ::
                  StartedNotEnded(g, records, endRecords, Abs()) <==> g in input && Covers(g, target)
    {
      NoBoundaryPastTheEnd(input, startAt, endAt, Abs());
      if startAt <= target <= endAt {
        OpenNow(input, startAt, endAt, Abs(), target);
      }
    }

    /** One round of the clock loop: stop at the next boundary and note it. */
    method StopNext(stops: seq<Blackouts>, ghost c0: Cursor, ghost target: int) returns (more: seq<Blackouts>)
      requires Valid() && 0 <= startAt && NextBoundaryAt().Some? && NextBoundaryAt().value <= target
      requires PoppedBy(records, endRecords, startAt, Abs(), target)
      requires c0.nextStart <= nextStart && c0.nextEnd <= nextEnd
      requires OnSchedule(stops, records, endRecords, startAt, c0, Abs())
      modifies this
      ensures Valid() && PoppedBy(records, endRecords, startAt, Abs(), target)
      ensures old(nextStart) <= nextStart && old(nextEnd) <= nextEnd
      ensures old(nextStart) + old(nextEnd) < nextStart + nextEnd
      ensures OnSchedule(more, records, endRecords, startAt, c0, Abs())
    {
      var at := NextBoundaryAt().value;
      ghost var c := Abs();
      NoBoundaryPastTheEnd(input, startAt, endAt, c);
      StopKeeps(c, at, target);
      var stop := StopAt(at);
      StoppedOnSchedule(stops, records, endRecords, startAt, c0, c, stop);
      more := stops + [stop];
    }

    /** Moving the clock stops at every boundary up to the target, once each and in order, exactly when
        it is due; inside the selection the gaps then open are exactly those that cover the target. */
    method MoveTo(now: int, target: int) returns (r: Result<seq<Blackouts>, Error>)
      requires Valid() && 0 <= startAt && PoppedBy(records, endRecords, startAt, Abs(), now)
      modifies this
      ensures Valid() && old(nextStart) <= nextStart && old(nextEnd) <= nextEnd
      ensures r.Failure? <==> target < now
      ensures r.Failure? ==> r.error == TimeMovesBackwards && Abs() == old(Abs())
      ensures r.Success? ==>
                && PoppedBy(records, endRecords, startAt, Abs(), target)
                && OnSchedule(r.value, records, endRecords, startAt, old(Abs()), Abs())
                && (NextBoundaryAt().Some? ==> target < NextBoundaryAt().value)
      ensures r.Success? && endAt <= target ==> nextStart == |records| && nextEnd == |endRecords|
      ensures r.Success? && startAt <= target <= endAt ==>
                forall g | ValidGap(g) ::
                  StartedNotEnded(g, records, endRecords, Abs()) <==> g in input && Covers(g, target)
    {
      if target < now { return Failure(TimeMovesBackwards); }
      var stops: seq<Blackouts> := [];
      while NextBoundaryAt().Some? && NextBoundaryAt().value <= target
        invariant Valid() && PoppedBy(records, endRecords, startAt, Abs(), target)
        invariant old(nextStart) <= nextStart && old(nextEnd) <= nextEnd
        invariant OnSchedule(stops, records, endRecords, startAt, old(Abs()), Abs())
        decreases |records| - nextStart + |endRecords| - nextEnd
      {
        stops := StopNext(stops, old(Abs()), target);
      }
      MovedTo(target);
      return Success(stops);
    }
  }
}
