/** Coverage gaps of one inclusive replay selection: their union's duration, and the two cursors
    that start and end them while replay time moves. */
module CoverageGaps {
  import opened Common

  datatype Gap = Gap(id: int, started: int, ended: Option<int>)

  /** What a recorded gap's own constructor enforces. */
  predicate ValidGap(g: Gap) {
    0 <= g.started && (g.ended.Some? ==> g.started <= g.ended.value)
  }

  function Max(a: int, b: int): int { if a >= b then a else b }

  function Min(a: int, b: int): int { if a <= b then a else b }

  predicate Covers(g: Gap, t: int) {
    g.started <= t && (g.ended.None? || t < g.ended.value)
  }

  predicate Overlaps(g: Gap, lo: int, hi: int) {
    g.ended != Some(g.started) && g.started <= hi && (g.ended.None? || g.ended.value > lo)
  }

  predicate EndsWithin(g: Gap, hi: int) {
    g.ended.Some? && g.ended.value <= hi
  }

  // ---------- ordering ----------

  predicate Before(a: (int, int), b: (int, int)) {
    a.0 < b.0 || (a.0 == b.0 && a.1 <= b.1)
  }

  ghost predicate InOrder<T(!new)>(s: seq<T>, key: T -> (int, int)) {
    forall i, j | 0 <= i < j < |s| :: Before(key(s[i]), key(s[j]))
  }

  function InsertBy<T>(s: seq<T>, x: T, key: T -> (int, int)): seq<T> {
    if s == [] || Before(key(s[|s| - 1]), key(x)) then s + [x]
    else InsertBy(s[..|s| - 1], x, key) + [s[|s| - 1]]
  }

  function SortBy<T>(s: seq<T>, key: T -> (int, int)): seq<T> {
    if s == [] then [] else InsertBy(SortBy(s[..|s| - 1], key), s[|s| - 1], key)
  }

  lemma {:induction false} InsertKeeps<T(!new)>(s: seq<T>, x: T, key: T -> (int, int))
    ensures multiset(InsertBy(s, x, key)) == multiset(s) + multiset{x}
    ensures |InsertBy(s, x, key)| == |s| + 1
  {
    if s != [] {
      InsertKeeps(s[..|s| - 1], x, key);
      assert s == s[..|s| - 1] + [s[|s| - 1]];
    }
  }

  lemma {:induction false} InsertIsOrdered<T(!new)>(s: seq<T>, x: T, key: T -> (int, int))
    requires InOrder(s, key)
    ensures InOrder(InsertBy(s, x, key), key)
  {
    if s != [] && !Before(key(s[|s| - 1]), key(x)) {
      var front, last := s[..|s| - 1], s[|s| - 1];
      InsertIsOrdered(front, x, key);
      InsertKeeps(front, x, key);
      var inner := InsertBy(front, x, key);
      forall i | 0 <= i < |inner| ensures Before(key(inner[i]), key(last)) {
        assert inner[i] in multiset(inner);
        assert inner[i] in front || inner[i] == x;
      }
    } else if s != [] {
      forall i | 0 <= i < |s| ensures Before(key(s[i]), key(x)) {
        assert i < |s| - 1 ==> Before(key(s[i]), key(s[|s| - 1]));
      }
    }
  }

  lemma {:induction false} SortKeeps<T(!new)>(s: seq<T>, key: T -> (int, int))
    ensures multiset(SortBy(s, key)) == multiset(s)
  {
    if s != [] {
      var front, last := s[..|s| - 1], s[|s| - 1];
      SortKeeps(front, key);
      InsertKeeps(SortBy(front, key), last, key);
      assert s == front + [last];
    }
  }

  lemma {:induction false} SortOrders<T(!new)>(s: seq<T>, key: T -> (int, int))
    ensures InOrder(SortBy(s, key), key)
  {
    if s != [] {
      SortOrders(s[..|s| - 1], key);
      InsertIsOrdered(SortBy(s[..|s| - 1], key), s[|s| - 1], key);
    }
  }

  lemma {:induction false} SameMembers<T>(a: seq<T>, b: seq<T>, x: T)
    requires multiset(a) == multiset(b)
    ensures x in a <==> x in b
  {
    assert x in a <==> x in multiset(a);
    assert x in b <==> x in multiset(b);
  }

  lemma {:induction false} SortIsOrdered<T(!new)>(s: seq<T>, key: T -> (int, int))
    ensures InOrder(SortBy(s, key), key)
    ensures multiset(SortBy(s, key)) == multiset(s)
    ensures forall x :: x in SortBy(s, key) <==> x in s
  {
    SortOrders(s, key);
    SortKeeps(s, key);
    forall x ensures x in SortBy(s, key) <==> x in s {
      SameMembers(SortBy(s, key), s, x);
    }
  }

  function StartOrder(lo: int): Gap -> (int, int) {
    (g: Gap) => (Max(lo, g.started), g.id)
  }

  function EndOrder(): Gap -> (int, int) {
    (g: Gap) => ((if g.ended.Some? then g.ended.value else 0), g.id)
  }

  function IntervalOrder(): ((int, int)) -> (int, int) {
    (interval: (int, int)) => interval
  }

  function Overlapping(records: seq<Gap>, lo: int, hi: int): (r: seq<Gap>)
    ensures forall g :: g in r <==> g in records && Overlaps(g, lo, hi)
  {
    if records == [] then []
    else
      assert records == records[..|records| - 1] + [records[|records| - 1]];
      var g := records[|records| - 1];
      Overlapping(records[..|records| - 1], lo, hi) + if Overlaps(g, lo, hi) then [g] else []
  }

  function Ending(records: seq<Gap>, hi: int): (r: seq<Gap>)
    ensures forall g :: g in r <==> g in records && EndsWithin(g, hi)
  {
    if records == [] then []
    else
      assert records == records[..|records| - 1] + [records[|records| - 1]];
      var g := records[|records| - 1];
      Ending(records[..|records| - 1], hi) + if EndsWithin(g, hi) then [g] else []
  }

  /** The gaps of a selection in starting order, and those ending inside it in ending order. */
  function Starts(input: seq<Gap>, lo: int, hi: int): seq<Gap> {
    SortBy(Overlapping(input, lo, hi), StartOrder(lo))
  }

  function Ends(input: seq<Gap>, lo: int, hi: int): seq<Gap> {
    SortBy(Ending(Starts(input, lo, hi), hi), EndOrder())
  }

  lemma {:induction false} SelectionFacts(input: seq<Gap>, lo: int, hi: int)
    ensures InOrder(Starts(input, lo, hi), StartOrder(lo)) && InOrder(Ends(input, lo, hi), EndOrder())
    ensures forall g :: g in Starts(input, lo, hi) <==> g in input && Overlaps(g, lo, hi)
    ensures forall g :: g in Ends(input, lo, hi) <==> g in input && Overlaps(g, lo, hi) && EndsWithin(g, hi)
    ensures multiset(Starts(input, lo, hi)) == multiset(Overlapping(input, lo, hi))
    ensures multiset(Ends(input, lo, hi)) == multiset(Ending(Starts(input, lo, hi), hi))
  {
    SortIsOrdered(Overlapping(input, lo, hi), StartOrder(lo));
    SortIsOrdered(Ending(Starts(input, lo, hi), hi), EndOrder());
  }

  // ---------- duration ----------

  function Points(lo: int, hi: int): (r: set<int>)
    ensures forall t :: t in r <==> lo <= t < hi
    decreases hi - lo
  {
    if hi <= lo then {} else Points(lo, hi - 1) + {hi - 1}
  }

  lemma {:induction false} PointsCount(lo: int, hi: int)
    requires lo <= hi
    ensures |Points(lo, hi)| == hi - lo
    decreases hi - lo
  {
    if lo < hi {
      PointsCount(lo, hi - 1);
    }
  }

  /** The milliseconds of the selection inside at least one of the given gaps. */
  ghost function Covered(input: seq<Gap>, lo: int, hi: int): set<int> {
    set t | t in Points(lo, hi + 1) && Touched(input, t)
  }

  ghost predicate Touched(input: seq<Gap>, t: int) {
    exists g :: g in input && Covers(g, t)
  }

  function Clipped(g: Gap, lo: int, hi: int): Option<(int, int)> {
    var start := Max(lo, g.started);
    var end := Min(hi + 1, if g.ended.None? then hi + 1 else g.ended.value);
    if end <= start then None else Some((start, end))
  }

  function Intervals(records: seq<Gap>, lo: int, hi: int): (r: seq<(int, int)>)
    ensures forall v | v in r :: v.0 < v.1
  {
    if records == [] then []
    else
      Intervals(records[..|records| - 1], lo, hi) +
      match Clipped(records[|records| - 1], lo, hi) { case Some(v) => [v] case None => [] }
  }

  ghost function Union(intervals: seq<(int, int)>): set<int> {
    if intervals == [] then {}
    else Union(intervals[..|intervals| - 1]) + Points(intervals[|intervals| - 1].0, intervals[|intervals| - 1].1)
  }

  lemma {:induction false} UnionMember(intervals: seq<(int, int)>, t: int)
    ensures t in Union(intervals) <==> exists v :: v in intervals && v.0 <= t < v.1
  {
    if intervals != [] {
      var front, last := intervals[..|intervals| - 1], intervals[|intervals| - 1];
      UnionMember(front, t);
      assert intervals == front + [last];
      if t in Points(last.0, last.1) {
        assert last in intervals && last.0 <= t < last.1;
      }
    }
  }

  lemma {:induction false} IntervalsMember(records: seq<Gap>, lo: int, hi: int, v: (int, int))
    ensures v in Intervals(records, lo, hi) <==> exists g :: g in records && Clipped(g, lo, hi) == Some(v)
  {
    if records != [] {
      var front, last := records[..|records| - 1], records[|records| - 1];
      IntervalsMember(front, lo, hi, v);
      assert records == front + [last];
      if Clipped(last, lo, hi) == Some(v) {
        assert last in records;
      }
    }
  }

  lemma {:induction false} ClippedPoints(g: Gap, lo: int, hi: int, t: int)
    requires lo <= t <= hi
    ensures Covers(g, t) <==> var c := Clipped(g, lo, hi); c.Some? && c.value.0 <= t < c.value.1
    ensures Covers(g, t) ==> Overlaps(g, lo, hi)
  {
  }

  lemma {:induction false} ClippedInside(g: Gap, lo: int, hi: int)
    ensures var c := Clipped(g, lo, hi); c.Some? ==> lo <= c.value.0 && c.value.1 <= hi + 1
  {
  }

  lemma {:induction false} UnionPointIsCovered(input: seq<Gap>, lo: int, hi: int, t: int, v: (int, int))
    requires v in Intervals(Starts(input, lo, hi), lo, hi) && v.0 <= t < v.1
    ensures t in Covered(input, lo, hi)
  {
    SelectionFacts(input, lo, hi);
    IntervalsMember(Starts(input, lo, hi), lo, hi, v);
    var g :| g in Starts(input, lo, hi) && Clipped(g, lo, hi) == Some(v);
    ClippedInside(g, lo, hi);
    ClippedPoints(g, lo, hi, t);
    assert g in input && Covers(g, t);
    assert Touched(input, t) && t in Points(lo, hi + 1);
  }

  lemma {:induction false} CoveredPointIsInUnion(input: seq<Gap>, lo: int, hi: int, t: int) returns (v: (int, int))
    requires t in Covered(input, lo, hi)
    ensures v in Intervals(Starts(input, lo, hi), lo, hi) && v.0 <= t < v.1
  {
    SelectionFacts(input, lo, hi);
    var g :| g in input && Covers(g, t);
    ClippedPoints(g, lo, hi, t);
    v := Clipped(g, lo, hi).value;
    IntervalsMember(Starts(input, lo, hi), lo, hi, v);
  }

  /** Clipping, sorting and leaving out what does not overlap lose no covered millisecond and add none. */
  lemma {:induction false} UnionIsCovered(input: seq<Gap>, lo: int, hi: int)
    ensures Union(SortBy(Intervals(Starts(input, lo, hi), lo, hi), IntervalOrder())) == Covered(input, lo, hi)
  {
    var intervals := Intervals(Starts(input, lo, hi), lo, hi);
    var sorted := SortBy(intervals, IntervalOrder());
    SortIsOrdered(intervals, IntervalOrder());
    forall t ensures t in Union(sorted) <==> t in Covered(input, lo, hi) {
      UnionMember(sorted, t);
      if t in Union(sorted) {
        var v :| v in sorted && v.0 <= t < v.1;
        UnionPointIsCovered(input, lo, hi, t, v);
      }
      if t in Covered(input, lo, hi) {
        var v := CoveredPointIsInUnion(input, lo, hi, t);
        assert v in sorted;
      }
    }
  }

  // ---------- the cursors as values ----------

  datatype Cursor = Cursor(nextStart: nat, nextEnd: nat)

  function Advance(s: seq<Gap>, key: Gap -> (int, int), from: nat, through: int): (r: nat)
    requires from <= |s|
    ensures from <= r <= |s|
    ensures forall i | from <= i < r :: key(s[i]).0 <= through
    ensures r < |s| ==> key(s[r]).0 > through
    decreases |s| - from
  {
    if from < |s| && key(s[from]).0 <= through then Advance(s, key, from + 1, through) else from
  }

  // ---------- runs of the cursors ----------

  datatype Op = PopNextStart | PopStarts(through: int) | PopEnds(through: int)

  function GroupEnd(s: seq<Gap>, key: Gap -> (int, int), from: nat): (r: nat)
    requires from <= |s|
    ensures from <= r <= |s|
  {
    if from == |s| then from else Advance(s, key, from, key(s[from]).0)
  }

  function Step(c: Cursor, starts: seq<Gap>, ends: seq<Gap>, lo: int, op: Op): (r: Cursor)
    requires c.nextStart <= |starts| && c.nextEnd <= |ends|
    ensures c.nextStart <= r.nextStart <= |starts| && c.nextEnd <= r.nextEnd <= |ends|
  {
    match op
    case PopNextStart => c.(nextStart := GroupEnd(starts, StartOrder(lo), c.nextStart))
    case PopStarts(t) => c.(nextStart := Advance(starts, StartOrder(lo), c.nextStart, t))
    case PopEnds(t) => c.(nextEnd := Advance(ends, EndOrder(), c.nextEnd, t))
  }

  function Run(starts: seq<Gap>, ends: seq<Gap>, lo: int, ops: seq<Op>): (r: Cursor)
    ensures r.nextStart <= |starts| && r.nextEnd <= |ends|
  {
    if ops == [] then Cursor(0, 0)
    else Step(Run(starts, ends, lo, ops[..|ops| - 1]), starts, ends, lo, ops[|ops| - 1])
  }

  /** Ends are popped only through a time that starts were popped through before. */
  ghost predicate StartsLead(ops: seq<Op>) {
    forall i | 0 <= i < |ops| && ops[i].PopEnds? ::
      exists j :: 0 <= j < i && ops[j].PopStarts? && ops[i].through <= ops[j].through
  }

  lemma {:induction false} PoppedStarts(starts: seq<Gap>, ends: seq<Gap>, lo: int, ops: seq<Op>, j: nat)
    requires InOrder(starts, StartOrder(lo)) && j < |ops| && ops[j].PopStarts?
    ensures forall i | 0 <= i < |starts| && StartOrder(lo)(starts[i]).0 <= ops[j].through ::
              i < Run(starts, ends, lo, ops).nextStart
  {
    var front := ops[..|ops| - 1];
    if j < |ops| - 1 {
      PoppedStarts(starts, ends, lo, front, j);
    } else {
      var from := Run(starts, ends, lo, front).nextStart;
      var r := Advance(starts, StartOrder(lo), from, ops[j].through);
      forall i | r <= i < |starts| ensures StartOrder(lo)(starts[i]).0 > ops[j].through {
        assert i > r ==> Before(StartOrder(lo)(starts[r]), StartOrder(lo)(starts[i]));
      }
    }
  }

  lemma {:induction false} PoppedEnds(starts: seq<Gap>, ends: seq<Gap>, lo: int, ops: seq<Op>, k: nat)
    returns (i: nat)
    requires k < Run(starts, ends, lo, ops).nextEnd
    ensures i < |ops| && ops[i].PopEnds? && EndOrder()(ends[k]).0 <= ops[i].through
  {
    var front := ops[..|ops| - 1];
    if k < Run(starts, ends, lo, front).nextEnd {
      i := PoppedEnds(starts, ends, lo, front, k);
    } else {
      i := |ops| - 1;
    }
  }

  /** No gap is ended before it is started, whatever else a run pops and in whatever times. */
  lemma {:induction false} NeverEndsAnUnstartedGap(input: seq<Gap>, lo: int, hi: int, ops: seq<Op>, k: nat)
    requires forall g | g in input :: ValidGap(g)
    requires StartsLead(ops)
    requires k < Run(Starts(input, lo, hi), Ends(input, lo, hi), lo, ops).nextEnd
    ensures var c := Run(Starts(input, lo, hi), Ends(input, lo, hi), lo, ops);
            Ends(input, lo, hi)[k] in Starts(input, lo, hi)[..c.nextStart]
  {
    var starts, ends := Starts(input, lo, hi), Ends(input, lo, hi);
    SelectionFacts(input, lo, hi);
    var i := PoppedEnds(starts, ends, lo, ops, k);
    var j :| 0 <= j < i && ops[j].PopStarts? && ops[i].through <= ops[j].through;
    PoppedStarts(starts, ends, lo, ops, j);
    var g := ends[k];
    assert g in ends && Overlaps(g, lo, hi) && ValidGap(g);
    assert StartOrder(lo)(g).0 <= g.ended.value;
    var at :| 0 <= at < |starts| && starts[at] == g;
  }

  /** The gaps a replay has open: those started and not yet ended, by position in starting order. */
  ghost predicate StartedNotEnded(g: Gap, starts: seq<Gap>, ends: seq<Gap>, c: Cursor)
    requires c.nextStart <= |starts| && c.nextEnd <= |ends|
  {
    g in starts[..c.nextStart] && g !in ends[..c.nextEnd]
  }

  /** Popping everything through a selected time leaves open exactly the gaps that cover that time. */
  lemma {:induction false} OpenGapsCoverNow(input: seq<Gap>, lo: int, hi: int, c: Cursor, t: int, g: Gap)
    requires lo <= t <= hi && ValidGap(g)
    requires var starts, ends := Starts(input, lo, hi), Ends(input, lo, hi);
             && c.nextStart <= |starts| && c.nextEnd <= |ends|
             && (forall i | 0 <= i < |starts| :: i < c.nextStart <==> StartOrder(lo)(starts[i]).0 <= t)
             && (forall i | 0 <= i < |ends| :: i < c.nextEnd <==> EndOrder()(ends[i]).0 <= t)
    ensures StartedNotEnded(g, Starts(input, lo, hi), Ends(input, lo, hi), c) <==> g in input && Covers(g, t)
  {
    var starts, ends := Starts(input, lo, hi), Ends(input, lo, hi);
    SelectedMember(input, lo, hi, g);
    PrefixMember(starts, StartOrder(lo), c.nextStart, t, g);
    PrefixMember(ends, EndOrder(), c.nextEnd, t, g);
    CoversByOrder(g, lo, hi, t);
  }

  lemma {:induction false} SelectedMember(input: seq<Gap>, lo: int, hi: int, g: Gap)
    ensures g in Starts(input, lo, hi) <==> g in input && Overlaps(g, lo, hi)
    ensures g in Ends(input, lo, hi) <==> g in input && Overlaps(g, lo, hi) && EndsWithin(g, hi)
  {
    SelectionFacts(input, lo, hi);
  }

  lemma {:induction false} CoversByOrder(g: Gap, lo: int, hi: int, t: int)
    requires lo <= t <= hi && ValidGap(g)
    ensures Covers(g, t) <==> Overlaps(g, lo, hi) && StartOrder(lo)(g).0 <= t
                              && !(EndsWithin(g, hi) && EndOrder()(g).0 <= t)
  {
  }

  lemma {:induction false} PrefixMember(s: seq<Gap>, key: Gap -> (int, int), n: nat, t: int, g: Gap)
    requires n <= |s| && forall i | 0 <= i < |s| :: i < n <==> key(s[i]).0 <= t
    ensures g in s[..n] <==> g in s && key(g).0 <= t
  {
    if g in s && key(g).0 <= t {
      var i :| 0 <= i < |s| && s[i] == g;
      assert s[..n][i] == g;
    }
  }

  // ---------- the clock that stops at every boundary ----------

  function NextBoundary(starts: seq<Gap>, ends: seq<Gap>, lo: int, c: Cursor): Option<int>
    requires c.nextStart <= |starts| && c.nextEnd <= |ends|
  {
    var s := if c.nextStart == |starts| then None else Some(StartOrder(lo)(starts[c.nextStart]).0);
    var e := if c.nextEnd == |ends| then None else Some(EndOrder()(ends[c.nextEnd]).0);
    if s.None? then e else if e.None? then s else Some(Min(s.value, e.value))
  }

  function StopCursor(starts: seq<Gap>, ends: seq<Gap>, lo: int, c: Cursor, at: int): (r: Cursor)
    requires c.nextStart <= |starts| && c.nextEnd <= |ends|
    ensures c.nextStart <= r.nextStart <= |starts| && c.nextEnd <= r.nextEnd <= |ends|
  {
    Step(Step(c, starts, ends, lo, PopStarts(at)), starts, ends, lo, PopEnds(at))
  }

  /** One stop of the replay clock at a gap boundary. */
  datatype Blackouts = Blackouts(at: int, started: seq<Gap>, ended: seq<Gap>)

  function Started(stops: seq<Blackouts>): seq<Gap> {
    if stops == [] then [] else Started(stops[..|stops| - 1]) + stops[|stops| - 1].started
  }

  function Ended(stops: seq<Blackouts>): seq<Gap> {
    if stops == [] then [] else Ended(stops[..|stops| - 1]) + stops[|stops| - 1].ended
  }

  /** Everything a stop starts or ends has its boundary exactly there. */
  ghost predicate Punctual(stop: Blackouts, lo: int) {
    && (forall g | g in stop.started :: StartOrder(lo)(g).0 == stop.at)
    && (forall g | g in stop.ended :: EndOrder()(g).0 == stop.at)
  }

  /** The stops made between two cursors: every record in between once and in order, each on its time,
      at strictly increasing times that are over before the next boundary. */
  ghost predicate OnSchedule(stops: seq<Blackouts>, starts: seq<Gap>, ends: seq<Gap>, lo: int, c0: Cursor, c: Cursor)
    requires c0.nextStart <= c.nextStart <= |starts| && c0.nextEnd <= c.nextEnd <= |ends|
  {
    && Started(stops) == starts[c0.nextStart..c.nextStart]
    && Ended(stops) == ends[c0.nextEnd..c.nextEnd]
    && (forall i | 0 <= i < |stops| :: Punctual(stops[i], lo))
    && (forall i, j | 0 <= i < j < |stops| :: stops[i].at < stops[j].at)
    && var next := NextBoundary(starts, ends, lo, c);
       stops != [] && next.Some? ==> stops[|stops| - 1].at < next.value
  }

  lemma {:induction false} AllOnTime(s: seq<Gap>, key: Gap -> (int, int), from: nat, at: int)
    requires InOrder(s, key) && from <= |s| && (from < |s| ==> at <= key(s[from]).0)
    ensures forall g | g in s[from..Advance(s, key, from, at)] :: key(g).0 == at
  {
    var r := Advance(s, key, from, at);
    forall g | g in s[from..r] ensures key(g).0 == at {
      var i :| from <= i < r && s[i] == g;
      assert i > from ==> Before(key(s[from]), key(s[i]));
    }
  }

  lemma {:induction false} StopIsPunctual(starts: seq<Gap>, ends: seq<Gap>, lo: int, c: Cursor, at: int)
    requires InOrder(starts, StartOrder(lo)) && InOrder(ends, EndOrder())
    requires c.nextStart <= |starts| && c.nextEnd <= |ends| && NextBoundary(starts, ends, lo, c) == Some(at)
    ensures var r := StopCursor(starts, ends, lo, c, at);
            && Punctual(Blackouts(at, starts[c.nextStart..r.nextStart], ends[c.nextEnd..r.nextEnd]), lo)
            && c.nextStart + c.nextEnd < r.nextStart + r.nextEnd
            && var next := NextBoundary(starts, ends, lo, r); next.Some? ==> at < next.value
  {
    AllOnTime(starts, StartOrder(lo), c.nextStart, at);
    AllOnTime(ends, EndOrder(), c.nextEnd, at);
  }

  lemma {:induction false} StoppedOnSchedule(stops: seq<Blackouts>, starts: seq<Gap>, ends: seq<Gap>, lo: int, c0: Cursor, c: Cursor,
                          stop: Blackouts)
    requires InOrder(starts, StartOrder(lo)) && InOrder(ends, EndOrder())
    requires c0.nextStart <= c.nextStart <= |starts| && c0.nextEnd <= c.nextEnd <= |ends|
    requires OnSchedule(stops, starts, ends, lo, c0, c) && NextBoundary(starts, ends, lo, c) == Some(stop.at)
    requires var r := StopCursor(starts, ends, lo, c, stop.at);
             stop.started == starts[c.nextStart..r.nextStart] && stop.ended == ends[c.nextEnd..r.nextEnd]
    ensures OnSchedule(stops + [stop], starts, ends, lo, c0, StopCursor(starts, ends, lo, c, stop.at))
  {
    var r := StopCursor(starts, ends, lo, c, stop.at);
    StopIsPunctual(starts, ends, lo, c, stop.at);
    LogExtends(stops, stop);
    SliceExtends(starts, c0.nextStart, c.nextStart, r.nextStart);
    SliceExtends(ends, c0.nextEnd, c.nextEnd, r.nextEnd);
    LastIsLatest(stops, stop.at);
  }

  lemma {:induction false} LogExtends(stops: seq<Blackouts>, stop: Blackouts)
    ensures Started(stops + [stop]) == Started(stops) + stop.started
    ensures Ended(stops + [stop]) == Ended(stops) + stop.ended
  {
    assert (stops + [stop])[..|stops|] == stops;
  }

  lemma {:induction false} SliceExtends(s: seq<Gap>, i: nat, j: nat, k: nat)
    requires i <= j <= k <= |s|
    ensures s[i..j] + s[j..k] == s[i..k]
  {
  }

  lemma {:induction false} LastIsLatest(stops: seq<Blackouts>, at: int)
    requires forall i, j | 0 <= i < j < |stops| :: stops[i].at < stops[j].at
    requires stops != [] ==> stops[|stops| - 1].at < at
    ensures forall i | 0 <= i < |stops| :: stops[i].at < at
  {
  }

  /** Everything popped so far has its boundary at or before `now`. */
  ghost predicate PoppedBy(starts: seq<Gap>, ends: seq<Gap>, lo: int, c: Cursor, now: int)
    requires c.nextStart <= |starts| && c.nextEnd <= |ends|
  {
    && (forall i | 0 <= i < c.nextStart :: StartOrder(lo)(starts[i]).0 <= now)
    && (forall i | 0 <= i < c.nextEnd :: EndOrder()(ends[i]).0 <= now)
  }

  lemma {:induction false} Separates(s: seq<Gap>, key: Gap -> (int, int), n: nat, t: int)
    requires InOrder(s, key) && n <= |s|
    requires forall i | 0 <= i < n :: key(s[i]).0 <= t
    requires n < |s| ==> t < key(s[n]).0
    ensures forall i | 0 <= i < |s| :: i < n <==> key(s[i]).0 <= t
  {
    forall i | n < i < |s| ensures key(s[i]).0 > t {
      assert Before(key(s[n]), key(s[i]));
    }
  }

  /** With every boundary through `t` popped and none beyond, the open gaps are those covering `t`. */
  lemma {:induction false} OpenNow(input: seq<Gap>, lo: int, hi: int, c: Cursor, t: int)
    requires var starts, ends := Starts(input, lo, hi), Ends(input, lo, hi);
             && c.nextStart <= |starts| && c.nextEnd <= |ends| && PoppedBy(starts, ends, lo, c, t)
             && var next := NextBoundary(starts, ends, lo, c); next.Some? ==> t < next.value
    requires lo <= t <= hi
    ensures forall g | ValidGap(g) ::
              StartedNotEnded(g, Starts(input, lo, hi), Ends(input, lo, hi), c) <==> g in input && Covers(g, t)
  {
    SelectionFacts(input, lo, hi);
    Separates(Starts(input, lo, hi), StartOrder(lo), c.nextStart, t);
    Separates(Ends(input, lo, hi), EndOrder(), c.nextEnd, t);
    forall g | ValidGap(g)
      ensures StartedNotEnded(g, Starts(input, lo, hi), Ends(input, lo, hi), c) <==> g in input && Covers(g, t)
    {
      OpenGapsCoverNow(input, lo, hi, c, t, g);
    }
  }

  /** Every boundary lies in the selection, so passing its end leaves none. */
  lemma {:induction false} NoBoundaryPastTheEnd(input: seq<Gap>, lo: int, hi: int, c: Cursor)
    requires lo <= hi
    requires c.nextStart <= |Starts(input, lo, hi)| && c.nextEnd <= |Ends(input, lo, hi)|
    ensures var next := NextBoundary(Starts(input, lo, hi), Ends(input, lo, hi), lo, c);
            && (next.Some? ==> lo <= next.value <= hi)
            && (next.None? <==> c.nextStart == |Starts(input, lo, hi)| && c.nextEnd == |Ends(input, lo, hi)|)
  {
    var starts, ends := Starts(input, lo, hi), Ends(input, lo, hi);
    SelectionFacts(input, lo, hi);
    if c.nextStart < |starts| {
      assert starts[c.nextStart] in starts;
    }
    if c.nextEnd < |ends| {
      assert ends[c.nextEnd] in ends;
    }
  }

  /** A group of equal boundaries ends before the first boundary past any later time. */
  lemma {:induction false} AdvanceThroughGroup(s: seq<Gap>, key: Gap -> (int, int), from: nat, through: int)
    requires from < |s| && key(s[from]).0 <= through
    ensures from < GroupEnd(s, key, from)
    ensures Advance(s, key, from, through) == Advance(s, key, GroupEnd(s, key, from), through)
  {
    AdvanceTwice(s, key, from, key(s[from]).0, through);
  }

  lemma {:induction false} AdvanceTwice(s: seq<Gap>, key: Gap -> (int, int), from: nat, near: int, far: int)
    requires from <= |s| && near <= far
    ensures Advance(s, key, from, far) == Advance(s, key, Advance(s, key, from, near), far)
    decreases |s| - from
  {
    if from < |s| && key(s[from]).0 <= near {
      AdvanceTwice(s, key, from + 1, near, far);
    }
  }
}
