/** Trend metrics of a probability kept with bounded history, and the quotes they are sampled from. */
module ProbabilityTrend {
  import opened Common

  datatype Settings = Settings(
    lookback: int, warmup: int, fast: real, slow: real,
    minimumTrend: real, minimumMomentum: real, noiseTrend: real, noiseMomentum: real, sampleIntervalMs: int)

  /** What the settings' own validation enforces for the fields used here. */
  predicate ValidSettings(s: Settings) {
    && 0 < s.lookback < s.warmup
    && 0.0 < s.slow < s.fast <= 1.0
    && s.minimumTrend >= 0.0 && s.minimumMomentum >= 0.0 && s.noiseTrend >= 0.0 && s.noiseMomentum >= 0.0
    && s.sampleIntervalMs > 0
  }

  datatype Metrics = Metrics(trend: real, momentum: real, noise: real)

  datatype Trend = Trend(history: seq<real>, fast: Option<real>, slow: Option<real>)

  const EMPTY := Trend([], None, None)

  datatype Direction = Up | Down

  function Abs(x: real): real { if x < 0.0 then -x else x }

  function NextEma(previous: Option<real>, value: real, alpha: real): real {
    if previous.None? then value else alpha * value + (1.0 - alpha) * previous.value
  }

  /** The last `n` entries, or all when there are fewer. */
  function Last(s: seq<real>, n: nat): seq<real> {
    if |s| <= n then s else s[|s| - n..]
  }

  /** The absolute moves between consecutive entries, added up. */
  function Moves(s: seq<real>): real {
    if |s| <= 1 then 0.0 else Moves(s[..|s| - 1]) + Abs(s[|s| - 1] - s[|s| - 2])
  }

  function NextTrend(s: Settings, t: Trend, probability: real): Trend
    requires ValidSettings(s)
  {
    Trend(Last(t.history + [probability], 2 * s.warmup),
          Some(NextEma(t.fast, probability, s.fast)), Some(NextEma(t.slow, probability, s.slow)))
  }

  function Mean(total: real, count: int): real
    requires count > 0
  {
    total / count as real
  }

  function MetricsOf(s: Settings, t: Trend): Option<Metrics>
    requires ValidSettings(s) && t.fast.Some? && t.slow.Some?
  {
    if |t.history| < s.warmup then None
    else
      var recent := Last(t.history, s.lookback + 1);
      Some(Metrics(t.fast.value - t.slow.value, recent[|recent| - 1] - recent[0], Mean(Moves(recent), |recent| - 1)))
  }

  function Observe(s: Settings, t: Trend, probability: real): (Trend, Option<Metrics>)
    requires ValidSettings(s)
  {
    var next := NextTrend(s, t, probability);
    (next, MetricsOf(s, next))
  }

  function DirectionOf(s: Settings, m: Metrics): Option<Direction> {
    var trendFloor := if s.minimumTrend >= m.noise * s.noiseTrend then s.minimumTrend else m.noise * s.noiseTrend;
    var momentumFloor :=
      if s.minimumMomentum >= m.noise * s.noiseMomentum then s.minimumMomentum else m.noise * s.noiseMomentum;
    if m.trend >= trendFloor && m.momentum >= momentumFloor then Some(Up)
    else if m.trend <= -trendFloor && m.momentum <= -momentumFloor then Some(Down)
    else None
  }

  // ---------- the complete log ----------

  /** The exponential average of a log, weighting each observation `alpha` against all before it. */
  function Ema(log: seq<real>, alpha: real): Option<real> {
    if log == [] then None else Some(NextEma(Ema(log[..|log| - 1], alpha), log[|log| - 1], alpha))
  }

  /** The metrics as defined on every observation ever made. */
  function FullMetrics(s: Settings, log: seq<real>): Option<Metrics>
    requires ValidSettings(s)
  {
    if |log| < s.warmup then None
    else
      Some(Metrics(Ema(log, s.fast).value - Ema(log, s.slow).value, log[|log| - 1] - log[|log| - 1 - s.lookback],
                   Mean(Moves(log[|log| - s.lookback - 1..]), s.lookback)))
  }

  function After(s: Settings, log: seq<real>): Trend
    requires ValidSettings(s)
  {
    if log == [] then EMPTY else NextTrend(s, After(s, log[..|log| - 1]), log[|log| - 1])
  }

  lemma {:induction false} LastOfLast(s: seq<real>, m: nat, x: real)
    requires m >= 1
    ensures Last(Last(s, m) + [x], m) == Last(s + [x], m)
  {
  }

  lemma {:induction false} AveragesOfLog(s: Settings, log: seq<real>)
    requires ValidSettings(s)
    ensures After(s, log).fast == Ema(log, s.fast) && After(s, log).slow == Ema(log, s.slow)
  {
    if log != [] {
      AveragesOfLog(s, log[..|log| - 1]);
    }
  }

  lemma {:induction false} HistoryOfLog(s: Settings, log: seq<real>)
    requires ValidSettings(s)
    ensures After(s, log).history == Last(log, 2 * s.warmup)
  {
    if log != [] {
      HistoryOfLog(s, log[..|log| - 1]);
      LastOfLast(log[..|log| - 1], 2 * s.warmup, log[|log| - 1]);
      assert log[..|log| - 1] + [log[|log| - 1]] == log;
    }
  }

  lemma {:induction false} RecentOfLast(log: seq<real>, m: nat, n: nat)
    requires n + 1 <= m <= 2 * m && n + 1 <= |log|
    ensures Last(Last(log, m), n + 1) == log[|log| - n - 1..]
  {
  }

  /** Keeping only twice the warm-up loses nothing: every observation gets the metrics of the complete log. */
  lemma {:induction false} BoundedHistoryIsEnough(s: Settings, log: seq<real>, probability: real)
    requires ValidSettings(s)
    ensures Observe(s, After(s, log), probability).1 == FullMetrics(s, log + [probability])
    ensures |After(s, log).history| <= 2 * s.warmup
  {
    HistoryOfLog(s, log);
    AveragesOfLog(s, log);
    ObserveFrom(s, log, After(s, log), probability);
  }

  lemma {:induction false} EmaNext(log: seq<real>, x: real, alpha: real)
    ensures Ema(log + [x], alpha) == Some(NextEma(Ema(log, alpha), x, alpha))
  {
    assert (log + [x])[..|log|] == log;
  }

  lemma {:induction false} ObserveFrom(s: Settings, log: seq<real>, t: Trend, probability: real)
    requires ValidSettings(s)
    requires t == Trend(Last(log, 2 * s.warmup), Ema(log, s.fast), Ema(log, s.slow))
    ensures Observe(s, t, probability).1 == FullMetrics(s, log + [probability])
  {
    var all := log + [probability];
    LastOfLast(log, 2 * s.warmup, probability);
    EmaNext(log, probability, s.fast);
    EmaNext(log, probability, s.slow);
    MetricsFrom(s, all, NextTrend(s, t, probability));
  }

  lemma {:induction false} MetricsFrom(s: Settings, log: seq<real>, t: Trend)
    requires ValidSettings(s) && log != []
    requires t == Trend(Last(log, 2 * s.warmup), Ema(log, s.fast), Ema(log, s.slow))
    ensures t.fast.Some? && t.slow.Some? && MetricsOf(s, t) == FullMetrics(s, log)
  {
    RecentMetrics(s, log, t.history);
  }

  lemma {:induction false} RecentMetrics(s: Settings, log: seq<real>, history: seq<real>)
    requires ValidSettings(s) && log != [] && history == Last(log, 2 * s.warmup)
    ensures |history| < s.warmup <==> |log| < s.warmup
    ensures |log| >= s.warmup ==>
              var recent := Last(history, s.lookback + 1);
              && recent == log[|log| - s.lookback - 1..] && |recent| - 1 == s.lookback
              && recent[|recent| - 1] == log[|log| - 1] && recent[0] == log[|log| - 1 - s.lookback]
  {
    if |log| >= s.warmup {
      RecentOfLast(log, 2 * s.warmup, s.lookback);
    }
  }

  // ---------- bounds ----------

  ghost predicate Within(s: seq<real>, lo: real, hi: real) {
    forall i | 0 <= i < |s| :: lo <= s[i] <= hi
  }

  lemma {:induction false} Blend(alpha: real, x: real, y: real, lo: real, hi: real)
    requires 0.0 < alpha <= 1.0 && lo <= x <= hi && lo <= y <= hi
    ensures lo <= alpha * x + (1.0 - alpha) * y <= hi
  {
    Product(alpha, x - lo);
    Product(1.0 - alpha, y - lo);
    Product(alpha, hi - x);
    Product(1.0 - alpha, hi - y);
    assert alpha * x + (1.0 - alpha) * y - lo == alpha * (x - lo) + (1.0 - alpha) * (y - lo);
    assert hi - (alpha * x + (1.0 - alpha) * y) == alpha * (hi - x) + (1.0 - alpha) * (hi - y);
  }

  lemma {:induction false} Product(x: real, y: real)
    requires x >= 0.0 && y >= 0.0
    ensures x * y >= 0.0
  {
  }

  /** Both averages stay between the smallest and the largest observation. */
  lemma {:induction false} EmaWithin(log: seq<real>, alpha: real, lo: real, hi: real)
    requires log != [] && 0.0 < alpha <= 1.0 && Within(log, lo, hi)
    ensures lo <= Ema(log, alpha).value <= hi
  {
    if |log| > 1 {
      EmaWithin(log[..|log| - 1], alpha, lo, hi);
      Blend(alpha, log[|log| - 1], Ema(log[..|log| - 1], alpha).value, lo, hi);
    } else {
      assert Ema(log[..0], alpha) == None;
    }
  }

  lemma {:induction false} MovesCoverDistance(s: seq<real>)
    requires s != []
    ensures Moves(s) >= 0.0 && Abs(s[|s| - 1] - s[0]) <= Moves(s)
  {
    if |s| > 1 {
      MovesCoverDistance(s[..|s| - 1]);
    }
  }

  lemma {:induction false} MeanFacts(total: real, count: int)
    requires count > 0 && total >= 0.0
    ensures Mean(total, count) >= 0.0 && count as real * Mean(total, count) == total
  {
  }

  /** Momentum never exceeds the lookback times the average move, and the trend never the spread observed. */
  lemma {:induction false} MetricsAreBounded(s: Settings, log: seq<real>, lo: real, hi: real)
    requires ValidSettings(s) && FullMetrics(s, log).Some? && Within(log, lo, hi)
    ensures var m := FullMetrics(s, log).value;
            && m.noise >= 0.0 && Abs(m.momentum) <= s.lookback as real * m.noise
            && Abs(m.trend) <= hi - lo && Abs(m.momentum) <= hi - lo
  {
    MomentumWithinNoise(s, log);
    EmaWithin(log, s.fast, lo, hi);
    EmaWithin(log, s.slow, lo, hi);
  }

  lemma {:induction false} MomentumWithinNoise(s: Settings, log: seq<real>)
    requires ValidSettings(s) && FullMetrics(s, log).Some?
    ensures var m := FullMetrics(s, log).value;
            m.noise >= 0.0 && Abs(m.momentum) <= s.lookback as real * m.noise
  {
    var recent := log[|log| - s.lookback - 1..];
    MovesCoverDistance(recent);
    MeanFacts(Moves(recent), s.lookback);
  }

  lemma {:induction false} ScaledLess(a: real, b: real, n: real)
    requires a < b && n > 0.0
    ensures n * a < n * b
  {
  }

  /** Settings that ask for more momentum than the lookback can carry never give a direction, unless nothing
      moved at all and nothing is asked for. */
  lemma {:induction false} UnreachableMultipleNeverTrades(s: Settings, log: seq<real>)
    requires ValidSettings(s) && FullMetrics(s, log).Some?
    requires s.noiseMomentum > s.lookback as real && s.minimumMomentum > 0.0
    ensures DirectionOf(s, FullMetrics(s, log).value) == None
  {
    MomentumWithinNoise(s, log);
    TooWeak(s, FullMetrics(s, log).value);
  }

  lemma {:induction false} TooWeak(s: Settings, m: Metrics)
    requires ValidSettings(s) && m.noise >= 0.0 && Abs(m.momentum) <= s.lookback as real * m.noise
    requires s.noiseMomentum > s.lookback as real && s.minimumMomentum > 0.0
    ensures DirectionOf(s, m) == None
  {
    if m.noise > 0.0 {
      Weaker(s.lookback as real, s.noiseMomentum, m.noise, Abs(m.momentum));
    } else {
      assert m.momentum == 0.0;
    }
  }

  lemma {:induction false} Weaker(lookback: real, multiple: real, noise: real, momentum: real)
    requires noise > 0.0 && lookback < multiple && momentum <= lookback * noise
    ensures momentum < noise * multiple
  {
    ScaledLess(lookback, multiple, noise);
  }

  /** The average of complements is the complement of the average. */
  lemma {:induction false} EmaMirrors(log: seq<real>, alpha: real)
    requires log != []
    ensures Ema(Mirrored(log), alpha) == Some(1.0 - Ema(log, alpha).value)
  {
    var other := Mirrored(log);
    assert other[..|log| - 1] == Mirrored(log[..|log| - 1]);
    if |log| > 1 {
      EmaMirrors(log[..|log| - 1], alpha);
      BlendMirrors(alpha, log[|log| - 1], Ema(log[..|log| - 1], alpha).value);
    } else {
      assert Ema(other[..0], alpha) == None && Ema(log[..0], alpha) == None;
    }
  }

  lemma {:induction false} BlendMirrors(alpha: real, x: real, e: real)
    ensures NextEma(Some(1.0 - e), 1.0 - x, alpha) == 1.0 - NextEma(Some(e), x, alpha)
  {
  }

  function Mirrored(log: seq<real>): (r: seq<real>)
    ensures |r| == |log| && forall i | 0 <= i < |r| :: r[i] == 1.0 - log[i]
  {
    seq(|log|, i requires 0 <= i < |log| => 1.0 - log[i])
  }

  lemma {:induction false} MovesMirror(s: seq<real>)
    ensures Moves(Mirrored(s)) == Moves(s)
  {
    if |s| > 1 {
      MovesMirror(s[..|s| - 1]);
      assert Mirrored(s)[..|s| - 1] == Mirrored(s[..|s| - 1]);
    }
  }

  /** The two outcomes are treated alike: the complementary probabilities give the opposite metrics. */
  lemma {:induction false} MetricsMirror(s: Settings, log: seq<real>)
    requires ValidSettings(s)
    ensures FullMetrics(s, Mirrored(log)).Some? <==> FullMetrics(s, log).Some?
    ensures FullMetrics(s, log).Some? ==>
              var m := FullMetrics(s, log).value;
              FullMetrics(s, Mirrored(log)) == Some(Metrics(-m.trend, -m.momentum, m.noise))
  {
    if |log| >= s.warmup {
      EmaMirrors(log, s.fast);
      EmaMirrors(log, s.slow);
      RecentMirrors(log, |log| - s.lookback - 1);
    }
  }

  lemma {:induction false} RecentMirrors(log: seq<real>, k: nat)
    requires k < |log|
    ensures Moves(Mirrored(log)[k..]) == Moves(log[k..])
    ensures Mirrored(log)[|log| - 1] - Mirrored(log)[k] == -(log[|log| - 1] - log[k])
  {
    assert Mirrored(log)[k..] == Mirrored(log[k..]);
    MovesMirror(log[k..]);
  }

  // ---------- which way ----------

  function Opposite(d: Option<Direction>): Option<Direction> {
    if d == Some(Up) then Some(Down) else if d == Some(Down) then Some(Up) else None
  }

  /** At least the fixed minimum and at least the noise's multiple. */
  predicate Clears(x: real, minimum: real, multiple: real, noise: real) {
    x >= minimum && x >= noise * multiple
  }

  /** Trend and momentum, taken with the sign of the direction, both clear their thresholds. */
  predicate Calls(s: Settings, m: Metrics, d: Direction) {
    var sign := if d.Up? then 1.0 else -1.0;
    && Clears(sign * m.trend, s.minimumTrend, s.noiseTrend, m.noise)
    && Clears(sign * m.momentum, s.minimumMomentum, s.noiseMomentum, m.noise)
  }

  lemma {:induction false} ThresholdsAreNonNegative(s: Settings, m: Metrics)
    requires ValidSettings(s) && m.noise >= 0.0
    ensures m.noise * s.noiseTrend >= 0.0 && m.noise * s.noiseMomentum >= 0.0
  {
    Product(m.noise, s.noiseTrend);
    Product(m.noise, s.noiseMomentum);
  }

  /** Up needs a rise that clears both thresholds and down a fall; both at once only on metrics of zero, with
      no threshold in the way, and those are called up. */
  lemma {:induction false} DirectionFollowsSign(s: Settings, m: Metrics)
    requires ValidSettings(s) && m.noise >= 0.0
    ensures DirectionOf(s, m) == Some(Up) <==> Calls(s, m, Up)
    ensures DirectionOf(s, m) == Some(Down) <==> Calls(s, m, Down) && !Calls(s, m, Up)
    ensures Calls(s, m, Up) ==> m.trend >= 0.0 && m.momentum >= 0.0
    ensures Calls(s, m, Down) ==> m.trend <= 0.0 && m.momentum <= 0.0
    ensures Calls(s, m, Up) && s.minimumMomentum > 0.0 ==> m.momentum > 0.0
    ensures Calls(s, m, Down) && s.minimumMomentum > 0.0 ==> m.momentum < 0.0
  {
    ThresholdsAreNonNegative(s, m);
  }

  /** Trend and momentum are zero, and no threshold asks for more. */
  predicate StillWithoutThreshold(s: Settings, m: Metrics) {
    && m.trend == 0.0 && m.momentum == 0.0
    && Clears(0.0, s.minimumTrend, s.noiseTrend, m.noise) && Clears(0.0, s.minimumMomentum, s.noiseMomentum, m.noise)
  }

  /** The complementary observations call the opposite direction, except exactly when trend and momentum are
      zero and no threshold asks for more: then both outcomes are called up. */
  lemma {:induction false} ComplementCallsOpposite(s: Settings, log: seq<real>)
    requires ValidSettings(s) && FullMetrics(s, log).Some?
    ensures FullMetrics(s, Mirrored(log)).Some?
    ensures var d := DirectionOf(s, FullMetrics(s, log).value);
            var other := DirectionOf(s, FullMetrics(s, Mirrored(log)).value);
            && (other == Opposite(d) <==> !StillWithoutThreshold(s, FullMetrics(s, log).value))
            && (StillWithoutThreshold(s, FullMetrics(s, log).value) ==> d == other == Some(Up))
  {
    MetricsMirror(s, log);
    MomentumWithinNoise(s, log);
    var m := FullMetrics(s, log).value;
    OppositeMetrics(s, m, Metrics(-m.trend, -m.momentum, m.noise));
  }

  lemma {:induction false} OppositeMetrics(s: Settings, m: Metrics, other: Metrics)
    requires ValidSettings(s) && m.noise >= 0.0 && other == Metrics(-m.trend, -m.momentum, m.noise)
    ensures DirectionOf(s, other) == Opposite(DirectionOf(s, m)) <==> !StillWithoutThreshold(s, m)
    ensures StillWithoutThreshold(s, m) ==> DirectionOf(s, m) == DirectionOf(s, other) == Some(Up)
  {
    ThresholdsAreNonNegative(s, m);
    DirectionFollowsSign(s, m);
    DirectionFollowsSign(s, other);
  }

  /** Such a market: thresholds of zero are valid settings, and a price that stands still is called up. */
  lemma {:induction false} StillMarketCallsUp()
    ensures var s := Settings(1, 2, 1.0, 0.5, 0.0, 0.0, 0.0, 0.0, 1000);
            && ValidSettings(s) && FullMetrics(s, [0.5, 0.5]).Some?
            && DirectionOf(s, FullMetrics(s, [0.5, 0.5]).value) == Some(Up)
            && FullMetrics(s, Mirrored([0.5, 0.5])).Some?
            && DirectionOf(s, FullMetrics(s, Mirrored([0.5, 0.5])).value) == Some(Up)
  {
    var s, log := Settings(1, 2, 1.0, 0.5, 0.0, 0.0, 0.0, 0.0, 1000), [0.5, 0.5];
    EmaWithin(log, 1.0, 0.5, 0.5);
    EmaWithin(log, 0.5, 0.5, 0.5);
    ComplementCallsOpposite(s, log);
  }

  ghost predicate Rising(log: seq<real>) {
    forall i, j | 0 <= i < j < |log| :: log[i] <= log[j]
  }

  /** The faster average of a rising log is never behind the slower one. */
  lemma {:induction false} FastLeads(log: seq<real>, fast: real, slow: real)
    requires Rising(log) && log != [] && 0.0 < slow <= fast <= 1.0
    ensures Ema(log, slow).value <= Ema(log, fast).value
  {
    if |log| > 1 {
      var front, x := log[..|log| - 1], log[|log| - 1];
      FastLeads(front, fast, slow);
      EmaWithin(front, slow, log[0], x);
      Ahead(fast, slow, x, Ema(front, fast), Ema(front, slow));
    } else {
      assert Ema(log[..0], fast) == None && Ema(log[..0], slow) == None;
    }
  }

  lemma {:induction false} Ahead(fast: real, slow: real, x: real, ahead: Option<real>, behind: Option<real>)
    requires ahead.Some? && behind.Some? && slow <= fast <= 1.0 && behind.value <= x && behind.value <= ahead.value
    ensures NextEma(behind, x, slow) <= NextEma(ahead, x, fast)
  {
    var a, b := ahead.value, behind.value;
    Product(fast - slow, x - b);
    Product(1.0 - fast, a - b);
    assert fast * x + (1.0 - fast) * a - (slow * x + (1.0 - slow) * b) == (fast - slow) * (x - b) + (1.0 - fast) * (a - b);
  }

  lemma {:induction false} RisingMoves(s: seq<real>)
    requires Rising(s) && s != []
    ensures Moves(s) == s[|s| - 1] - s[0]
  {
    if |s| > 1 {
      RisingMoves(s[..|s| - 1]);
    }
  }

  lemma {:induction false} RecentRise(log: seq<real>, k: nat)
    requires Rising(log) && k < |log|
    ensures Moves(log[k..]) == log[|log| - 1] - log[k] >= 0.0
  {
    RisingMoves(log[k..]);
  }

  lemma {:induction false} RisingMomentum(s: Settings, log: seq<real>)
    requires ValidSettings(s) && FullMetrics(s, log).Some? && Rising(log)
    ensures var m := FullMetrics(s, log).value;
            m.momentum >= 0.0 && s.lookback as real * m.noise == m.momentum
  {
    var k := |log| - 1 - s.lookback;
    RecentRise(log, k);
    var moves := Moves(log[k..]);
    MeanFacts(moves, s.lookback);
    assert FullMetrics(s, log).value.noise == Mean(moves, s.lookback);
  }

  /** A market that only rises is never called down, and all its noise is momentum. */
  lemma {:induction false} RisingMarket(s: Settings, log: seq<real>)
    requires ValidSettings(s) && FullMetrics(s, log).Some? && Rising(log)
    ensures var m := FullMetrics(s, log).value;
            && m.trend >= 0.0 && m.momentum >= 0.0 && s.lookback as real * m.noise == m.momentum
            && DirectionOf(s, m) != Some(Down)
  {
    FastLeads(log, s.fast, s.slow);
    RisingMomentum(s, log);
    MomentumWithinNoise(s, log);
    NotDown(s, FullMetrics(s, log).value);
  }

  lemma {:induction false} NotDown(s: Settings, m: Metrics)
    requires ValidSettings(s) && m.noise >= 0.0 && m.trend >= 0.0 && m.momentum >= 0.0
    ensures DirectionOf(s, m) != Some(Down)
  {
    DirectionFollowsSign(s, m);
  }

  // ---------- quotes ----------

  datatype Level = Level(price: real, size: real)

  datatype Quote = Quote(bestBid: real, bestAsk: real, bestAskSize: real, microprice: real, spread: real,
                         bidDepth: real, askDepth: real, imbalance: real)

  /** Best level first; levels of one price keep their order. */
  function Insert(sorted: seq<Level>, x: Level, descending: bool): seq<Level> {
    if sorted == [] then [x]
    else
      var last := sorted[|sorted| - 1];
      if (if descending then last.price >= x.price else last.price <= x.price) then sorted + [x]
      else Insert(sorted[..|sorted| - 1], x, descending) + [last]
  }

  function Sorted(levels: seq<Level>, descending: bool): seq<Level> {
    if levels == [] then [] else Insert(Sorted(levels[..|levels| - 1], descending), levels[|levels| - 1], descending)
  }

  function Sizes(levels: seq<Level>): real {
    if levels == [] then 0.0 else Sizes(levels[..|levels| - 1]) + levels[|levels| - 1].size
  }

  function TopThree(levels: seq<Level>): seq<Level> {
    if |levels| <= 3 then levels else levels[..3]
  }

  function Microprice(bid: Level, ask: Level): real
    requires bid.size + ask.size > 0.0
  {
    (ask.price * bid.size + bid.price * ask.size) / (bid.size + ask.size)
  }

  function Imbalance(bidDepth: real, askDepth: real): real
    requires bidDepth + askDepth > 0.0
  {
    (bidDepth - askDepth) / (bidDepth + askDepth)
  }

  function FromBook(bids: seq<Level>, asks: seq<Level>): Option<Quote> {
    if bids == [] || asks == [] then None
    else
      var b, a := Sorted(bids, true), Sorted(asks, false);
      if b == [] || a == [] then None
      else
        var bestSize := b[0].size + a[0].size;
        if bestSize <= 0.0 then None
        else
          var bidDepth, askDepth := Sizes(TopThree(b)), Sizes(TopThree(a));
          if bidDepth + askDepth <= 0.0 then None
          else Some(Quote(b[0].price, a[0].price, a[0].size,
                          Microprice(b[0], a[0]), a[0].price - b[0].price, bidDepth, askDepth,
                          Imbalance(bidDepth, askDepth)))
  }

  predicate ValidLevel(l: Level) { l.price >= 0.0 && l.size >= 0.0 }

  lemma {:induction false} InsertMembers(s: seq<Level>, x: Level, descending: bool, l: Level)
    ensures l in Insert(s, x, descending) <==> l in s || l == x
    ensures |Insert(s, x, descending)| == |s| + 1
  {
    if s != [] {
      var front, last := s[..|s| - 1], s[|s| - 1];
      InsertMembers(front, x, descending, l);
      assert s == front + [last];
    }
  }

  lemma {:induction false} SortedMembers(levels: seq<Level>, descending: bool, l: Level)
    ensures l in Sorted(levels, descending) <==> l in levels
    ensures |Sorted(levels, descending)| == |levels|
  {
    if levels != [] {
      SortedMembers(levels[..|levels| - 1], descending, l);
      InsertMembers(Sorted(levels[..|levels| - 1], descending), levels[|levels| - 1], descending, l);
      assert levels == levels[..|levels| - 1] + [levels[|levels| - 1]];
    }
  }

  /** Each level is at least as good as every level after it. */
  ghost predicate Ordered(s: seq<Level>, descending: bool) {
    forall i, j | 0 <= i < j < |s| :: if descending then s[i].price >= s[j].price else s[i].price <= s[j].price
  }

  lemma {:induction false} InsertOrdered(s: seq<Level>, x: Level, descending: bool)
    requires Ordered(s, descending)
    ensures Ordered(Insert(s, x, descending), descending)
  {
    if s != [] {
      var front, last := s[..|s| - 1], s[|s| - 1];
      if !(if descending then last.price >= x.price else last.price <= x.price) {
        InsertOrdered(front, x, descending);
        var inner := Insert(front, x, descending);
        forall i | 0 <= i < |inner|
          ensures if descending then inner[i].price >= last.price else inner[i].price <= last.price
        {
          InsertMembers(front, x, descending, inner[i]);
          assert inner[i] in inner;
        }
      }
    }
  }

  lemma {:induction false} SortedOrdered(levels: seq<Level>, descending: bool)
    ensures Ordered(Sorted(levels, descending), descending)
  {
    if levels != [] {
      SortedOrdered(levels[..|levels| - 1], descending);
      InsertOrdered(Sorted(levels[..|levels| - 1], descending), levels[|levels| - 1], descending);
    }
  }

  lemma {:induction false} SizesNonnegative(levels: seq<Level>)
    requires forall l | l in levels :: ValidLevel(l)
    ensures Sizes(levels) >= 0.0
  {
    if levels != [] {
      SizesNonnegative(levels[..|levels| - 1]);
      assert ValidLevel(levels[|levels| - 1]);
    }
  }

  lemma {:induction false} ShareWithin(x: real, y: real)
    requires x >= 0.0 && y >= 0.0 && x + y > 0.0
    ensures -1.0 <= (x - y) / (x + y) <= 1.0 && 0.0 <= x / (x + y) <= 1.0
  {
    var n := x + y;
    QuotientAtMost(x - y, n, 1.0);
    QuotientAtMost(y - x, n, 1.0);
    QuotientAtMost(x, n, 1.0);
    QuotientAtMost(-x, n, 0.0);
    NegatedQuotient(x - y, n);
    NegatedQuotient(x, n);
  }

  lemma {:induction false} QuotientAtMost(x: real, n: real, bound: real)
    requires n > 0.0 && x <= bound * n
    ensures x / n <= bound
  {
    var q := x / n;
    assert q * n == x;
    if q > bound {
      ScaledLess(bound, q, n);
      assert false;
    }
  }

  lemma {:induction false} NegatedQuotient(x: real, n: real)
    requires n > 0.0
    ensures (-x) / n == -(x / n)
  {
  }

  lemma {:induction false} MicropriceWithin(bid: Level, ask: Level, lo: real, hi: real)
    requires bid.size >= 0.0 && ask.size >= 0.0 && bid.size + ask.size > 0.0
    requires lo <= bid.price <= hi && lo <= ask.price <= hi
    ensures lo <= Microprice(bid, ask) <= hi
  {
    var n, total := bid.size + ask.size, ask.price * bid.size + bid.price * ask.size;
    Product(ask.price - lo, bid.size);
    Product(bid.price - lo, ask.size);
    Product(hi - ask.price, bid.size);
    Product(hi - bid.price, ask.size);
    Weights(ask.price, bid.size, bid.price, ask.size, lo);
    Weights(ask.price, bid.size, bid.price, ask.size, hi);
    QuotientAtMost(total, n, hi);
    NegatedQuotient(total, n);
    QuotientAtMost(-total, n, -lo);
  }

  lemma {:induction false} Weights(p: real, m: real, q: real, n: real, c: real)
    ensures (p - c) * m + (q - c) * n == (p * m + q * n) - c * (m + n)
    ensures (c - p) * m + (c - q) * n == c * (m + n) - (p * m + q * n)
    ensures (-c) * (m + n) == -(c * (m + n))
  {
  }

  ghost predicate IsBest(levels: seq<Level>, price: real, descending: bool) {
    && (exists l :: l in levels && l.price == price)
    && forall l | l in levels :: if descending then l.price <= price else l.price >= price
  }

  /** A quote takes the best price of each side whatever the order of the book, keeps the microprice between
      them and the imbalance between minus one and one. */
  lemma {:induction false} QuoteIsSound(bids: seq<Level>, asks: seq<Level>)
    requires (forall l | l in bids :: ValidLevel(l)) && (forall l | l in asks :: ValidLevel(l))
    requires FromBook(bids, asks).Some?
    ensures var q := FromBook(bids, asks).value;
            && IsBest(bids, q.bestBid, true) && IsBest(asks, q.bestAsk, false)
            && (q.bestBid <= q.bestAsk ==> q.bestBid <= q.microprice <= q.bestAsk) && q.microprice >= 0.0
            && q.bidDepth >= 0.0 && q.askDepth >= 0.0 && -1.0 <= q.imbalance <= 1.0
  {
    var b, a := Sorted(bids, true), Sorted(asks, false);
    BestOf(bids, true);
    BestOf(asks, false);
    SideDepth(bids, true);
    SideDepth(asks, false);
    QuoteValues(b[0], a[0], Sizes(TopThree(b)), Sizes(TopThree(a)));
  }

  lemma {:induction false} QuoteValues(bid: Level, ask: Level, bidDepth: real, askDepth: real)
    requires ValidLevel(bid) && ValidLevel(ask) && bid.size + ask.size > 0.0
    requires bidDepth >= 0.0 && askDepth >= 0.0 && bidDepth + askDepth > 0.0
    ensures Microprice(bid, ask) >= 0.0 && (bid.price <= ask.price ==> bid.price <= Microprice(bid, ask) <= ask.price)
    ensures -1.0 <= Imbalance(bidDepth, askDepth) <= 1.0
  {
    ShareWithin(bidDepth, askDepth);
    MicropriceWithin(bid, ask, 0.0, if bid.price > ask.price then bid.price else ask.price);
    if bid.price <= ask.price {
      MicropriceWithin(bid, ask, bid.price, ask.price);
    }
  }

  lemma {:induction false} BestOf(levels: seq<Level>, descending: bool)
    requires levels != [] && forall l | l in levels :: ValidLevel(l)
    ensures var s := Sorted(levels, descending);
            && s != [] && s[0] in levels && ValidLevel(s[0])
            && IsBest(levels, s[0].price, descending)
  {
    var s := Sorted(levels, descending);
    SortedMembers(levels, descending, levels[0]);
    SortedMembers(levels, descending, s[0]);
    SortedOrdered(levels, descending);
    forall l | l in levels ensures if descending then l.price <= s[0].price else l.price >= s[0].price {
      SortedMembers(levels, descending, l);
      var i :| 0 <= i < |s| && s[i] == l;
    }
  }

  lemma {:induction false} SideDepth(levels: seq<Level>, descending: bool)
    requires forall l | l in levels :: ValidLevel(l)
    ensures Sizes(TopThree(Sorted(levels, descending))) >= 0.0
  {
    var top := TopThree(Sorted(levels, descending));
    forall l | l in top ensures ValidLevel(l) {
      SortedMembers(levels, descending, l);
    }
    SizesNonnegative(top);
  }

  // ---------- sampling a pair of books ----------

  datatype Book = Book(bids: seq<Level>, asks: seq<Level>, receivedAtMs: int)

  /** One sample: none when too soon, not current, or either book or their prices say nothing. */
  function Probability(s: Settings, prior: Option<int>, current: bool, up: Book, down: Book): Option<real> {
    var at := if up.receivedAtMs <= down.receivedAtMs then up.receivedAtMs else down.receivedAtMs;
    if prior.Some? && at - prior.value < s.sampleIntervalMs then None
    else if !current then None
    else
      var u, d := FromBook(up.bids, up.asks), FromBook(down.bids, down.asks);
      if u.None? || d.None? then None
      else if u.value.microprice + d.value.microprice <= 0.0 then None
      else Some(u.value.microprice / (u.value.microprice + d.value.microprice))
  }

  /** What is observed is always a probability, so averages stay in the unit interval too. */
  lemma {:induction false} ObservationIsProbability(s: Settings, prior: Option<int>, current: bool, up: Book, down: Book)
    requires (forall l | l in up.bids :: ValidLevel(l)) && (forall l | l in up.asks :: ValidLevel(l))
    requires (forall l | l in down.bids :: ValidLevel(l)) && (forall l | l in down.asks :: ValidLevel(l))
    requires Probability(s, prior, current, up, down).Some?
    ensures 0.0 <= Probability(s, prior, current, up, down).value <= 1.0
  {
    QuoteIsSound(up.bids, up.asks);
    QuoteIsSound(down.bids, down.asks);
    ShareWithin(FromBook(up.bids, up.asks).value.microprice, FromBook(down.bids, down.asks).value.microprice);
  }
}
