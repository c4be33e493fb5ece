/** What every history of launches, claims and lifecycle changes keeps. */
module RunLimits {
  import opened Common
  import opened RunAdmission

  ghost predicate CapsHold(s: State) {
    && |WithStatus(s.runs, INTERRUPTIBLE)| <= GLOBAL_ACTIVE_RUNS
    && |WithStatus(s.runs, {Queued})| <= GLOBAL_QUEUED_RUNS
    && forall owner: nat :: OwnerCaps(s, owner)
  }

  predicate OwnerCaps(s: State, owner: nat) {
    && |OwnedWith(s.runs, owner, INTERRUPTIBLE)| <= ACTIVE_RUNS
    && |OwnedWith(s.runs, owner, {Queued})| <= QUEUED_RUNS
  }

  // ---------- counting ----------

  lemma {:induction false} SubsetCount(a: set<nat>, b: set<nat>)
    requires a <= b
    ensures |a| <= |b|
  {
    if a != {} {
      var x :| x in a;
      SubsetCount(a - {x}, b - {x});
    }
  }

  /** Changing one run's status adds that run at most to the sets of its new status. */
  lemma {:induction false} CountsAfterMove(runs: map<nat, Run>, id: nat, status: Status, statuses: set<Status>, owner: nat)
    requires id in runs
    ensures var runs' := runs[id := runs[id].(status := status)];
            && (status !in statuses || runs[id].status in statuses ==>
                  |WithStatus(runs', statuses)| <= |WithStatus(runs, statuses)| &&
                  |OwnedWith(runs', owner, statuses)| <= |OwnedWith(runs, owner, statuses)|)
            && |WithStatus(runs', statuses)| <= |WithStatus(runs, statuses)| + 1
            && |OwnedWith(runs', owner, statuses)| <= |OwnedWith(runs, owner, statuses)| + 1
            && (owner != runs[id].owner ==> OwnedWith(runs', owner, statuses) == OwnedWith(runs, owner, statuses))
  {
    var runs' := runs[id := runs[id].(status := status)];
    WithOneMore(WithStatus(runs', statuses), WithStatus(runs, statuses), id);
    WithOneMore(OwnedWith(runs', owner, statuses), OwnedWith(runs, owner, statuses), id);
  }

  lemma {:induction false} WithOneMore(a: set<nat>, b: set<nat>, id: nat)
    requires a <= b + {id}
    ensures |a| <= |b| + 1
    ensures a <= b ==> |a| <= |b|
  {
    SubsetCount(a, b + {id});
    if a <= b {
      SubsetCount(a, b);
    }
  }

  lemma {:induction false} OwnedAfterLaunch(runs: map<nat, Run>, id: nat, run: Run, owner: nat)
    requires id !in runs && run.status == Queued
    ensures OwnedWith(runs[id := run], owner, INTERRUPTIBLE) == OwnedWith(runs, owner, INTERRUPTIBLE)
    ensures |OwnedWith(runs[id := run], owner, {Queued})| <= |OwnedWith(runs, owner, {Queued})| + 1
    ensures owner != run.owner ==> OwnedWith(runs[id := run], owner, {Queued}) == OwnedWith(runs, owner, {Queued})
  {
    var before, after := OwnedWith(runs, owner, {Queued}), OwnedWith(runs[id := run], owner, {Queued});
    assert after <= before + {id};
    WithOneMore(after, before, id);
  }

  lemma {:induction false} CountsAfterLaunch(runs: map<nat, Run>, id: nat, run: Run, owner: nat)
    requires id !in runs && run.status == Queued
    ensures WithStatus(runs[id := run], INTERRUPTIBLE) == WithStatus(runs, INTERRUPTIBLE)
    ensures OwnedWith(runs[id := run], owner, INTERRUPTIBLE) == OwnedWith(runs, owner, INTERRUPTIBLE)
    ensures |WithStatus(runs[id := run], {Queued})| <= |WithStatus(runs, {Queued})| + 1
    ensures |OwnedWith(runs[id := run], owner, {Queued})| <= |OwnedWith(runs, owner, {Queued})| + 1
    ensures owner != run.owner ==> OwnedWith(runs[id := run], owner, {Queued}) == OwnedWith(runs, owner, {Queued})
  {
    OwnedAfterLaunch(runs, id, run, owner);
    WithOneMore(WithStatus(runs[id := run], {Queued}), WithStatus(runs, {Queued}), id);
  }

  // ---------- one step ----------

  /** A status change that neither enters the queue nor activates a queued run keeps every cap. */
  lemma {:induction false} MoveKeepsCaps(s: State, id: nat, status: Status)
    requires CapsHold(s) && id in s.runs && status != Queued
    requires status in INTERRUPTIBLE ==> s.runs[id].status in INTERRUPTIBLE
    ensures CapsHold(s.(runs := s.runs[id := s.runs[id].(status := status)]))
  {
    var s' := s.(runs := s.runs[id := s.runs[id].(status := status)]);
    CountsAfterMove(s.runs, id, status, INTERRUPTIBLE, 0);
    CountsAfterMove(s.runs, id, status, {Queued}, 0);
    forall owner: nat ensures OwnerCaps(s', owner) {
      assert OwnerCaps(s, owner);
      CountsAfterMove(s.runs, id, status, INTERRUPTIBLE, owner);
      CountsAfterMove(s.runs, id, status, {Queued}, owner);
    }
  }

  lemma {:induction false} ClaimKeepsCaps(s: State, id: nat)
    requires CapsHold(s)
    ensures CapsHold(ClaimStep(s, id).0)
  {
    var s' := ClaimStep(s, id).0;
    if s' != s {
      ClaimTakesEarliest(s);
      CountsAfterMove(s.runs, id, Starting, INTERRUPTIBLE, 0);
      CountsAfterMove(s.runs, id, Starting, {Queued}, 0);
      forall owner: nat ensures OwnerCaps(s', owner) {
        assert OwnerCaps(s, owner);
        CountsAfterMove(s.runs, id, Starting, INTERRUPTIBLE, owner);
        CountsAfterMove(s.runs, id, Starting, {Queued}, owner);
      }
    }
  }

  lemma {:induction false} LaunchKeepsCaps(s: State, bot: nat, id: nat, createdAt: int, key: Option<nat>)
    requires CapsHold(s)
    ensures CapsHold(LaunchStep(s, bot, id, createdAt, key).0)
  {
    var s' := LaunchStep(s, bot, id, createdAt, key).0;
    if s' != s {
      var run := Run(bot, s.bots[bot], key, createdAt, Queued);
      CountsAfterLaunch(s.runs, id, run, 0);
      forall owner: nat ensures OwnerCaps(s', owner) {
        assert OwnerCaps(s, owner);
        CountsAfterLaunch(s.runs, id, run, owner);
      }
    }
  }

  /** Every guarded update follows an edge of the lifecycle graph or changes nothing. */
  lemma {:induction false} TransitionFollowsGraph(s: State, id: nat, status: Status, expected: Option<set<Status>>, matched: bool)
    ensures var (s', outcome) := TransitionRow(s, id, status, expected, matched);
            if outcome.Moved? then
              && id in s.runs && status in NextStatuses(s.runs[id].status)
              && (expected.Some? && expected.value != {} ==> s.runs[id].status in expected.value)
              && s' == s.(runs := s.runs[id := s.runs[id].(status := status)])
            else s' == s
  {
  }

  lemma {:induction false} TransitionKeepsCaps(s: State, id: nat, status: Status, expected: Option<set<Status>>, matched: bool)
    requires CapsHold(s) && status != Starting
    ensures CapsHold(TransitionRow(s, id, status, expected, matched).0)
  {
    TransitionFollowsGraph(s, id, status, expected, matched);
    if TransitionRow(s, id, status, expected, matched).1.Moved? {
      NothingEntersQueue(s.runs[id].status, status);
      MoveKeepsCaps(s, id, status);
    }
  }

  /** Only a claim takes a run from the queue into an active state, and nothing returns to the queue. */
  lemma {:induction false} NothingEntersQueue(from: Status, to: Status)
    requires to in NextStatuses(from)
    ensures to != Queued
    ensures to in INTERRUPTIBLE && from !in INTERRUPTIBLE ==> from == Queued && to == Starting
  {
    match from
    case Queued =>
    case Starting =>
    case Running =>
    case StopRequested =>
    case Stopping =>
    case _ =>
  }

  lemma {:induction false} StepKeepsCaps(s: State, op: Op)
    requires CapsHold(s)
    ensures CapsHold(Step(s, op).0)
  {
    match op
    case Launch(bot, id, at, key) => LaunchKeepsCaps(s, bot, id, at, key);
    case Claim(id) => ClaimKeepsCaps(s, id);
    case RequestStop(id) =>
      TransitionKeepsCaps(s, id, Stopped, Some({Queued}), true);
      TransitionFollowsGraph(s, id, Stopped, Some({Queued}), true);
      TransitionKeepsCaps(s, id, StopRequested, Some(OWNED_STOP_PREVIOUS), true);
    case MarkRunning(id, matched) => TransitionKeepsCaps(s, id, Running, None, matched);
    case BeginStopping(id, matched) => TransitionKeepsCaps(s, id, Stopping, None, matched);
    case FailQueued(id) => TransitionKeepsCaps(s, id, Failed, Some({Queued}), true);
    case Finish(id, status, matched) =>
      if Terminal(status) {
        TransitionKeepsCaps(s, id, status, if status == Stopped then Some({Stopping}) else None, matched);
      }
    case InterruptExpired(id, matched) => TransitionKeepsCaps(s, id, Interrupted, None, matched);
    case Terminate(id) =>
      if id in s.runs {
        TransitionKeepsCaps(s, id, if s.runs[id].status == Queued then Stopped else Interrupted, None, true);
      }
    case SetPaused(p) => SameRunsSameCaps(s, Step(s, op).0);
    case SetAccess(owner, allowed) => SameRunsSameCaps(s, Step(s, op).0);
  }

  lemma {:induction false} SameRunsSameCaps(s: State, s': State)
    requires CapsHold(s) && s'.runs == s.runs
    ensures CapsHold(s')
  {
    forall owner: nat ensures OwnerCaps(s', owner) {
      assert OwnerCaps(s, owner);
    }
  }

  // ---------- whole histories ----------

  /** Per-owner and global caps, active and queued, hold after every history of steps. */
  lemma {:induction false} CapsAlwaysHold(s: State, ops: seq<Op>)
    requires s.runs == map[]
    ensures CapsHold(RunAll(s, ops))
  {
    if ops == [] {
      assert WithStatus(s.runs, INTERRUPTIBLE) == {} && WithStatus(s.runs, {Queued}) == {};
      forall owner: nat ensures OwnerCaps(s, owner) {
        assert OwnedWith(s.runs, owner, INTERRUPTIBLE) == {} && OwnedWith(s.runs, owner, {Queued}) == {};
      }
    } else {
      CapsAlwaysHold(s, ops[..|ops| - 1]);
      StepKeepsCaps(RunAll(s, ops[..|ops| - 1]), ops[|ops| - 1]);
    }
  }

  /** How far along a status is; no edge of the graph ever goes back. */
  function Rank(s: Status): nat {
    match s
    case Queued => 0
    case Starting => 1
    case Running => 2
    case StopRequested => 3
    case Stopping => 4
    case _ => 5
  }

  /** One step never removes a run or changes its owner or age, and moves its status along an edge or not at all. */
  lemma {:induction false} StepMovesForward(s: State, op: Op, id: nat)
    requires id in s.runs
    ensures var s' := Step(s, op).0; id in s'.runs && MovedForward(s.runs[id], s'.runs[id])
  {
    match op
    case Launch(bot, i, at, key) =>
    case Claim(i) =>
    case RequestStop(i) =>
      RowMovesForward(s, i, Stopped, Some({Queued}), true, id);
      RowMovesForward(s, i, StopRequested, Some(OWNED_STOP_PREVIOUS), true, id);
    case MarkRunning(i, matched) => RowMovesForward(s, i, Running, None, matched, id);
    case BeginStopping(i, matched) => RowMovesForward(s, i, Stopping, None, matched, id);
    case FailQueued(i) => RowMovesForward(s, i, Failed, Some({Queued}), true, id);
    case Finish(i, status, matched) =>
      RowMovesForward(s, i, status, if status == Stopped then Some({Stopping}) else None, matched, id);
    case InterruptExpired(i, matched) => RowMovesForward(s, i, Interrupted, None, matched, id);
    case Terminate(i) =>
      if i in s.runs {
        RowMovesForward(s, i, if s.runs[i].status == Queued then Stopped else Interrupted, None, true, id);
      }
    case SetPaused(_) =>
    case SetAccess(_, _) =>
  }

  predicate MovedForward(before: Run, after: Run) {
    && after == before.(status := after.status)
    && (after.status == before.status
        || (after.status in NextStatuses(before.status) && Rank(before.status) < Rank(after.status)))
  }

  lemma {:induction false} RowMovesForward(s: State, i: nat, status: Status, expected: Option<set<Status>>, matched: bool,
                                           id: nat)
    requires id in s.runs
    ensures var (s', outcome) := TransitionRow(s, i, status, expected, matched);
            && id in s'.runs && MovedForward(s.runs[id], s'.runs[id])
            && (!outcome.Moved? ==> s' == s)
  {
    TransitionFollowsGraph(s, i, status, expected, matched);
    if i in s.runs {
      EdgesGoForward(s.runs[i].status, status);
    }
  }

  lemma {:induction false} EdgesGoForward(from: Status, to: Status)
    ensures to in NextStatuses(from) ==> Rank(from) < Rank(to)
  {
    match from
    case Queued =>
    case _ =>
  }

  /** The only way into an active status is a claim of that run, and the only way into the queue its launch. */
  lemma {:induction false} OnlyClaimActivates(s: State, op: Op, id: nat)
    requires id in Step(s, op).0.runs
    ensures var s' := Step(s, op).0;
            && (s'.runs[id].status in INTERRUPTIBLE && !(id in s.runs && s.runs[id].status in INTERRUPTIBLE) ==>
                op == Claim(id) && Step(s, op).1 == Claimed(id))
            && (s'.runs[id].status == Queued && !(id in s.runs && s.runs[id].status == Queued) ==>
                op.Launch? && Step(s, op).1 == Launched(id))
  {
    StepKeepsRuns(s, op);
    if id in s.runs {
      StepMovesForward(s, op, id);
      if Step(s, op).0.runs[id].status != s.runs[id].status {
        NothingEntersQueue(s.runs[id].status, Step(s, op).0.runs[id].status);
        if s.runs[id].status == Queued && Step(s, op).0.runs[id].status == Starting {
          StartingIsClaimed(s, op, id);
        }
      }
    }
  }

  lemma {:induction false} StartingIsClaimed(s: State, op: Op, id: nat)
    requires id in s.runs && id in Step(s, op).0.runs
    requires s.runs[id].status == Queued && Step(s, op).0.runs[id].status == Starting
    ensures op == Claim(id) && Step(s, op).1 == Claimed(id)
  {
    match op
    case Claim(i) =>
    case RequestStop(i) =>
      TransitionFollowsGraph(s, i, Stopped, Some({Queued}), true);
      TransitionFollowsGraph(s, i, StopRequested, Some(OWNED_STOP_PREVIOUS), true);
    case _ =>
  }

  /** A finished run stays as it finished, whatever is asked afterwards. */
  lemma {:induction false} FinishedForever(s: State, ops: seq<Op>, id: nat)
    requires id in s.runs && Terminal(s.runs[id].status)
    ensures id in RunAll(s, ops).runs && RunAll(s, ops).runs[id] == s.runs[id]
  {
    if ops != [] {
      FinishedForever(s, ops[..|ops| - 1], id);
      StepMovesForward(RunAll(s, ops[..|ops| - 1]), ops[|ops| - 1], id);
    }
  }

  /** The claims that succeeded for one run. */
  function ClaimsOf(s: State, ops: seq<Op>, id: nat): nat {
    if ops == [] then 0
    else
      var front := ops[..|ops| - 1];
      ClaimsOf(s, front, id) + if Step(RunAll(s, front), ops[|ops| - 1]).1 == Claimed(id) then 1 else 0
  }

  lemma {:induction false} ClaimedLeavesQueue(s: State, op: Op, id: nat)
    ensures Step(s, op).1 == Claimed(id) ==>
              id in s.runs && s.runs[id].status == Queued && Step(s, op).0.runs[id].status == Starting
  {
    match op
    case RequestStop(i) =>
      TransitionFollowsGraph(s, i, Stopped, Some({Queued}), true);
    case _ =>
  }

  /** No run is ever handed to two workers. */
  lemma {:induction false} ClaimedAtMostOnce(s: State, ops: seq<Op>, id: nat)
    requires s.runs == map[]
    ensures ClaimsOf(s, ops, id) <= 1
    ensures ClaimsOf(s, ops, id) == 1 ==> id in RunAll(s, ops).runs && RunAll(s, ops).runs[id].status != Queued
  {
    if ops != [] {
      var front, last := ops[..|ops| - 1], ops[|ops| - 1];
      ClaimedAtMostOnce(s, front, id);
      ClaimedLeavesQueue(RunAll(s, front), last, id);
      if id in RunAll(s, front).runs {
        StepMovesForward(RunAll(s, front), last, id);
      }
    }
  }

  lemma {:induction false} RowKeepsRuns(s: State, i: nat, status: Status, expected: Option<set<Status>>, matched: bool)
    ensures var s' := TransitionRow(s, i, status, expected, matched).0; s'.bots == s.bots && s'.runs.Keys == s.runs.Keys
  {
    TransitionFollowsGraph(s, i, status, expected, matched);
    if i in s.runs {
      assert s.runs[i := s.runs[i].(status := status)].Keys == s.runs.Keys;
    }
  }

  /** Only a launch adds a run, and nothing adds or removes a bot. */
  lemma {:induction false} StepKeepsRuns(s: State, op: Op)
    ensures Step(s, op).0.bots == s.bots
    ensures !op.Launch? ==> Step(s, op).0.runs.Keys == s.runs.Keys
  {
    match op
    case RequestStop(i) =>
      RowKeepsRuns(s, i, Stopped, Some({Queued}), true);
      RowKeepsRuns(TransitionRow(s, i, Stopped, Some({Queued}), true).0, i, StopRequested, Some(OWNED_STOP_PREVIOUS), true);
    case MarkRunning(i, matched) => RowKeepsRuns(s, i, Running, None, matched);
    case BeginStopping(i, matched) => RowKeepsRuns(s, i, Stopping, None, matched);
    case FailQueued(i) => RowKeepsRuns(s, i, Failed, Some({Queued}), true);
    case Finish(i, status, matched) =>
      RowKeepsRuns(s, i, status, if status == Stopped then Some({Stopping}) else None, matched);
    case InterruptExpired(i, matched) => RowKeepsRuns(s, i, Interrupted, None, matched);
    case Terminate(i) =>
      if i in s.runs {
        RowKeepsRuns(s, i, if s.runs[i].status == Queued then Stopped else Interrupted, None, true);
      }
    case Claim(i) =>
      if i in s.runs {
        assert s.runs[i := s.runs[i].(status := Starting)].Keys == s.runs.Keys;
      }
    case _ =>
  }

  /** The run `id` is the one this bot launched with this key. */
  ghost predicate OnlyLaunch(s: State, bot: nat, key: nat, id: nat) {
    && bot in s.bots && id in s.runs
    && forall i | i in s.runs :: (s.runs[i].bot == bot && s.runs[i].key == Some(key)) <==> i == id
  }

  lemma {:induction false} OnlyLaunchStays(s: State, op: Op, bot: nat, key: nat, id: nat)
    requires OnlyLaunch(s, bot, key, id)
    ensures OnlyLaunch(Step(s, op).0, bot, key, id)
  {
    var s' := Step(s, op).0;
    StepKeepsRuns(s, op);
    forall i | i in s'.runs ensures (s'.runs[i].bot == bot && s'.runs[i].key == Some(key)) <==> i == id {
      if i in s.runs {
        StepMovesForward(s, op, i);
      } else {
        assert op.Launch? && op.id == i;
      }
    }
    StepMovesForward(s, op, id);
  }

  lemma {:induction false} OnlyLaunchForever(s: State, ops: seq<Op>, bot: nat, key: nat, id: nat)
    requires OnlyLaunch(s, bot, key, id)
    ensures OnlyLaunch(RunAll(s, ops), bot, key, id)
  {
    if ops != [] {
      OnlyLaunchForever(s, ops[..|ops| - 1], bot, key, id);
      OnlyLaunchStays(RunAll(s, ops[..|ops| - 1]), ops[|ops| - 1], bot, key, id);
    }
  }

  /** Launching again with the same key, whatever has happened since, changes nothing and names the first launch. */
  lemma {:induction false} LaunchIsIdempotent(s: State, bot: nat, id: nat, at: int, key: nat, ops: seq<Op>, id': nat, at': int)
    requires LaunchStep(s, bot, id, at, Some(key)).1.Launched?
    ensures var later := RunAll(LaunchStep(s, bot, id, at, Some(key)).0, ops);
            LaunchStep(later, bot, id', at', Some(key)) == (later, Existing(id))
  {
    var s' := LaunchStep(s, bot, id, at, Some(key)).0;
    assert OnlyLaunch(s', bot, key, id);
    OnlyLaunchForever(s', ops, bot, key, id);
  }

  lemma {:induction false} OneMore(a: set<nat>, b: set<nat>, id: nat)
    requires a == b + {id} && id !in b
    ensures |a| == |b| + 1
  {
  }

  lemma {:induction false} CountsExactly(runs: map<nat, Run>, id: nat, run: Run)
    requires id !in runs && run.status == Queued
    ensures |WithStatus(runs[id := run], {Queued})| == |WithStatus(runs, {Queued})| + 1
    ensures |OwnedWith(runs[id := run], run.owner, {Queued})| == |OwnedWith(runs, run.owner, {Queued})| + 1
  {
    OneMore(WithStatus(runs[id := run], {Queued}), WithStatus(runs, {Queued}), id);
    OneMore(OwnedWith(runs[id := run], run.owner, {Queued}), OwnedWith(runs, run.owner, {Queued}), id);
  }

  /** Capacity never refuses more than it must: a launch that nothing else stands against is admitted if and
      only if every cap would still hold with the run queued. */
  lemma {:induction false} AdmissionIsMaximal(s: State, bot: nat, id: nat, at: int, key: Option<nat>)
    requires CapsHold(s) && bot in s.bots && id !in s.runs && ExistingLaunch(s, bot, key).None?
    requires !s.paused && s.bots[bot] in s.access && s.access[s.bots[bot]]
    ensures LaunchStep(s, bot, id, at, key).1 == Launched(id) <==>
            CapsHold(s.(runs := s.runs[id := Run(bot, s.bots[bot], key, at, Queued)]))
  {
    var run := Run(bot, s.bots[bot], key, at, Queued);
    var s' := s.(runs := s.runs[id := run]);
    LaunchKeepsCaps(s, bot, id, at, key);
    CountsExactly(s.runs, id, run);
    if CapsHold(s') {
      assert OwnerCaps(s', run.owner);
    }
  }

  /** The chosen run is always there to claim, and only the chosen run can be claimed. */
  lemma {:induction false} ClaimSucceedsExactlyForChosen(s: State, id: nat)
    ensures ClaimStep(s, id).1 == Claimed(id) <==> NextEligible(s) == Some(id)
    ensures ClaimStep(s, id).1 != Claimed(id) ==> ClaimStep(s, id) == (s, Unclaimed)
  {
    ClaimTakesEarliest(s);
  }

  /** No caller ever names previous statuses that the graph does not allow. */
  lemma {:induction false} ExpectedStatusesAreEdges(s: State, op: Op)
    ensures Step(s, op).1 != Refused(InvalidPrevious)
  {
    match op
    case Finish(id, status, matched) =>
      if status == Stopped {
        assert Stopping in PreviousStatuses(Stopped);
      } else if Terminal(status) {
        assert Running in PreviousStatuses(status);
      }
    case MarkRunning(_, _) => assert Starting in PreviousStatuses(Running);
    case BeginStopping(_, _) => assert Running in PreviousStatuses(Stopping);
    case FailQueued(_) => assert Queued in PreviousStatuses(Failed);
    case InterruptExpired(_, _) => assert Running in PreviousStatuses(Interrupted);
    case Terminate(_) => assert Queued in PreviousStatuses(Stopped) && Running in PreviousStatuses(Interrupted);
    case RequestStop(_) => assert Queued in PreviousStatuses(Stopped) && Running in PreviousStatuses(StopRequested);
    case _ =>
  }

  // ---------- what each operation does ----------

  /** The run an operation is about, if it only changes that run's status. */
  function Target(op: Op): Option<nat> {
    match op
    case Claim(id) => Some(id)
    case RequestStop(id) => Some(id)
    case MarkRunning(id, _) => Some(id)
    case BeginStopping(id, _) => Some(id)
    case FailQueued(id) => Some(id)
    case Finish(id, _, _) => Some(id)
    case InterruptExpired(id, _) => Some(id)
    case Terminate(id) => Some(id)
    case _ => None
  }

  /** What each operation makes of its run: the statuses it acts on, and the one it leaves; from any other
      status, and where the row did not match, it leaves the run alone. */
  function Becomes(op: Op, from: Status): Status {
    match op
    case RequestStop(_) =>
      if from.Queued? then Stopped else if from.Starting? || from.Running? then StopRequested else from
    case MarkRunning(_, matched) => if matched && from.Starting? then Running else from
    case BeginStopping(_, matched) => if matched && (from.Running? || from.StopRequested?) then Stopping else from
    case FailQueued(_) => if from.Queued? then Failed else from
    case Finish(_, to, matched) =>
      if !matched || from.Stopped? || from.Failed? || from.Interrupted? then from
      else if (to.Stopped? && from.Stopping?) || to.Failed? || (to.Interrupted? && !from.Queued?) then to
      else from
    case InterruptExpired(_, matched) =>
      if matched && !(from.Queued? || from.Stopped? || from.Failed? || from.Interrupted?) then Interrupted else from
    case Terminate(_) =>
      if from.Queued? then Stopped
      else if from.Stopped? || from.Failed? || from.Interrupted? then from
      else Interrupted
    case _ => from
  }

  lemma {:induction false} PreviousOf()
    ensures PreviousStatuses(Running) == {Starting} && PreviousStatuses(Stopping) == {Running, StopRequested}
    ensures PreviousStatuses(Interrupted) == {Starting, Running, StopRequested, Stopping}
    ensures PreviousStatuses(Failed) == {Queued, Starting, Running, StopRequested, Stopping}
    ensures PreviousStatuses(Stopped) == {Queued, Stopping} && PreviousStatuses(StopRequested) == {Starting, Running}
  {
    forall p: Status
      ensures p in PreviousStatuses(Running) <==> p in {Starting}
      ensures p in PreviousStatuses(Stopping) <==> p in {Running, StopRequested}
      ensures p in PreviousStatuses(Interrupted) <==> p in {Starting, Running, StopRequested, Stopping}
      ensures p in PreviousStatuses(Failed) <==> p in {Queued, Starting, Running, StopRequested, Stopping}
      ensures p in PreviousStatuses(Stopped) <==> p in {Queued, Stopping}
      ensures p in PreviousStatuses(StopRequested) <==> p in {Starting, Running}
    {
      match p
      case Queued =>
      case _ =>
    }
  }

  /** A row update moves a matched row from an allowed status and leaves everything else alone. */
  lemma {:induction false} RowMoves(s: State, id: nat, status: Status, expected: Option<set<Status>>, matched: bool)
    requires expected.Some? ==> expected.value != {} && expected.value <= PreviousStatuses(status)
    requires PreviousStatuses(status) != {}
    ensures var allowed := if expected.Some? then expected.value else PreviousStatuses(status);
            var (s', outcome) := TransitionRow(s, id, status, expected, matched);
            && (outcome.Moved? <==> matched && id in s.runs && s.runs[id].status in allowed)
            && s' == if outcome.Moved? then s.(runs := s.runs[id := s.runs[id].(status := status)]) else s
  {
  }

  /** Every operation on a run but its claim does to that run exactly what the table says. */
  lemma {:induction false} LifecycleIsTable(s: State, op: Op, id: nat)
    requires Target(op) == Some(id) && !op.Claim?
    ensures Step(s, op).0 == if id in s.runs then s.(runs := s.runs[id := s.runs[id].(status := Becomes(op, s.runs[id].status))])
                             else s
  {
    PreviousOf();
    assert id in s.runs ==> s.runs[id := s.runs[id]] == s.runs;
    match op
    case RequestStop(_) =>
      RowMoves(s, id, Stopped, Some({Queued}), true);
      RowMoves(s, id, StopRequested, Some(OWNED_STOP_PREVIOUS), true);
    case MarkRunning(_, matched) => RowMoves(s, id, Running, None, matched);
    case BeginStopping(_, matched) => RowMoves(s, id, Stopping, None, matched);
    case FailQueued(_) => RowMoves(s, id, Failed, Some({Queued}), true);
    case Finish(_, status, matched) =>
      if Terminal(status) {
        RowMoves(s, id, status, if status == Stopped then Some({Stopping}) else None, matched);
      }
    case InterruptExpired(_, matched) => RowMoves(s, id, Interrupted, None, matched);
    case Terminate(_) =>
      RowMoves(s, id, Stopped, None, true);
      RowMoves(s, id, Interrupted, None, true);
  }

  /** A claim starts its run if and only if that is the run to be claimed. */
  lemma {:induction false} ClaimStarts(s: State, id: nat)
    ensures NextEligible(s) == Some(id) ==>
              id in s.runs && Step(s, Claim(id)).0 == s.(runs := s.runs[id := s.runs[id].(status := Starting)])
    ensures NextEligible(s) != Some(id) ==> Step(s, Claim(id)).0 == s
  {
    ClaimTakesEarliest(s);
  }

  /** A launch names the bot's earlier launch with its key, if there is one. Otherwise it queues the run if and
      only if the bot exists, nothing is paused, its owner has access and fewer than two runs queued, and fewer
      than eight are queued in all. A launch that queues nothing changes nothing. */
  lemma {:induction false} LaunchExactly(s: State, bot: nat, id: nat, at: int, key: Option<nat>)
    ensures var (s', outcome) := LaunchStep(s, bot, id, at, key);
            var again := bot in s.bots && key.Some? && exists r :: r in s.runs && s.runs[r].bot == bot && s.runs[r].key == key;
            && (outcome.Existing? <==> again)
            && (outcome.Existing? ==> outcome.id in s.runs && s.runs[outcome.id].bot == bot && s.runs[outcome.id].key == key)
            && (outcome.Launched? <==>
                  && bot in s.bots && !again && id !in s.runs && !s.paused
                  && s.bots[bot] in s.access && s.access[s.bots[bot]]
                  && |set r | r in s.runs && s.runs[r].owner == s.bots[bot] && s.runs[r].status.Queued?| < 2
                  && |set r | r in s.runs && s.runs[r].status.Queued?| < 8)
            && (outcome.Launched? ==> outcome.id == id && s' == s.(runs := s.runs[id := Run(bot, s.bots[bot], key, at, Queued)]))
            && (!outcome.Launched? ==> s' == s)
  {
    if bot in s.bots {
      assert (set r | r in s.runs && s.runs[r].owner == s.bots[bot] && s.runs[r].status.Queued?) ==
             OwnedWith(s.runs, s.bots[bot], {Queued});
      assert (set r | r in s.runs && s.runs[r].status.Queued?) == WithStatus(s.runs, {Queued});
    }
  }
}
