/** Launch, claim and lifecycle of paper runs, each step one admission-locked transaction. */
module RunAdmission {
  import opened Common

  // ---------- the lifecycle graph ----------

  datatype Status = Queued | Starting | Running | StopRequested | Stopping | Stopped | Failed | Interrupted

  function NextStatuses(s: Status): set<Status> {
    match s
    case Queued => {Starting, Stopped, Failed}
    case Starting => {Running, StopRequested, Failed, Interrupted}
    case Running => {StopRequested, Stopping, Failed, Interrupted}
    case StopRequested => {Stopping, Failed, Interrupted}
    case Stopping => {Stopped, Failed, Interrupted}
    case Stopped => {}
    case Failed => {}
    case Interrupted => {}
  }

  const ALL_STATUSES: set<Status> :=
    {Queued, Starting, Running, StopRequested, Stopping, Stopped, Failed, Interrupted}

  lemma {:induction false} AllStatuses()
    ensures forall p: Status :: p in ALL_STATUSES
  {
    forall p: Status ensures p in ALL_STATUSES {
      match p
      case Queued =>
      case _ =>
    }
  }

  function PreviousStatuses(s: Status): (r: set<Status>)
    ensures forall p :: p in r <==> s in NextStatuses(p)
  {
    AllStatuses();
    set p | p in ALL_STATUSES && s in NextStatuses(p)
  }

  predicate Terminal(s: Status) { NextStatuses(s) == {} }

  const INTERRUPTIBLE: set<Status> := {Starting, Running, StopRequested, Stopping}
  const OWNED_STOP_PREVIOUS: set<Status> := {Starting, Running}

  // ---------- the tables ----------

  const ACTIVE_RUNS := 1
  const QUEUED_RUNS := 2
  const GLOBAL_ACTIVE_RUNS := 4
  const GLOBAL_QUEUED_RUNS := 8

  datatype Run = Run(bot: nat, owner: nat, key: Option<nat>, createdAt: int, status: Status)

  /** Bots with their owners, accounts with their access, the incident pause, and the runs. */
  datatype State = State(bots: map<nat, nat>, access: map<nat, bool>, paused: bool, runs: map<nat, Run>)

  function WithStatus(runs: map<nat, Run>, statuses: set<Status>): set<nat> {
    set id | id in runs && runs[id].status in statuses
  }

  function OwnedWith(runs: map<nat, Run>, owner: nat, statuses: set<Status>): set<nat> {
    set id | id in runs && runs[id].owner == owner && runs[id].status in statuses
  }

  datatype Refusal =
    | BotUnavailable | DuplicateRun | AccountMissing | IncidentPaused | AccountSuspended | UserAllowance
    | GlobalCapacity | NotTerminal | InvalidPrevious

  datatype Outcome =
    | Launched(id: nat) | Existing(id: nat) | Refused(reason: Refusal)
    | Claimed(id: nat) | Unclaimed | Moved(id: nat, status: Status) | Unmoved | Done

  /** What each transaction is asked to do; whether a lease or an expiry predicate matched is an input. */
  datatype Op =
    | Launch(bot: nat, id: nat, createdAt: int, key: Option<nat>)
    | Claim(id: nat)
    | RequestStop(id: nat)
    | MarkRunning(id: nat, matched: bool)
    | BeginStopping(id: nat, matched: bool)
    | FailQueued(id: nat)
    | Finish(id: nat, status: Status, matched: bool)
    | InterruptExpired(id: nat, matched: bool)
    | Terminate(id: nat)
    | SetPaused(paused: bool)
    | SetAccess(owner: nat, allowed: bool)

  // ---------- launch ----------

  function ExistingLaunch(s: State, bot: nat, key: Option<nat>): (r: Option<nat>)
    ensures r.Some? ==> key.Some? && r.value in s.runs && s.runs[r.value].bot == bot && s.runs[r.value].key == key
    ensures r.None? ==> forall id | id in s.runs && s.runs[id].bot == bot && key.Some? :: s.runs[id].key != key
  {
    var found := set id | id in s.runs && s.runs[id].bot == bot && s.runs[id].key == key;
    assert forall id | id in s.runs && s.runs[id].bot == bot && s.runs[id].key == key :: id in found;
    if key.None? || found == {} then None else Some(Least(found))
  }

  function Least(ids: set<nat>): (r: nat)
    requires ids != {}
    ensures r in ids && forall id | id in ids :: r <= id
  {
    assert exists r :: r in ids && forall id | id in ids :: r <= id by {
      var r := FindLeast(ids);
    }
    var r :| r in ids && forall id | id in ids :: r <= id;
    r
  }

  lemma {:induction false} FindLeast(ids: set<nat>) returns (r: nat)
    requires ids != {}
    ensures r in ids && forall id | id in ids :: r <= id
    decreases |ids|
  {
    r :| r in ids;
    var rest := ids - {r};
    if rest != {} {
      var least := FindLeast(rest);
      assert forall id | id in ids :: id == r || id in rest;
      if least < r { r := least; }
    }
  }

  /** Why a launch is refused, in the order the checks run. */
  function LaunchRefusal(s: State, owner: nat): Option<Refusal> {
    if s.paused then Some(IncidentPaused)
    else if owner !in s.access then Some(AccountMissing)
    else if !s.access[owner] then Some(AccountSuspended)
    else if |OwnedWith(s.runs, owner, {Queued})| >= QUEUED_RUNS then Some(UserAllowance)
    else if |WithStatus(s.runs, {Queued})| >= GLOBAL_QUEUED_RUNS then Some(GlobalCapacity)
    else None
  }

  function LaunchStep(s: State, bot: nat, id: nat, createdAt: int, key: Option<nat>): (State, Outcome) {
    if bot !in s.bots then (s, Refused(BotUnavailable))
    else if ExistingLaunch(s, bot, key).Some? then (s, Existing(ExistingLaunch(s, bot, key).value))
    else if LaunchRefusal(s, s.bots[bot]).Some? then (s, Refused(LaunchRefusal(s, s.bots[bot]).value))
    else if id in s.runs then (s, Refused(DuplicateRun))
    else (s.(runs := s.runs[id := Run(bot, s.bots[bot], key, createdAt, Queued)]), Launched(id))
  }

  // ---------- claim ----------

  predicate Earlier(runs: map<nat, Run>, a: nat, b: nat)
    requires a in runs && b in runs
  {
    runs[a].createdAt < runs[b].createdAt || (runs[a].createdAt == runs[b].createdAt && a <= b)
  }

  /** Queued runs of accounts with access: the rows the claim query returns. */
  function Candidates(s: State): set<nat> {
    set id | id in s.runs && s.runs[id].status == Queued && s.runs[id].owner in s.access && s.access[s.runs[id].owner]
  }

  lemma {:induction false} FindEarliest(runs: map<nat, Run>, ids: set<nat>) returns (r: nat)
    requires ids != {} && ids <= runs.Keys
    ensures r in ids && forall id | id in ids :: Earlier(runs, r, id)
    decreases |ids|
  {
    var x :| x in ids;
    var rest := ids - {x};
    r := x;
    if rest != {} {
      var first := FindEarliest(runs, rest);
      if !Earlier(runs, x, first) { r := first; }
    }
    forall id | id in ids ensures Earlier(runs, r, id) {
      assert id == x || id in rest;
    }
  }

  function Earliest(runs: map<nat, Run>, ids: set<nat>): (r: nat)
    requires ids != {} && ids <= runs.Keys
    ensures r in ids && forall id | id in ids :: Earlier(runs, r, id)
  {
    assert exists r :: r in ids && forall id | id in ids :: Earlier(runs, r, id) by {
      var r := FindEarliest(runs, ids);
    }
    var r :| r in ids && forall id | id in ids :: Earlier(runs, r, id);
    r
  }

  /** Rows in (created_at, id) order. */
  function InClaimOrder(runs: map<nat, Run>, ids: set<nat>): seq<nat>
    requires ids <= runs.Keys
    decreases |ids|
  {
    if ids == {} then []
    else
      var first := Earliest(runs, ids);
      [first] + InClaimOrder(runs, ids - {first})
  }

  /** The first row in order whose owner is below the active allowance. */
  function FirstBelowCap(s: State, rows: seq<nat>): Option<nat>
    requires forall id | id in rows :: id in s.runs
  {
    if rows == [] then None
    else if |OwnedWith(s.runs, s.runs[rows[0]].owner, INTERRUPTIBLE)| < ACTIVE_RUNS then Some(rows[0])
    else FirstBelowCap(s, rows[1..])
  }

  lemma {:induction false} OrderHoldsAll(runs: map<nat, Run>, ids: set<nat>, id: nat)
    requires ids <= runs.Keys
    ensures id in InClaimOrder(runs, ids) <==> id in ids
    decreases |ids|
  {
    if ids != {} {
      OrderHoldsAll(runs, ids - {Earliest(runs, ids)}, id);
    }
  }

  function NextEligible(s: State): Option<nat> {
    if s.paused then None
    else if |WithStatus(s.runs, INTERRUPTIBLE)| >= GLOBAL_ACTIVE_RUNS then None
    else
      assert forall id | id in InClaimOrder(s.runs, Candidates(s)) :: id in s.runs by {
        forall id | id in InClaimOrder(s.runs, Candidates(s)) ensures id in s.runs {
          OrderHoldsAll(s.runs, Candidates(s), id);
        }
      }
      FirstBelowCap(s, InClaimOrder(s.runs, Candidates(s)))
  }

  predicate Eligible(s: State, id: nat) {
    id in Candidates(s) && |OwnedWith(s.runs, s.runs[id].owner, INTERRUPTIBLE)| < ACTIVE_RUNS
  }

  lemma {:induction false} FirstIsEarliest(s: State, ids: set<nat>)
    requires ids <= Candidates(s) && forall id | id in InClaimOrder(s.runs, ids) :: id in s.runs
    ensures var r := FirstBelowCap(s, InClaimOrder(s.runs, ids));
            && (r.Some? ==> r.value in ids && Eligible(s, r.value)
                            && forall id | id in ids && Eligible(s, id) :: Earlier(s.runs, r.value, id))
            && (r.None? ==> forall id | id in ids :: !Eligible(s, id))
    decreases |ids|
  {
    if ids != {} {
      var first := Earliest(s.runs, ids);
      var rows := InClaimOrder(s.runs, ids);
      var rest := ids - {first};
      assert rows[1..] == InClaimOrder(s.runs, rest);
      assert forall id | id in rows[1..] :: id in rows;
      FirstIsEarliest(s, rest);
      assert forall id | id in ids :: id == first || id in rest;
    }
  }

  predicate Active(run: Run) {
    run.status.Starting? || run.status.Running? || run.status.StopRequested? || run.status.Stopping?
  }

  /** A queued run of an account with access, none of whose runs is active. */
  ghost predicate MayStart(s: State, id: nat) {
    && id in s.runs && s.runs[id].status.Queued?
    && s.runs[id].owner in s.access && s.access[s.runs[id].owner]
    && forall other | other in s.runs && s.runs[other].owner == s.runs[id].owner :: !Active(s.runs[other])
  }

  /** The query's count says the same. */
  lemma {:induction false} EligibleMayStart(s: State, id: nat)
    ensures Eligible(s, id) <==> MayStart(s, id)
  {
    if id in s.runs {
      var active := OwnedWith(s.runs, s.runs[id].owner, INTERRUPTIBLE);
      if MayStart(s, id) {
        assert active == {};
      } else if active == {} {
        forall other | other in s.runs && s.runs[other].owner == s.runs[id].owner ensures !Active(s.runs[other]) {
          assert other !in active;
        }
      }
    }
  }

  /** A claim takes the earliest run that may start, by creation and then by id, and finds none exactly when
      launches are paused, four runs are active, or no run may start. */
  lemma {:induction false} ClaimTakesEarliest(s: State)
    ensures NextEligible(s).Some? ==>
              && MayStart(s, NextEligible(s).value)
              && forall id | MayStart(s, id) :: Earlier(s.runs, NextEligible(s).value, id)
    ensures NextEligible(s).None? <==>
              s.paused || |set id | id in s.runs && Active(s.runs[id])| >= 4 || forall id :: !MayStart(s, id)
  {
    assert (set id | id in s.runs && Active(s.runs[id])) == WithStatus(s.runs, INTERRUPTIBLE);
    forall id ensures Eligible(s, id) <==> MayStart(s, id) {
      EligibleMayStart(s, id);
    }
    if !s.paused && |WithStatus(s.runs, INTERRUPTIBLE)| < GLOBAL_ACTIVE_RUNS {
      var ids := Candidates(s);
      forall id | id in InClaimOrder(s.runs, ids) ensures id in s.runs {
        OrderHoldsAll(s.runs, ids, id);
      }
      FirstIsEarliest(s, ids);
    }
  }

  function ClaimStep(s: State, id: nat): (State, Outcome) {
    if NextEligible(s) != Some(id) then (s, Unclaimed)
    else if id !in s.runs || s.runs[id].status != Queued then (s, Unclaimed)
    else (s.(runs := s.runs[id := s.runs[id].(status := Starting)]), Claimed(id))
  }

  // ---------- transitions ----------

  /** One guarded row update; an expected set outside the graph is refused before any row is touched. */
  function TransitionRow(s: State, id: nat, status: Status, expected: Option<set<Status>>, matched: bool)
    : (State, Outcome)
  {
    var allowed := if expected.Some? && expected.value != {} then expected.value else PreviousStatuses(status);
    if !matched then (s, Unmoved)
    else if allowed == {} || !(allowed <= PreviousStatuses(status)) then (s, Refused(InvalidPrevious))
    else if id !in s.runs || s.runs[id].status !in allowed then (s, Unmoved)
    else (s.(runs := s.runs[id := s.runs[id].(status := status)]), Moved(id, status))
  }

  function RequestStopStep(s: State, id: nat): (State, Outcome) {
    var stopped := TransitionRow(s, id, Stopped, Some({Queued}), true);
    if stopped.1.Moved? then stopped
    else TransitionRow(stopped.0, id, StopRequested, Some(OWNED_STOP_PREVIOUS), true)
  }

  function FinishStep(s: State, id: nat, status: Status, matched: bool): (State, Outcome) {
    if !Terminal(status) then (s, Refused(NotTerminal))
    else TransitionRow(s, id, status, if status == Stopped then Some({Stopping}) else None, matched)
  }

  /** The operator's way to end a run: a queued one is stopped, any other unfinished one interrupted. */
  function TerminateStep(s: State, id: nat): (State, Outcome) {
    if id !in s.runs || Terminal(s.runs[id].status) then (s, Unmoved)
    else TransitionRow(s, id, if s.runs[id].status == Queued then Stopped else Interrupted, None, true)
  }

  function Step(s: State, op: Op): (State, Outcome) {
    match op
    case Launch(bot, id, at, key) => LaunchStep(s, bot, id, at, key)
    case Claim(id) => ClaimStep(s, id)
    case RequestStop(id) => RequestStopStep(s, id)
    case MarkRunning(id, matched) => TransitionRow(s, id, Running, None, matched)
    case BeginStopping(id, matched) => TransitionRow(s, id, Stopping, None, matched)
    case InterruptExpired(id, matched) => TransitionRow(s, id, Interrupted, None, matched)
    case Terminate(id) => TerminateStep(s, id)
    case FailQueued(id) => TransitionRow(s, id, Failed, Some({Queued}), true)
    case Finish(id, status, matched) => FinishStep(s, id, status, matched)
    case SetPaused(p) => (s.(paused := p), Done)
    case SetAccess(owner, allowed) => (s.(access := s.access[owner := allowed]), Done)
  }

  function RunAll(s: State, ops: seq<Op>): State {
    if ops == [] then s else Step(RunAll(s, ops[..|ops| - 1]), ops[|ops| - 1]).0
  }
}
