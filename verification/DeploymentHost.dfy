/** The deployment driver as it runs: one directory operation after another, stopping wherever
    the operations it is granted run out, proved to run prefixes of the activation program. */
module DeploymentHost {
  import opened Common
  import opened Deployment
  import opened DeploymentSafety
  import Retry = DeploymentRetry

  /** A program cut off after a number of operations: what it left, and whether it finished. */
  ghost predicate Ran(w: Window, granted: nat, ops: seq<Op>, w': Window, left: nat, finished: bool) {
    var k := if granted < |ops| then granted else |ops|;
    w' == ExecAll(w, ops[..k]) && left == granted - k && finished == (|ops| <= granted)
  }

  lemma {:induction false} RanThen(w: Window, n: nat, a: seq<Op>, w1: Window, n1: nat, b: seq<Op>, w2: Window, n2: nat, finished: bool)
    requires Ran(w, n, a, w1, n1, true) && Ran(w1, n1, b, w2, n2, finished)
    ensures Ran(w, n, a + b, w2, n2, finished)
  {
    var k := if n1 < |b| then n1 else |b|;
    assert (a + b)[..|a| + k] == a + b[..k] && a[..|a|] == a;
    ExecConcat(w, a, b[..k]);
  }

  lemma {:induction false} RanStopped(w: Window, n: nat, a: seq<Op>, w1: Window, n1: nat, b: seq<Op>)
    requires Ran(w, n, a, w1, n1, false)
    ensures Ran(w, n, a + b, w1, n1, false)
  {
    assert (a + b)[..n] == a[..n];
  }

  class DeploymentState {
    var window: Window
    var store: Store
    var granted: nat

    constructor (start: Files, store: Store, granted: nat)
      ensures window == [start] && this.store == store && this.granted == granted
    {
      window, this.store, this.granted := [start], store, granted;
    }

    method Perform(op: Op) returns (ok: bool)
      modifies this`window, this`granted
      ensures Ran(old(window), old(granted), [op], window, granted, ok)
    {
      assert [op][..1] == [op] && [op][..0] == [];
      assert ExecAll(window, []) == window && ExecAll(window, [op]) == Exec(window, op);
      ok := granted > 0;
      if ok {
        window := Exec(window, op);
        granted := granted - 1;
      }
    }

    /** Replace one entry and make it durable. */
    method WritePrivate(op: Op) returns (ok: bool)
      modifies this`window, this`granted
      ensures Ran(old(window), old(granted), [op, Sync], window, granted, ok)
    {
      ok := Perform(op);
      assert [op] + [Sync] == [op, Sync];
      if !ok {
        RanStopped(old(window), old(granted), [op], window, granted, [Sync]);
        return;
      }
      ghost var w, n := window, granted;
      ok := Perform(Sync);
      RanThen(old(window), old(granted), [op], w, n, [Sync], window, granted, ok);
    }

    method InstallRelease(target: Dir) returns (ok: bool)
      modifies this`window, this`granted
      ensures Ran(old(window), old(granted), [DropNext, LinkNext(target), InstallCurrent, Sync], window, granted, ok)
    {
      ghost var all := [DropNext, LinkNext(target), InstallCurrent, Sync];
      ok := Perform(DropNext);
      assert [DropNext] + all[1..] == all;
      if !ok { RanStopped(old(window), old(granted), [DropNext], window, granted, all[1..]); return; }
      ghost var w1, n1 := window, granted;
      ok := Perform(LinkNext(target));
      RanThen(old(window), old(granted), [DropNext], w1, n1, [LinkNext(target)], window, granted, ok);
      assert [DropNext] + [LinkNext(target)] == all[..2] && all[..2] + all[2..] == all;
      if !ok { RanStopped(old(window), old(granted), all[..2], window, granted, all[2..]); return; }
      ghost var w2, n2 := window, granted;
      ok := WritePrivate(InstallCurrent);
      assert [InstallCurrent, Sync] == all[2..];
      RanThen(old(window), old(granted), all[..2], w2, n2, all[2..], window, granted, ok);
    }

    /** Replace compose, manifest and the release link, each durably; drop the journal last. */
    method Promote(a: Attempt) returns (ok: bool)
      modifies this`window, this`granted
      ensures if a.phase.Activated? && CandidateOf(store, a).Some?
              then Ran(old(window), old(granted), PromoteOps(CandidateOf(store, a).value), window, granted, ok)
              else !ok && window == old(window) && granted == old(granted)
    {
      var read := CandidateOf(store, a);
      if !a.phase.Activated? || read.None? {
        return false;
      }
      var c := read.value;
      ghost var all := PromoteOps(c);
      ok := WritePrivate(PutCompose(c.compose));
      assert [PutCompose(c.compose), Sync] == all[..2] && all[..2] + all[2..] == all;
      if !ok { RanStopped(old(window), old(granted), all[..2], window, granted, all[2..]); return; }
      ghost var w1, n1 := window, granted;
      ok := WritePrivate(PutManifest(c.manifest));
      assert [PutManifest(c.manifest), Sync] == all[2..4] && all[..2] + all[2..4] == all[..4] && all[..4] + all[4..] == all;
      RanThen(old(window), old(granted), all[..2], w1, n1, all[2..4], window, granted, ok);
      if !ok { RanStopped(old(window), old(granted), all[..4], window, granted, all[4..]); return; }
      ghost var w2, n2 := window, granted;
      ok := InstallRelease(c.bundle);
      assert [DropNext, LinkNext(c.bundle), InstallCurrent, Sync] == all[4..8] && all[..4] + all[4..8] == all[..8] && all[..8] + all[8..] == all;
      RanThen(old(window), old(granted), all[..4], w2, n2, all[4..8], window, granted, ok);
      if !ok { RanStopped(old(window), old(granted), all[..8], window, granted, all[8..]); return; }
      ghost var w3, n3 := window, granted;
      ok := WritePrivate(DropJournal);
      assert [DropJournal, Sync] == all[8..];
      RanThen(old(window), old(granted), all[..8], w3, n3, all[8..], window, granted, ok);
    }

    method BeginActivation(a: Attempt) returns (ok: bool)
      requires a.phase.Activating?
      modifies this`window, this`granted
      ensures Ran(old(window), old(granted), [PutJournal(a), Sync], window, granted, ok)
    {
      ok := WritePrivate(PutJournal(a));
    }

    method MarkActivated(a: Attempt) returns (ok: bool)
      requires a.phase.Activating?
      modifies this`window, this`granted
      ensures Ran(old(window), old(granted), [PutJournal(a.(phase := Activated)), Sync], window, granted, ok)
    {
      ok := WritePrivate(PutJournal(a.(phase := Activated)));
    }
  }

  // ---------- how one activation ends ----------

  datatype Outcome = Stopped | Refused | Healthy | Done

  /** The journaled promotion, if there is one, can be finished and is granted the operations it takes. */
  predicate Resumes(store: Store, w: Window, granted: nat) {
    ResumeOps(store, Visible(w)).Some? && |ResumeOps(store, Visible(w)).value| <= granted
  }

  /** The directory once that promotion is finished. */
  function ResumedFiles(store: Store, w: Window): Files
    requires ResumeOps(store, Visible(w)).Some?
  {
    Visible(ExecAll(w, ResumeOps(store, Visible(w)).value))
  }

  /** The host is on the requested release with nothing journaled, and its runtime configuration changes
      none of the settings it runs with. */
  predicate OnRequested(f: Files, r: Request) {
    && f.journal.None? && f.current == Some(r.bundle) && f.manifest.Some? && r.runtime.Some?
    && Retry.AddsNothing(r.runtime.value, f.manifest.value)
  }

  /** How far the external commands let an activation go: to its resumed promotion, to the journaled
      start, or to its end. */
  function Allowed(resumed: nat, pulled: bool, healthy: bool): nat {
    if !pulled then resumed else if !healthy then resumed + 2 else resumed + 14
  }

  function Min(a: nat, b: nat): nat { if a < b then a else b }

  /** The number of directory operations an activation performs. */
  function Reach(store: Store, w: Window, r: Request, pulled: bool, healthy: bool, granted: nat): nat {
    if r.bundle !in store.bundles || ResumeOps(store, Visible(w)).None? then 0
    else
      var resumed := |ResumeOps(store, Visible(w)).value|;
      Min(granted, Min(Allowed(resumed, pulled, healthy), |SessionOps(store, Visible(w), r).1|))
  }

  /** An attempt was prepared or a retained one taken up: the request is neither refused nor already met. */
  predicate Starts(store: Store, w: Window, r: Request, granted: nat) {
    && r.bundle in store.bundles && Resumes(store, w, granted)
    && Select(store, ResumedFiles(store, w), r).Success? && !OnRequested(ResumedFiles(store, w), r)
  }

  /** What an activation left: a prefix of its operations, of which the invariant holds over the pointers
      in place when the journaled attempt was journaled. */
  ghost predicate LeftAt(store: Store, w: Window, base: Pointers, ops: seq<Op>, store1: Store, w1: Window, k: nat) {
    && k <= |ops| && w1 == ExecAll(w, ops[..k])
    && Kept(store1, w1, BaseAll(w, base, ops[..k]), SafeResume(store, w, base))
  }

  /** Durably on the requested release, with no journal. */
  predicate IsActive(store: Store, w: Window, r: Request) {
    |w| == 1 && w[0].journal.None? && w[0].current == Some(r.bundle) && OneRelease(store, Of(w[0]))
  }

  /** How an activation ends, from the host before it, the request and what was granted. It is refused for an
      unknown bundle, or once resumed by its selection; it reports a healthy host if and only if the host, once
      resumed, is on the requested release; it is done if and only if it can run through and everything it
      depends on lets it. Otherwise it stopped. It leaves exactly as many of its operations as it reached. */
  ghost predicate Ends(store: Store, w: Window, base: Pointers, r: Request, pulled: bool, healthy: bool, granted: nat,
                       outcome: Outcome, store1: Store, w1: Window)
  {
    var (store', ops) := SessionOps(store, Visible(w), r);
    && (outcome.Refused? <==>
          r.bundle !in store.bundles ||
          (Resumes(store, w, granted) && Select(store, ResumedFiles(store, w), r).Failure?))
    && (outcome.Healthy? <==>
          r.bundle in store.bundles && Resumes(store, w, granted) && OnRequested(ResumedFiles(store, w), r) && healthy)
    && (outcome.Done? <==>
          r.bundle in store.bundles && Retry.RunsThrough(store, w, r) && pulled && healthy && |ops| <= granted)
    && (outcome.Done? ==> IsActive(store1, w1, r))
    && store1 == (if Starts(store, w, r, granted) then store' else store)
    && LeftAt(store, w, base, ops, store1, w1, Reach(store, w, r, pulled, healthy, granted))
  }

  class DeploymentActivator {
    const state: DeploymentState

    constructor (state: DeploymentState)
      ensures this.state == state
    {
      this.state := state;
    }

    /** One locked activation. `pulled` says whether the external commands before the journaled start succeed,
        `healthy` whether those after it do, or the health check of a release already active. */
    method Activate(r: Request, pulled: bool, healthy: bool, ghost base: Pointers) returns (outcome: Outcome)
      requires HostInv(state.store, state.window, base) && r.attemptName !in state.store.attempts
      modifies state
      ensures Ends(old(state.store), old(state.window), base, r, pulled, healthy, old(state.granted),
                   outcome, state.store, state.window)
      ensures state.granted == old(state.granted) - Reach(old(state.store), old(state.window), r, pulled, healthy, old(state.granted))
    {
      ghost var w0, s0, n0 := state.window, state.store, state.granted;
      if r.bundle !in state.store.bundles {
        EndsUnknown(s0, w0, base, r, pulled, healthy, n0);
        return Refused;
      }
      var resumed := Resume();
      if !resumed {
        EndsCut(s0, w0, base, r, pulled, healthy, n0);
        return Stopped;
      }
      ghost var resume := ResumeOps(s0, Visible(w0)).value;
      assert resume[..|resume|] == resume;
      Resumed(s0, w0, base, r);
      var selected := Select(state.store, Visible(state.window), r);
      if selected.Failure? {
        EndsSelected(s0, w0, base, r, pulled, healthy, n0);
        return Refused;
      }
      if selected.value.alreadyActive {
        EndsSelected(s0, w0, base, r, pulled, healthy, n0);
        return if healthy then Healthy else Stopped;
      }
      var (store', a) := Prepared(state.store, selected.value, r);
      state.store := store';
      if !pulled {
        EndsStarted(s0, w0, base, r, pulled, healthy, n0, resume, store', a, 0);
        return Stopped;
      }
      var finished, k := Run(a, healthy);
      EndsStarted(s0, w0, base, r, pulled, healthy, n0, resume, store', a, k);
      return if finished then Done else Stopped;
    }

    lemma {:induction false} EndsUnknown(store: Store, w: Window, base: Pointers, r: Request, pulled: bool, healthy: bool, granted: nat)
      requires HostInv(store, w, base) && r.bundle !in store.bundles
      ensures Ends(store, w, base, r, pulled, healthy, granted, Refused, store, w)
      ensures Reach(store, w, r, pulled, healthy, granted) == 0
    {
      NothingRun(store, w, base, r);
    }

    /** A resumed promotion that is impossible, or is granted too few operations. */
    lemma {:induction false} EndsCut(store: Store, w: Window, base: Pointers, r: Request, pulled: bool, healthy: bool, granted: nat)
      requires HostInv(store, w, base) && r.bundle in store.bundles && !Resumes(store, w, granted)
      ensures Ends(store, w, base, r, pulled, healthy, granted, Stopped, store,
                   if ResumeOps(store, Visible(w)).None? then w else ExecAll(w, ResumeOps(store, Visible(w)).value[..granted]))
      ensures Reach(store, w, r, pulled, healthy, granted) == if ResumeOps(store, Visible(w)).None? then 0 else granted
    {
      if ResumeOps(store, Visible(w)).None? {
        NothingRun(store, w, base, r);
      } else {
        ResumingLeaves(store, w, base, r, granted);
      }
    }

    /** Resumed, and then refused or already met. */
    lemma {:induction false} EndsSelected(store: Store, w: Window, base: Pointers, r: Request, pulled: bool, healthy: bool, granted: nat)
      requires HostInv(store, w, base) && r.attemptName !in store.attempts
      requires r.bundle in store.bundles && Resumes(store, w, granted)
      requires var selected := Select(store, ResumedFiles(store, w), r); selected.Failure? || selected.value.alreadyActive
      ensures var outcome := if Select(store, ResumedFiles(store, w), r).Failure? then Refused
                             else if healthy then Healthy else Stopped;
              Ends(store, w, base, r, pulled, healthy, granted, outcome, store,
                   ExecAll(w, ResumeOps(store, Visible(w)).value))
      ensures Reach(store, w, r, pulled, healthy, granted) == |ResumeOps(store, Visible(w)).value|
    {
      Resumed(store, w, base, r);
    }

    /** The operations a started activation has reached, and whether it is then done. */
    lemma {:induction false} ReachStarted(store: Store, w: Window, r: Request, pulled: bool, healthy: bool, granted: nat,
                                          resume: seq<Op>, store': Store, a: Attempt)
      requires r.bundle in store.bundles && Activates(store, w, r, resume, store', a) && |resume| <= granted
      requires SessionOps(store, Visible(w), r) == (store', resume + ActivateOps(store', a))
      ensures Reach(store, w, r, pulled, healthy, granted) ==
              |resume| + if pulled then Min(granted - |resume|, if healthy then |ActivateOps(store', a)| else 2) else 0
    {
    }

    lemma {:induction false} DoneIsActive(store: Store, w: Window, base: Pointers, r: Request, resume: seq<Op>,
                                          store': Store, a: Attempt, k: nat)
      requires HostInv(store, w, base) && r.attemptName !in store.attempts
      requires Activates(store, w, r, resume, store', a) && CandidateOf(store', a).Some? && k == |ActivateOps(store', a)|
      ensures IsActive(store', ExecAll(ExecAll(w, resume), ActivateOps(store', a)[..k]), r)
    {
      Concluded(store, w, base, r, resume, store', a, k);
      Retry.CompleteSessionActivates(store, w, base, r);
    }

    /** Resumed, prepared, and run for `k` operations. */
    lemma {:induction false} EndsStarted(store: Store, w: Window, base: Pointers, r: Request, pulled: bool, healthy: bool, granted: nat,
                                         resume: seq<Op>, store': Store, a: Attempt, k: nat)
      requires HostInv(store, w, base) && r.attemptName !in store.attempts
      requires r.bundle in store.bundles && Activates(store, w, r, resume, store', a) && |resume| <= granted
      requires k == if pulled then Min(granted - |resume|, if healthy then |ActivateOps(store', a)| else 2) else 0
      ensures var finished := pulled && healthy && CandidateOf(store', a).Some? && |ActivateOps(store', a)| <= granted - |resume|;
              Ends(store, w, base, r, pulled, healthy, granted, if finished then Done else Stopped, store',
                   ExecAll(ExecAll(w, resume), ActivateOps(store', a)[..k]))
      ensures Reach(store, w, r, pulled, healthy, granted) == |resume| + k
    {
      Concluded(store, w, base, r, resume, store', a, k);
      ReachStarted(store, w, r, pulled, healthy, granted, resume, store', a);
      NotMet(store, w, base, r, resume, store', a);
      var finished := pulled && healthy && CandidateOf(store', a).Some? && |ActivateOps(store', a)| <= granted - |resume|;
      if finished {
        DoneIsActive(store, w, base, r, resume, store', a, k);
      }
      EndsAs(store, w, base, r, pulled, healthy, granted, finished, store',
             ExecAll(ExecAll(w, resume), ActivateOps(store', a)[..k]));
    }

    lemma {:induction false} EndsAs(store: Store, w: Window, base: Pointers, r: Request, pulled: bool, healthy: bool, granted: nat,
                                    finished: bool, store1: Store, w1: Window)
      requires r.bundle in store.bundles && Resumes(store, w, granted)
      requires Select(store, ResumedFiles(store, w), r).Success? && !OnRequested(ResumedFiles(store, w), r)
      requires var (store', ops) := SessionOps(store, Visible(w), r);
               && (finished <==> Retry.RunsThrough(store, w, r) && pulled && healthy && |ops| <= granted)
               && (finished ==> IsActive(store1, w1, r)) && store1 == store'
               && LeftAt(store, w, base, ops, store1, w1, Reach(store, w, r, pulled, healthy, granted))
      ensures Ends(store, w, base, r, pulled, healthy, granted, if finished then Done else Stopped, store1, w1)
    {
    }

    lemma {:induction false} NotMet(store: Store, w: Window, base: Pointers, r: Request, resume: seq<Op>, store': Store, a: Attempt)
      requires HostInv(store, w, base) && r.attemptName !in store.attempts
      requires r.bundle in store.bundles && Activates(store, w, r, resume, store', a)
      ensures Select(store, ResumedFiles(store, w), r).Success? && !OnRequested(ResumedFiles(store, w), r)
    {
      Resumed(store, w, base, r);
    }

    lemma {:induction false} NothingRun(store: Store, w: Window, base: Pointers, r: Request)
      requires HostInv(store, w, base)
      ensures LeftAt(store, w, base, SessionOps(store, Visible(w), r).1, store, w, 0)
    {
      var ops := SessionOps(store, Visible(w), r).1;
      assert ops[..0] == [];
      StartIsKept(store, w, base);
    }

    lemma {:induction false} StartIsKept(store: Store, w: Window, base: Pointers)
      requires HostInv(store, w, base)
      ensures Kept(store, w, base, SafeResume(store, w, base))
    {
      if Promotable(store, Visible(w)) {
        var a := Visible(w).journal.value;
        PromoteKeeps(store, w, base, a, CandidateOf(store, a).value, 0);
        assert PromoteOps(CandidateOf(store, a).value)[..0] == [];
      }
    }

    lemma {:induction false} ResumingLeaves(store: Store, w: Window, base: Pointers, r: Request, k: nat)
      requires HostInv(store, w, base) && ResumeOps(store, Visible(w)).Some? && k <= |ResumeOps(store, Visible(w)).value|
      ensures LeftAt(store, w, base, SessionOps(store, Visible(w), r).1, store,
                     ExecAll(w, ResumeOps(store, Visible(w)).value[..k]), k)
    {
      var resume := ResumeOps(store, Visible(w)).value;
      var ops := SessionOps(store, Visible(w), r).1;
      ResumeKeeps(store, w, base, k);
      assert ops[..k] == resume[..k];
    }

    /** After the resumed promotion: settled pointers; the request is refused, already met, or starts. */
    lemma {:induction false} Resumed(store: Store, w: Window, base: Pointers, r: Request)
      requires HostInv(store, w, base) && r.attemptName !in store.attempts && r.bundle in store.bundles
      requires ResumeOps(store, Visible(w)).Some?
      ensures var resume := ResumeOps(store, Visible(w)).value;
              var w1 := ExecAll(w, resume);
              var f := Visible(w1);
              var ops := SessionOps(store, Visible(w), r).1;
              && f == ResumedFiles(store, w)
              && (Select(store, f, r).Success? ==>
                    && (Select(store, f, r).value.alreadyActive <==> OnRequested(f, r))
                    && Prepared(store, Select(store, f, r).value, r).1.phase.Activating?)
              && (Select(store, f, r).Failure? ==> !OnRequested(f, r))
              && (Select(store, f, r).Failure? || Select(store, f, r).value.alreadyActive ==>
                    && ops == resume && !Retry.RunsThrough(store, w, r)
                    && LeftAt(store, w, base, ops, store, w1, |resume|))
    {
      var resume := ResumeOps(store, Visible(w)).value;
      assert resume[..|resume|] == resume;
      ResumingLeaves(store, w, base, r, |resume|);
      ReadyToActivate(store, w, base, r);
      MetExactly(store, ExecAll(w, resume), base, r);
    }

    lemma {:induction false} MetExactly(store: Store, w: Window, base: Pointers, r: Request)
      requires Settled(store, w, base) && r.bundle in store.bundles
      ensures Select(store, Visible(w), r).Success? && Select(store, Visible(w), r).value.alreadyActive <==>
              OnRequested(Visible(w), r)
    {
      var f := Visible(w);
      assert SettledState(store, w[|w| - 1], Of(f), base);
      if f.journal.None? && r.runtime.Some? {
        Retry.AlreadyActiveExactly(store, f, r);
      }
    }

    lemma {:induction false} ActivatedPrefix(store: Store, w: Window, base: Pointers, r: Request, resume: seq<Op>,
                                             store': Store, a: Attempt, k: nat)
      requires HostInv(store, w, base) && r.attemptName !in store.attempts
      requires Activates(store, w, r, resume, store', a) && k <= |ActivateOps(store', a)|
      ensures LeftAt(store, w, base, SessionOps(store, Visible(w), r).1, store',
                     ExecAll(ExecAll(w, resume), ActivateOps(store', a)[..k]), |resume| + k)
    {
      ProgramIs(store, w, r, resume, store', a);
      SessionKeeps(store, w, base, r, |resume| + k);
      LaterPrefix(w, base, resume, ActivateOps(store', a), |resume| + k);
    }

    /** Where an activation that starts gets to, `k` operations after the resumed promotion. */
    lemma {:induction false} Concluded(store: Store, w: Window, base: Pointers, r: Request, resume: seq<Op>,
                                       store': Store, a: Attempt, k: nat)
      requires HostInv(store, w, base) && r.attemptName !in store.attempts
      requires Activates(store, w, r, resume, store', a) && k <= |ActivateOps(store', a)|
      ensures SessionOps(store, Visible(w), r) == (store', resume + ActivateOps(store', a))
      ensures LeftAt(store, w, base, SessionOps(store, Visible(w), r).1, store',
                     ExecAll(ExecAll(w, resume), ActivateOps(store', a)[..k]), |resume| + k)
      ensures Retry.RunsThrough(store, w, r) <==> CandidateOf(store', a).Some?
      ensures k == |ActivateOps(store', a)| ==>
              ExecAll(ExecAll(w, resume), ActivateOps(store', a)[..k]) == ExecAll(w, SessionOps(store, Visible(w), r).1)
    {
      ProgramIs(store, w, r, resume, store', a);
      ActivatedPrefix(store, w, base, r, resume, store', a, k);
      ReadyToActivate(store, w, base, r);
      ExecConcat(w, resume, ActivateOps(store', a));
      assert k == |ActivateOps(store', a)| ==> ActivateOps(store', a)[..k] == ActivateOps(store', a);
    }

    /** Finish a promotion that a crash left journaled. */
    method Resume() returns (ok: bool)
      modifies state`window, state`granted
      ensures match ResumeOps(state.store, Visible(old(state.window)))
              case None => !ok && state.window == old(state.window) && state.granted == old(state.granted)
              case Some(ops) => Ran(old(state.window), old(state.granted), ops, state.window, state.granted, ok)
    {
      var journal := Visible(state.window).journal;
      assert ExecAll(state.window, []) == state.window;
      ok := true;
      if journal.Some? && journal.value.phase.Activated? {
        ok := state.Promote(journal.value);
      }
    }

    /** Journal the start, run the external activation, journal its success, promote. */
    method Run(a: Attempt, healthy: bool) returns (finished: bool, ghost k: nat)
      requires a.phase.Activating?
      modifies state`window, state`granted
      ensures k == Min(old(state.granted), if healthy then |ActivateOps(state.store, a)| else 2)
      ensures state.window == ExecAll(old(state.window), ActivateOps(state.store, a)[..k])
      ensures state.granted == old(state.granted) - k
      ensures finished <==>
              healthy && CandidateOf(state.store, a).Some? && |ActivateOps(state.store, a)| <= old(state.granted)
    {
      ghost var w0, n0 := state.window, state.granted;
      ghost var ops := ActivateOps(state.store, a);
      var activated := a.(phase := Activated);
      var ok := state.BeginActivation(a);
      assert ops[..2] == [PutJournal(a), Sync];
      k := Min(n0, 2);
      assert ops[..2][..k] == ops[..k];
      if !ok || !healthy {
        return false, k;
      }
      ghost var w1, n1 := state.window, state.granted;
      ok := state.MarkActivated(a);
      assert ops[2..4] == [PutJournal(activated), Sync] && ops[..2] + ops[2..4] == ops[..4];
      RanThen(w0, n0, ops[..2], w1, n1, ops[2..4], state.window, state.granted, ok);
      if !ok {
        assert ops[..4][..n0] == ops[..n0];
        return false, n0;
      }
      ghost var w2, n2 := state.window, state.granted;
      assert ops[..4][..4] == ops[..4];
      assert CandidateOf(state.store, activated) == CandidateOf(state.store, a);
      ok := state.Promote(activated);
      if CandidateOf(state.store, a).None? {
        return false, 4;
      }
      assert ops == ops[..4] + PromoteOps(CandidateOf(state.store, a).value);
      RanThen(w0, n0, ops[..4], w2, n2, PromoteOps(CandidateOf(state.store, a).value), state.window, state.granted, ok);
      return ok, Min(n0, |ops|);
    }
  }
}
