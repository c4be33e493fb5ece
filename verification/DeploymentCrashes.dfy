/** Histories of activations, each stopped anywhere and restarted from whatever a crash left. */
module DeploymentCrashes {
  import opened Common
  import opened Deployment
  import opened DeploymentSafety

  /** A host: the store, the directory states since the last sync, and the pointers in place when
      the last attempt was journaled. */
  datatype Host = Host(store: Store, window: Window, base: Pointers)

  /** How one activation ended: after some operations, with the process gone and the directory as it
      was, or with the machine restarted from a directory image. */
  datatype Session = Session(request: Request, stopAfter: nat, restart: Option<Files>)

  predicate Begun(h: Host) {
    h.base == Of(Visible(h.window)) && OneRelease(h.store, h.base) && |h.window| == 1 && h.window[0].journal.None?
  }

  predicate Fresh(h: Host, r: Request) {
    r.attemptName !in h.store.attempts
  }

  function Program(h: Host, r: Request): seq<Op> {
    SessionOps(h.store, Visible(h.window), r).1
  }

  /** The host after the first `k` operations of an activation. */
  function Stopped(h: Host, r: Request, k: nat): Host
    requires k <= |Program(h, r)|
  {
    var (store, ops) := SessionOps(h.store, Visible(h.window), r);
    Host(store, ExecAll(h.window, ops[..k]), BaseAll(h.window, h.base, ops[..k]))
  }

  function StopPoint(h: Host, s: Session): (k: nat)
    ensures k <= |Program(h, s.request)|
  {
    var n := |Program(h, s.request)|;
    if s.stopAfter < n then s.stopAfter else n
  }

  function After(h: Host, s: Session): Host {
    var stopped := Stopped(h, s.request, StopPoint(h, s));
    if s.restart.Some? then stopped.(window := [s.restart.value]) else stopped
  }

  function History(start: Host, sessions: seq<Session>): Host {
    if sessions == [] then start
    else
      var h := History(start, sessions[..|sessions| - 1]);
      var s := sessions[|sessions| - 1];
      if Fresh(h, s.request) then After(h, s) else h
  }

  // ---------- entries lost in the order they were written ----------

  /** Every restart is from one of the directory states since the last sync. */
  predicate LostInOrder(start: Host, sessions: seq<Session>) {
    sessions != [] ==>
      var h := History(start, sessions[..|sessions| - 1]);
      var s := sessions[|sessions| - 1];
      && LostInOrder(start, sessions[..|sessions| - 1])
      && (s.restart.Some? ==> s.restart.value in Stopped(h, s.request, StopPoint(h, s)).window)
  }

  lemma {:induction false} StoppedKeeps(h: Host, r: Request, k: nat)
    requires HostInv(h.store, h.window, h.base) && Fresh(h, r) && k <= |Program(h, r)|
    ensures var h' := Stopped(h, r, k);
            Kept(h'.store, h'.window, h'.base, SafeResume(h.store, h.window, h.base))
  {
    SessionKeeps(h.store, h.window, h.base, r, k);
  }

  /** Over any history of activations, each stopped or crashed anywhere, the pointers name one release,
      or the journal holds an ACTIVATED attempt and each pointer is its candidate's or what it was when
      that attempt was journaled. */
  lemma {:induction false} EveryCrashPointIsGood(start: Host, sessions: seq<Session>)
    requires Begun(start) && LostInOrder(start, sessions)
    ensures var h := History(start, sessions);
            HostInv(h.store, h.window, h.base) && AllGood(h.store, h.window, h.base)
  {
    if sessions != [] {
      EveryCrashPointIsGood(start, sessions[..|sessions| - 1]);
      var h := History(start, sessions[..|sessions| - 1]);
      var s := sessions[|sessions| - 1];
      if Fresh(h, s.request) {
        var k := StopPoint(h, s);
        StoppedKeeps(h, s.request, k);
        var h' := Stopped(h, s.request, k);
        if s.restart.Some? {
          var i :| 0 <= i < |h'.window| && h'.window[i] == s.restart.value;
          RestartFromState(h'.store, h'.window, h'.base, i);
        }
      }
    }
    var h := History(start, sessions);
    InvIsGood(h.store, h.window, h.base);
  }

  // ---------- entries lost independently ----------

  /** No crash during this activation, whatever unsynced entries it loses, leaves mixed pointers. */
  ghost predicate SurvivesAnyLoss(h: Host, r: Request) {
    forall k: nat, f: Files | k <= |Program(h, r)| && Scattered(Stopped(h, r, k).window, f) ::
      Good(Stopped(h, r, k).store, f, Stopped(h, r, k).base)
  }

  predicate StartsSafe(h: Host) {
    SafeResume(h.store, h.window, h.base)
  }

  lemma {:induction false} SafeSurvives(h: Host, r: Request)
    requires HostInv(h.store, h.window, h.base) && Fresh(h, r) && StartsSafe(h)
    ensures SurvivesAnyLoss(h, r)
  {
    forall k: nat, f: Files | k <= |Program(h, r)| && Scattered(Stopped(h, r, k).window, f)
      ensures Good(Stopped(h, r, k).store, f, Stopped(h, r, k).base)
    {
      StoppedKeeps(h, r, k);
      ScatteredImage(Stopped(h, r, k).store, Stopped(h, r, k).window, Stopped(h, r, k).base, f);
    }
  }

  /** The first replaced pointer can outlive a journal entry that was never synced. */
  lemma {:induction false} UnsyncedJournalBreaks(h: Host, r: Request) returns (f: Files)
    requires HostInv(h.store, h.window, h.base) && Fresh(h, r) && !StartsSafe(h)
    ensures |Program(h, r)| > 0 && Scattered(Stopped(h, r, 1).window, f)
    ensures !Good(Stopped(h, r, 1).store, f, Stopped(h, r, 1).base)
  {
    var w, a := h.window, Visible(h.window).journal.value;
    var c := CandidateOf(h.store, a).value;
    var i :| 0 <= i < |w| && w[i].journal != Visible(w).journal;
    assert PendingState(h.store, w[i], h.base, a) && PendingState(h.store, w[|w| - 1], h.base, a);
    f := w[i].(compose := Some(c.compose));
    FirstReplace(h, r, c);
    var w' := Stopped(h, r, 1).window;
    assert w'[i] == w[i] && w'[|w|].compose == f.compose;
    assert Scattered(w', f);
    MixedImage(h.store, w[i], h.base, c);
  }

  /** The first operation of a resumed promotion. */
  lemma {:induction false} FirstReplace(h: Host, r: Request, c: Candidate)
    requires Promotable(h.store, Visible(h.window)) && Some(c) == CandidateOf(h.store, Visible(h.window).journal.value)
    ensures |Program(h, r)| > 0 && Stopped(h, r, 1).base == h.base
    ensures Stopped(h, r, 1).window == h.window + [Visible(h.window).(compose := Some(c.compose))]
    ensures Fresh(h, r) ==> forall a: Attempt | a.name in h.store.attempts ::
              CandidateOf(Stopped(h, r, 1).store, a) == CandidateOf(h.store, a)
    ensures Stopped(h, r, 1).store.bundles == h.store.bundles
  {
    var ops := Program(h, r);
    assert PromoteOps(c) <= ops;
    OneMoreOp(h.window, h.base, ops, 1);
    assert ops[..0] == [] && ops[0] == PutCompose(c.compose);
  }

  /** The old pointers under a new compose file. */
  lemma {:induction false} MixedImage(store: Store, f: Files, base: Pointers, c: Candidate)
    requires OneRelease(store, base) && Of(f) == base && base.compose != Some(c.compose)
    ensures !OneRelease(store, Of(f.(compose := Some(c.compose))))
  {
  }

  /** Exactly when an activation survives the loss of any unsynced entries: unless it resumes a promotion
      whose journal entry is itself unsynced and which changes compose. */
  lemma {:induction false} SurvivesExactlyIfSafe(h: Host, r: Request)
    requires HostInv(h.store, h.window, h.base) && Fresh(h, r)
    ensures SurvivesAnyLoss(h, r) <==> StartsSafe(h)
  {
    if StartsSafe(h) {
      SafeSurvives(h, r);
    } else {
      var f := UnsyncedJournalBreaks(h, r);
    }
  }

  /** Every restart is from some image, each entry as it was at some time since the last sync. */
  ghost predicate LostAnyhow(start: Host, sessions: seq<Session>) {
    sessions != [] ==>
      var h := History(start, sessions[..|sessions| - 1]);
      var s := sessions[|sessions| - 1];
      && LostAnyhow(start, sessions[..|sessions| - 1])
      && (s.restart.Some? ==> Scattered(Stopped(h, s.request, StopPoint(h, s)).window, s.restart.value))
  }

  /** No activation of the history resumes a promotion whose journal entry is unsynced. */
  predicate EveryStartIsSafe(start: Host, sessions: seq<Session>) {
    sessions != [] ==>
      var h := History(start, sessions[..|sessions| - 1]);
      EveryStartIsSafe(start, sessions[..|sessions| - 1]) && (Fresh(h, sessions[|sessions| - 1].request) ==> StartsSafe(h))
  }

  ghost predicate EverySessionSurvives(start: Host, sessions: seq<Session>) {
    sessions != [] ==>
      var h := History(start, sessions[..|sessions| - 1]);
      var r := sessions[|sessions| - 1].request;
      EverySessionSurvives(start, sessions[..|sessions| - 1]) && (Fresh(h, r) ==> SurvivesAnyLoss(h, r))
  }

  lemma {:induction false} SafeHistory(start: Host, sessions: seq<Session>)
    requires Begun(start) && LostAnyhow(start, sessions) && EveryStartIsSafe(start, sessions)
    ensures var h := History(start, sessions); HostInv(h.store, h.window, h.base)
  {
    if sessions != [] {
      var h := History(start, sessions[..|sessions| - 1]);
      var s := sessions[|sessions| - 1];
      SafeHistory(start, sessions[..|sessions| - 1]);
      if Fresh(h, s.request) {
        var h' := Stopped(h, s.request, StopPoint(h, s));
        StoppedKeeps(h, s.request, StopPoint(h, s));
        if s.restart.Some? {
          ScatteredImage(h'.store, h'.window, h'.base, s.restart.value);
        }
      }
    }
  }

  /** Whole histories, restarted from any images: at no point of any activation can a crash leave mixed
      pointers, if and only if no activation resumes a promotion that changes compose while the journal
      entry naming it is still unsynced. */
  lemma {:induction false} EveryImageIsGood(start: Host, sessions: seq<Session>)
    requires Begun(start) && LostAnyhow(start, sessions)
    ensures EverySessionSurvives(start, sessions) <==> EveryStartIsSafe(start, sessions)
  {
    if sessions != [] {
      var front := sessions[..|sessions| - 1];
      EveryImageIsGood(start, front);
      if EveryStartIsSafe(start, front) {
        SafeHistory(start, front);
        var h := History(start, front);
        if Fresh(h, sessions[|sessions| - 1].request) {
          SurvivesExactlyIfSafe(h, sessions[|sessions| - 1].request);
        }
      }
    }
  }

  // ---------- the one stop that leaves an unsafe start ----------

  function Resumed(h: Host, r: Request): (w: Window)
    requires ResumeOps(h.store, Visible(h.window)).Some?
  {
    ExecAll(h.window, ResumeOps(h.store, Visible(h.window)).value)
  }

  /** The stop falls between the rename of the ACTIVATED journal entry and the sync that makes it
      durable, and the attempt would change compose. */
  predicate CutsJournalSync(h: Host, r: Request, k: nat) {
    && ResumeOps(h.store, Visible(h.window)).Some?
    && k == |ResumeOps(h.store, Visible(h.window)).value| + 3
    && k <= |Program(h, r)|
    && var f := Visible(Resumed(h, r));
       && Select(h.store, f, r).Success?
       && var (store', a) := Prepared(h.store, Select(h.store, f, r).value, r);
          CandidateOf(store', a).Some? && f.compose != Some(CandidateOf(store', a).value.compose)
  }

  /** A host left running by a stop there, and only there, starts unsafe. */
  lemma {:induction false} OnlyOneStopIsUnsafe(h: Host, r: Request, k: nat)
    requires HostInv(h.store, h.window, h.base) && Fresh(h, r) && StartsSafe(h) && k <= |Program(h, r)|
    ensures StartsSafe(Stopped(h, r, k)) <==> !CutsJournalSync(h, r, k)
  {
    if ResumeOps(h.store, Visible(h.window)).Some? {
      var resume := ResumeOps(h.store, Visible(h.window)).value;
      if k <= |resume| {
        StopWhileResuming(h, r, resume, k);
      } else {
        StopWhileActivating(h, r, resume, k);
      }
    } else {
      assert Program(h, r)[..k] == [];
    }
  }

  lemma {:induction false} StopWhileResuming(h: Host, r: Request, resume: seq<Op>, k: nat)
    requires HostInv(h.store, h.window, h.base) && Fresh(h, r) && StartsSafe(h)
    requires ResumeOps(h.store, Visible(h.window)) == Some(resume) && k <= |resume| && k <= |Program(h, r)|
    ensures StartsSafe(Stopped(h, r, k))
  {
    SessionResuming(h.store, h.window, h.base, r, resume, k);
    var w' := Stopped(h, r, k).window;
    assert Program(h, r)[..k] == resume[..k];
    if resume == [] {
      assert resume[..k] == [];
    } else {
      var a := Visible(h.window).journal.value;
      var c := CandidateOf(h.store, a).value;
      PromoteStates(h.store, h.window, h.base, a, c, k);
      assert PendingState(h.store, h.window[|h.window| - 1], h.base, a);
    }
  }

  lemma {:induction false} StopWhileActivating(h: Host, r: Request, resume: seq<Op>, k: nat)
    requires HostInv(h.store, h.window, h.base) && Fresh(h, r)
    requires ResumeOps(h.store, Visible(h.window)) == Some(resume) && |resume| < k <= |Program(h, r)|
    ensures StartsSafe(Stopped(h, r, k)) <==> !CutsJournalSync(h, r, k)
  {
    var store', a := LongerActivates(h.store, h.window, r, resume);
    ProgramIs(h.store, h.window, r, resume, store', a);
    ReadyToActivate(h.store, h.window, h.base, r);
    LaterPrefix(h.window, h.base, resume, ActivateOps(store', a), k);
    StopInActivation(store', Resumed(h, r), h.base, a, k - |resume|);
  }

  lemma {:induction false} StopInActivation(store: Store, w: Window, base: Pointers, a: Attempt, k: nat)
    requires Settled(store, w, base) && a.phase.Activating? && a.name in store.attempts
    requires 1 <= k <= |ActivateOps(store, a)|
    ensures var ops := ActivateOps(store, a)[..k];
            SafeResume(store, ExecAll(w, ops), BaseAll(w, base, ops)) <==>
            !(k == 3 && CandidateOf(store, a).Some? && Visible(w).compose != Some(CandidateOf(store, a).value.compose))
  {
    var activated := a.(phase := Activated);
    var head := [PutJournal(a), Sync, PutJournal(activated), Sync];
    if k <= 4 {
      assert ActivateOps(store, a)[..k] == head[..k];
      StopInHead(store, w, base, a, k);
    } else {
      var c := CandidateOf(store, a).value;
      LaterPrefix(w, base, head, PromoteOps(c), k);
      AfterHead(store, w, base, a);
      PromoteStates(store, ExecAll(w, head), Of(Visible(w)), activated, c, k - 4);
    }
  }

  lemma {:induction false} StopInHead(store: Store, w: Window, base: Pointers, a: Attempt, k: nat)
    requires a.phase.Activating? && 1 <= k <= 4
    ensures var ops := [PutJournal(a), Sync, PutJournal(a.(phase := Activated)), Sync][..k];
            SafeResume(store, ExecAll(w, ops), BaseAll(w, base, ops)) <==>
            !(k == 3 && CandidateOf(store, a).Some? && Visible(w).compose != Some(CandidateOf(store, a).value.compose))
  {
    var activated := a.(phase := Activated);
    var head := [PutJournal(a), Sync, PutJournal(activated), Sync];
    HeadStates(w, base, a);
    assert CandidateOf(store, activated) == CandidateOf(store, a);
    var w' := ExecAll(w, head[..k]);
    assert k == 3 ==> w'[0].journal != Visible(w').journal;
  }

  /** The input: a first activation killed there on an empty host. Resuming it, a crash right after
      compose is replaced can leave the new compose with no manifest, no release and no promotion to resume. */
  lemma {:induction false} KilledFirstActivationBreaks(h: Host, r: Request, next: Request)
    requires Begun(h) && Visible(h.window) == Files(None, None, None, None, None)
    requires Fresh(h, r) && r.bundle in h.store.bundles && r.runtime.Some? && !r.rollback
    requires next.attemptName != r.attemptName && Fresh(h, next)
    ensures |Program(h, r)| >= 3 && Fresh(Stopped(h, r, 3), next)
    ensures !SurvivesAnyLoss(Stopped(h, r, 3), next)
  {
    var f := Visible(h.window);
    assert ExecAll([f], []) == [f] && ExecAll(h.window, []) == h.window;
    assert SettledState(h.store, h.window[0], Of(f), h.base);
    var (store', a) := Prepared(h.store, Select(h.store, f, r).value, r);
    assert CandidateOf(store', a).Some?;
    assert Program(h, r) == [] + ActivateOps(store', a);
    StoppedKeeps(h, r, 3);
    OnlyOneStopIsUnsafe(h, r, 3);
    SurvivesExactlyIfSafe(Stopped(h, r, 3), next);
  }
}
