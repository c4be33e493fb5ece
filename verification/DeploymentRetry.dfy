/** What a retried or repeated activation comes to, and what selection decides. */
module DeploymentRetry {
  import opened Common
  import opened Deployment
  import opened DeploymentSafety

  /** The directory after a promotion: the candidate everywhere, nothing staged, no journal. */
  function Done(c: Candidate): Files {
    Files(Some(c.compose), Some(c.manifest), Some(c.bundle), None, None)
  }

  // ---------- retrying a promotion ----------

  /** Whatever mixture a promotion was stopped in, running it again ends, durably, with all three
      pointers on the candidate and no journal; there is then nothing left to resume. */
  lemma {:induction false} PromotionCompletes(store: Store, w: Window, base: Pointers, a: Attempt)
    requires Pending(store, w, base, a)
    ensures CandidateOf(store, a).Some? && ResumeOps(store, Visible(w)) == Some(PromoteOps(CandidateOf(store, a).value))
    ensures var c := CandidateOf(store, a).value;
            && ExecAll(w, PromoteOps(c)) == [Done(c)]
            && OneRelease(store, Of(Done(c))) && ResumeOps(store, Done(c)) == Some([])
  {
    assert PendingState(store, w[|w| - 1], base, a);
    var c := CandidateOf(store, a).value;
    assert PromoteOps(c)[..10] == PromoteOps(c);
    PromoteStates(store, w, base, a, c, 10);
    CandidateIsOneRelease(store, a);
  }

  /** A promotion stopped after any operation. Left running, it resumes to the same end. Restarted from
      any state since the last sync it resumes to the same end or had reached it, unless that state is
      from before its journal entry was durable: then nothing had been promoted. */
  lemma {:induction false} RetryIsIdempotent(store: Store, w: Window, base: Pointers, a: Attempt, c: Candidate, k: nat, i: nat)
    requires Pending(store, w, base, a) && CandidateOf(store, a) == Some(c)
    requires k <= 10 && i < |ExecAll(w, PromoteOps(c)[..k])|
    ensures var w' := ExecAll(w, PromoteOps(c)[..k]);
            var image := w'[i];
            && (if k <= 8 then ExecAll(w', PromoteOps(c)) == [Done(c)] else Visible(w') == Done(c))
            && (image.journal == Some(a) ==> ExecAll([image], PromoteOps(c)) == [Done(c)])
            && (image.journal != Some(a) ==> image == Done(c) || (Of(image) == base && k <= 1 && !Durable(w)))
  {
    PromoteStates(store, w, base, a, c, k);
    var w' := ExecAll(w, PromoteOps(c)[..k]);
    if k <= 8 {
      PromotionCompletes(store, w', base, a);
      assert PendingState(store, w'[i], base, a);
      if w'[i].journal == Some(a) {
        assert Pending(store, [w'[i]], base, a);
        PromotionCompletes(store, [w'[i]], base, a);
      }
    } else {
      CandidateIsOneRelease(store, a);
      if w'[i].journal == Some(a) {
        assert Pending(store, [w'[i]], base, a);
        PromotionCompletes(store, [w'[i]], base, a);
      }
    }
  }

  // ---------- a whole session ----------

  /** The session runs to its end: it prepares or retains an attempt, and that attempt can be promoted. */
  predicate RunsThrough(store: Store, w: Window, r: Request) {
    && ResumeOps(store, Visible(w)).Some?
    && var f := Visible(ExecAll([Visible(w)], ResumeOps(store, Visible(w)).value));
       && Select(store, f, r).Success? && !Select(store, f, r).value.alreadyActive
       && var (store', a) := Prepared(store, Select(store, f, r).value, r);
          CandidateOf(store', a).Some?
  }

  lemma {:induction false} FinishActivation(store: Store, w: Window, base: Pointers, a: Attempt)
    requires Settled(store, w, base) && a.phase.Activating? && CandidateOf(store, a).Some?
    ensures var c := CandidateOf(store, a).value;
            ExecAll(w, ActivateOps(store, a)) == [Done(c)] && OneRelease(store, Candidates(c))
  {
    var activated := a.(phase := Activated);
    var head := [PutJournal(a), Sync, PutJournal(activated), Sync];
    AfterHead(store, w, base, a);
    PromotionCompletes(store, ExecAll(w, head), Of(Visible(w)), activated);
    ExecConcat(w, head, PromoteOps(CandidateOf(store, a).value));
  }

  /** A session that runs to its end leaves the host, durably, on the requested bundle. */
  lemma {:induction false} CompleteSessionActivates(store: Store, w: Window, base: Pointers, r: Request)
    requires HostInv(store, w, base) && r.attemptName !in store.attempts && RunsThrough(store, w, r)
    ensures var (store', ops) := SessionOps(store, Visible(w), r);
            var done := ExecAll(w, ops);
            && |done| == 1 && done[0].journal == None && OneRelease(store', Of(done[0]))
            && done[0].current == Some(r.bundle) && store'.bundles == store.bundles
  {
    var resume := ResumeOps(store, Visible(w)).value;
    ReadyToActivate(store, w, base, r);
    var w1 := ExecAll(w, resume);
    var (store', a) := Prepared(store, Select(store, Visible(w1), r).value, r);
    FinishActivation(store', w1, base, a);
    ExecConcat(w, resume, ActivateOps(store', a));
  }

  // ---------- selection ----------

  /** Host runtime configuration that changes nothing of the settings a host runs with. */
  predicate AddsNothing(runtime: Runtime, active: Settings) {
    && (runtime.images.Some? ==> runtime.images.value == active.images)
    && (forall key | key in runtime.values :: key in active.values && active.values[key] == runtime.values[key])
  }

  lemma {:induction false} LaidOver(active: map<string, string>, over: map<string, string>)
    ensures active + over == active <==> forall key | key in over :: key in active && active[key] == over[key]
  {
    if active + over == active {
      forall key | key in over ensures key in active && active[key] == over[key] {
        assert (active + over)[key] == over[key];
      }
    }
  }

  /** On a host whose pointers name one release and nothing is journaled, a request restarts nothing if and
      only if it asks for that release and the host's runtime configuration adds nothing to its settings. */
  lemma {:induction false} AlreadyActiveExactly(store: Store, f: Files, r: Request)
    requires OneRelease(store, Of(f)) && f.journal.None? && r.bundle in store.bundles && r.runtime.Some?
    ensures Select(store, f, r).Success? && Select(store, f, r).value.alreadyActive <==>
            f.current == Some(r.bundle) && AddsNothing(r.runtime.value, f.manifest.value)
  {
    if f.manifest.Some? {
      LaidOver(f.manifest.value.values, r.runtime.value.values);
    }
  }

  /** What a request needs to be taken up. With nothing journaled: readable runtime configuration, and a host
      with settings on the same infrastructure, or an empty host that is not to be rolled back. With an attempt
      journaled: one on the same infrastructure, which if it has the bundle's images must be for the same
      operation and, in directory and compose, the same bundle. */
  predicate Acceptable(store: Store, f: Files, r: Request) {
    r.bundle in store.bundles &&
    var b := store.bundles[r.bundle];
    match f.journal
    case None =>
      r.runtime.Some? && (if f.manifest.None? then !r.rollback
                          else f.manifest.value.images.infrastructure == b.images.infrastructure)
    case Some(a) =>
      a.name in store.attempts &&
      var files := store.attempts[a.name];
      && files.manifest.images.infrastructure == b.images.infrastructure
      && (files.manifest.images == b.images ==>
            a.rollback == r.rollback && files.manifest.bundle == Some(r.bundle) && files.compose == b.compose)
  }

  lemma {:induction false} SelectsExactly(store: Store, f: Files, r: Request)
    ensures Select(store, f, r).Success? <==> Acceptable(store, f, r)
  {
    if Acceptable(store, f, r) && f.journal.Some? {
      var kept := store.attempts[f.journal.value.name].manifest;
      LaidOver(kept.values, map[]);
    }
  }

  /** What an activation that starts journals: the requested operation on the requested bundle, with its
      compose file, each setting as the host's runtime configuration names it or else as it was. */
  lemma {:induction false} StartsAsRequested(store: Store, f: Files, r: Request)
    requires Select(store, f, r).Success? && !Select(store, f, r).value.alreadyActive
    ensures var (store', a) := Prepared(store, Select(store, f, r).value, r);
            var kept := if f.journal.Some? then store.attempts[f.journal.value.name].manifest.values
                        else if f.manifest.Some? then f.manifest.value.values else map[];
            var named := if f.journal.Some? then map[] else r.runtime.value.values;
            && a.rollback == r.rollback && a.name in store'.attempts
            && store'.attempts[a.name].manifest.bundle == Some(r.bundle)
            && store'.attempts[a.name].compose == store.bundles[r.bundle].compose
            && (forall key :: key in store'.attempts[a.name].manifest.values <==> key in kept || key in named)
            && (forall key | key in store'.attempts[a.name].manifest.values ::
                  store'.attempts[a.name].manifest.values[key] == if key in named then named[key] else kept[key])
  {
    SelectsExactly(store, f, r);
  }

  lemma {:induction false} PromotedManifest(store: Store, w: Window, base: Pointers, r: Request)
    requires HostInv(store, w, base) && r.attemptName !in store.attempts && RunsThrough(store, w, r)
    ensures var f := Visible(ExecAll([Visible(w)], ResumeOps(store, Visible(w)).value));
            var (store', ops) := SessionOps(store, Visible(w), r);
            ExecAll(w, ops)[0].manifest == Some(Select(store, f, r).value.settings)
  {
    var resume := ResumeOps(store, Visible(w)).value;
    ReadyToActivate(store, w, base, r);
    var w1 := ExecAll(w, resume);
    var (store', a) := Prepared(store, Select(store, Visible(w1), r).value, r);
    FinishActivation(store', w1, base, a);
    ExecConcat(w, resume, ActivateOps(store', a));
  }

  /** A fresh installation whose runtime configuration names images the release does not have: they
      are ignored at first, and asked for again the next time. */
  predicate IgnoredImages(store: Store, f: Files, r: Request)
    requires r.bundle in store.bundles && r.runtime.Some?
  {
    f.journal.None? && f.manifest.None? && r.runtime.value.images.Some?
    && r.runtime.value.images.value != store.bundles[r.bundle].images
  }

  /** A completed request, repeated with the same configuration, restarts nothing and runs no directory
      operation, if and only if it was not a fresh installation that ignored the configuration's images. A
      retried attempt is left out: it keeps the configuration it was prepared with. */
  lemma {:induction false} RepeatRestartsNothing(store: Store, w: Window, base: Pointers, r: Request, again: Request)
    requires HostInv(store, w, base) && r.attemptName !in store.attempts && RunsThrough(store, w, r)
    requires r.runtime.Some? && again.runtime == r.runtime && again.bundle == r.bundle
    requires Visible(w).journal.Some? ==> Visible(w).journal.value.phase.Activated?
    ensures var f := Visible(ExecAll([Visible(w)], ResumeOps(store, Visible(w)).value));
            var (store', ops) := SessionOps(store, Visible(w), r);
            var done := ExecAll(w, ops)[0];
            && (Select(store', done, again).Success? && Select(store', done, again).value.alreadyActive <==>
                !IgnoredImages(store, f, r))
            && (!IgnoredImages(store, f, r) ==> SessionOps(store', done, again) == (store', []))
  {
    var resume := ResumeOps(store, Visible(w)).value;
    var f := Visible(ExecAll(w, resume));
    ReadyToActivate(store, w, base, r);
    if resume != [] {
      PromotionCompletes(store, w, base, Visible(w).journal.value);
    }
    CompleteSessionActivates(store, w, base, r);
    PromotedManifest(store, w, base, r);
    var (store', ops) := SessionOps(store, Visible(w), r);
    var done := ExecAll(w, ops)[0];
    AlreadyActiveExactly(store', done, again);
    assert ExecAll([done], []) == [done];
  }

  /** runtime.env names images, over retained settings, and they are not the bundle's. */
  predicate OverridesImages(store: Store, f: Files, r: Request)
    requires r.bundle in store.bundles
  {
    f.journal.None? && f.manifest.Some? && r.runtime.Some? && r.runtime.value.images.Some?
    && r.runtime.value.images.value != store.bundles[r.bundle].images
  }

  /** A prepared attempt can be promoted exactly when the host's runtime configuration, laid over
      retained settings, does not put other images in place of the bundle's. */
  lemma {:induction false} PreparedIsPromotable(store: Store, f: Files, r: Request)
    requires Select(store, f, r).Success? && !Select(store, f, r).value.alreadyActive
    requires r.attemptName !in store.attempts
    ensures var (store', a) := Prepared(store, Select(store, f, r).value, r);
            CandidateOf(store', a).Some? <==> !OverridesImages(store, f, r)
  {
  }
}
