/** What holds of the active pointers at every stop of any history of activations: the invariant,
    one activation at a time. */
module DeploymentSafety {
  import opened Common
  import opened Deployment

  datatype Pointers = Pointers(compose: Option<Yaml>, manifest: Option<Settings>, current: Option<Dir>)

  function Of(f: Files): Pointers {
    Pointers(f.compose, f.manifest, f.current)
  }

  function Candidates(c: Candidate): Pointers {
    Pointers(Some(c.compose), Some(c.manifest), Some(c.bundle))
  }

  /** All three pointers name one installed release, or the host is still empty. */
  predicate OneRelease(store: Store, p: Pointers) {
    if p.manifest.None? then p == Pointers(None, None, None)
    else
      var d := p.manifest.value.bundle;
      d.Some? && d.value in store.bundles && p.current == d && p.compose == Some(store.bundles[d.value].compose)
      && p.manifest.value.images == store.bundles[d.value].images
  }

  predicate Between(p: Pointers, from: Pointers, to: Pointers) {
    && (p.compose == from.compose || p.compose == to.compose)
    && (p.manifest == from.manifest || p.manifest == to.manifest)
    && (p.current == from.current || p.current == to.current)
  }

  /** The journal holds an ACTIVATED attempt that still agrees with an installed bundle. */
  predicate Promotable(store: Store, f: Files) {
    f.journal.Some? && f.journal.value.phase.Activated? && CandidateOf(store, f.journal.value).Some?
  }

  /** One release everywhere, unless a journaled ACTIVATED attempt is being promoted over `base`,
      the pointers in place when that attempt was journaled. */
  predicate Good(store: Store, f: Files, base: Pointers) {
    && OneRelease(store, base)
    && if Promotable(store, f) then Between(Of(f), base, Candidates(CandidateOf(store, f.journal.value).value))
       else OneRelease(store, Of(f))
  }

  lemma {:induction false} CandidateIsOneRelease(store: Store, a: Attempt)
    requires CandidateOf(store, a).Some?
    ensures OneRelease(store, Candidates(CandidateOf(store, a).value))
  {
  }

  // ---------- programs, step by step ----------

  lemma {:induction false} ExecConcat(w: Window, a: seq<Op>, b: seq<Op>)
    ensures ExecAll(w, a + b) == ExecAll(ExecAll(w, a), b)
  {
    if b == [] {
      assert a + b == a;
    } else {
      assert (a + b)[..|a + b| - 1] == a + b[..|b| - 1];
      ExecConcat(w, a, b[..|b| - 1]);
    }
  }

  lemma {:induction false} VisibleIsLocal(w: Window, ops: seq<Op>)
    ensures Visible(ExecAll(w, ops)) == Visible(ExecAll([Visible(w)], ops))
  {
    if ops != [] {
      VisibleIsLocal(w, ops[..|ops| - 1]);
    }
  }

  lemma {:induction false} OneMoreOp(w: Window, base: Pointers, ops: seq<Op>, k: nat)
    requires 1 <= k <= |ops|
    ensures ExecAll(w, ops[..k]) == Exec(ExecAll(w, ops[..k - 1]), ops[k - 1])
    ensures BaseAll(w, base, ops[..k]) == BaseAfter(ExecAll(w, ops[..k - 1]), BaseAll(w, base, ops[..k - 1]), ops[k - 1])
  {
    assert ops[..k][..k - 1] == ops[..k - 1];
  }

  /** The pointers an attempt replaces are those in place when it is journaled. */
  function BaseAfter(w: Window, base: Pointers, op: Op): Pointers {
    if op.PutJournal? && op.attempt.phase.Activating? then Of(Visible(w)) else base
  }

  function BaseAll(w: Window, base: Pointers, ops: seq<Op>): Pointers {
    if ops == [] then base
    else
      var front := ops[..|ops| - 1];
      BaseAfter(ExecAll(w, front), BaseAll(w, base, front), ops[|ops| - 1])
  }

  lemma {:induction false} BaseConcat(w: Window, base: Pointers, a: seq<Op>, b: seq<Op>)
    ensures BaseAll(w, base, a + b) == BaseAll(ExecAll(w, a), BaseAll(w, base, a), b)
  {
    if b == [] {
      assert a + b == a;
    } else {
      assert (a + b)[..|a + b| - 1] == a + b[..|b| - 1];
      BaseConcat(w, base, a, b[..|b| - 1]);
      ExecConcat(w, a, b[..|b| - 1]);
    }
  }

  // ---------- the invariant ----------

  predicate Known(store: Store, f: Files) {
    f.journal.Some? ==> f.journal.value.name in store.attempts
  }

  /** Whatever survives of the journal is what is visible of it. */
  predicate Durable(w: Window) {
    forall i | 0 <= i < |w| :: w[i].journal == Visible(w).journal
  }

  predicate PendingState(store: Store, f: Files, base: Pointers, a: Attempt) {
    && Known(store, f) && CandidateOf(store, a).Some?
    && if f.journal == Some(a) then Between(Of(f), base, Candidates(CandidateOf(store, a).value))
       else !Promotable(store, f) && Of(f) == base
  }

  /** An ACTIVATED attempt is visible in the journal. A state from before it was journaled has the
      old pointers, and while such a state can still surface only compose was replaced. */
  predicate Pending(store: Store, w: Window, base: Pointers, a: Attempt) {
    && a.phase.Activated? && Visible(w).journal == Some(a) && OneRelease(store, base)
    && (forall i | 0 <= i < |w| :: PendingState(store, w[i], base, a))
    && (Durable(w) || forall i | 0 <= i < |w| :: w[i].manifest == base.manifest && w[i].current == base.current)
  }

  predicate SettledState(store: Store, f: Files, p: Pointers, base: Pointers) {
    Known(store, f) && Of(f) == p && Good(store, f, base)
  }

  /** Nothing is to be promoted: every state that can surface has the same pointers. */
  predicate Settled(store: Store, w: Window, base: Pointers) {
    && !Promotable(store, Visible(w))
    && forall i | 0 <= i < |w| :: SettledState(store, w[i], Of(Visible(w)), base)
  }

  predicate HostInv(store: Store, w: Window, base: Pointers) {
    if Promotable(store, Visible(w)) then Pending(store, w, base, Visible(w).journal.value) else Settled(store, w, base)
  }

  predicate AllGood(store: Store, w: Window, base: Pointers) {
    forall i | 0 <= i < |w| :: Good(store, w[i], base)
  }

  lemma {:induction false} InvIsGood(store: Store, w: Window, base: Pointers)
    requires HostInv(store, w, base)
    ensures AllGood(store, w, base)
  {
    if Promotable(store, Visible(w)) {
      forall i | 0 <= i < |w| ensures Good(store, w[i], base) {
        assert PendingState(store, w[i], base, Visible(w).journal.value);
      }
    }
  }

  /** One state of the window, restarted from, satisfies the invariant again. */
  lemma {:induction false} RestartFromState(store: Store, w: Window, base: Pointers, i: nat)
    requires HostInv(store, w, base) && i < |w|
    ensures HostInv(store, [w[i]], base)
  {
    if Promotable(store, Visible(w)) {
      assert PendingState(store, w[i], base, Visible(w).journal.value);
    }
  }

  // ---------- losing unsynced entries independently ----------

  /** When every image a crash can leave, each entry lost or kept on its own, is safe. */
  predicate ImageSafe(store: Store, w: Window, base: Pointers) {
    HostInv(store, w, base)
    && (Promotable(store, Visible(w)) ==> Durable(w) || forall i | 0 <= i < |w| :: Of(w[i]) == base)
  }

  /** The journal is durable, or promotion changes nothing before its first sync. */
  predicate SafeResume(store: Store, w: Window, base: Pointers) {
    var f := Visible(w);
    Promotable(store, f) ==> Durable(w) || base.compose == Some(CandidateOf(store, f.journal.value).value.compose)
  }

  lemma {:induction false} ScatteredImage(store: Store, w: Window, base: Pointers, f: Files)
    requires ImageSafe(store, w, base) && Scattered(w, f)
    ensures HostInv(store, [f], base) && Good(store, f, base)
  {
    var i :| 0 <= i < |w| && w[i].journal == f.journal;
    if !Promotable(store, Visible(w)) {
      assert SettledState(store, w[i], Of(Visible(w)), base);
      assert Of(f) == Of(w[i]);
    } else {
      var a := Visible(w).journal.value;
      assert PendingState(store, w[i], base, a);
      if Durable(w) {
        DurableImage(store, w, base, a, f);
      } else {
        assert Of(f) == base;
      }
    }
    InvIsGood(store, [f], base);
    assert AllGood(store, [f], base) && [f][0] == f;
  }

  lemma {:induction false} DurableImage(store: Store, w: Window, base: Pointers, a: Attempt, f: Files)
    requires Pending(store, w, base, a) && Durable(w) && Scattered(w, f)
    ensures f.journal == Some(a) && PendingState(store, f, base, a)
  {
    var i :| 0 <= i < |w| && w[i].compose == f.compose;
    var j :| 0 <= j < |w| && w[j].manifest == f.manifest;
    var k :| 0 <= k < |w| && w[k].current == f.current;
    assert PendingState(store, w[i], base, a) && PendingState(store, w[j], base, a) && PendingState(store, w[k], base, a);
  }

  // ---------- promotion, one operation at a time ----------

  lemma {:induction false} PendingPut(store: Store, w: Window, base: Pointers, a: Attempt, f: Files)
    requires Pending(store, w, base, a) && f.journal == Some(a)
    requires Between(Of(f), base, Candidates(CandidateOf(store, a).value))
    requires Durable(w) || (f.manifest == base.manifest && f.current == base.current)
    ensures Pending(store, w + [f], base, a) && (Durable(w) ==> Durable(w + [f]))
  {
    assert PendingState(store, w[|w| - 1], base, a);
    assert PendingState(store, f, base, a);
  }

  lemma {:induction false} PendingSync(store: Store, w: Window, base: Pointers, a: Attempt)
    requires Pending(store, w, base, a)
    ensures Pending(store, [Visible(w)], base, a) && Durable([Visible(w)])
  {
    assert PendingState(store, w[|w| - 1], base, a);
  }

  /** Dropping the journal of a completed promotion. */
  predicate Finished(w: Window, a: Attempt, c: Candidate) {
    && Visible(w).journal == None
    && forall i | 0 <= i < |w| :: Of(w[i]) == Candidates(c) && w[i].next == None && w[i].journal in {Some(a), None}
  }

  lemma {:induction false} FinishedIsSettled(store: Store, w: Window, base: Pointers, a: Attempt)
    requires OneRelease(store, base) && CandidateOf(store, a).Some? && a.phase.Activated?
    requires Finished(w, a, CandidateOf(store, a).value)
    ensures Settled(store, w, base) && Of(Visible(w)) == Candidates(CandidateOf(store, a).value)
  {
    CandidateIsOneRelease(store, a);
  }

  /** Where a promotion stands after its first `k` operations. */
  predicate PromotedTo(store: Store, w: Window, base: Pointers, a: Attempt, c: Candidate, k: nat) {
    var v := Visible(w);
    && (k <= 8 ==> Pending(store, w, base, a) && (2 <= k ==> Durable(w)))
    && (k >= 1 ==> v.compose == Some(c.compose))
    && (k >= 3 ==> v.manifest == Some(c.manifest))
    && (k >= 5 ==> v.next == if k == 6 then Some(c.bundle) else None)
    && (k >= 7 ==> v.current == Some(c.bundle))
    && (k == 8 || k == 10 ==> |w| == 1)
    && (k >= 9 ==> Finished(w, a, c))
  }

  lemma {:induction false} PromoteStep(store: Store, w: Window, base: Pointers, a: Attempt, c: Candidate, k: nat)
    requires CandidateOf(store, a) == Some(c) && 1 <= k <= 10 && PromotedTo(store, w, base, a, c, k - 1)
    ensures PromotedTo(store, Exec(w, PromoteOps(c)[k - 1]), base, a, c, k)
  {
    var op := PromoteOps(c)[k - 1];
    if k <= 8 {
      assert PendingState(store, w[|w| - 1], base, a);
      if op.Sync? {
        PendingSync(store, w, base, a);
      } else {
        PendingPut(store, w, base, a, Apply(Visible(w), op));
      }
    }
  }

  lemma {:induction false} PromoteStates(store: Store, w: Window, base: Pointers, a: Attempt, c: Candidate, k: nat)
    requires CandidateOf(store, a) == Some(c) && Pending(store, w, base, a) && k <= 10
    ensures PromotedTo(store, ExecAll(w, PromoteOps(c)[..k]), base, a, c, k)
    ensures Durable(w) && k <= 8 ==> Durable(ExecAll(w, PromoteOps(c)[..k]))
    ensures BaseAll(w, base, PromoteOps(c)[..k]) == base
  {
    if k == 0 {
      assert PromoteOps(c)[..0] == [];
    } else {
      PromoteStates(store, w, base, a, c, k - 1);
      OneMoreOp(w, base, PromoteOps(c), k);
      PromoteStep(store, ExecAll(w, PromoteOps(c)[..k - 1]), base, a, c, k);
    }
  }

  lemma {:induction false} PromoteKeeps(store: Store, w: Window, base: Pointers, a: Attempt, c: Candidate, k: nat)
    requires CandidateOf(store, a) == Some(c) && Pending(store, w, base, a) && k <= 10
    ensures var w' := ExecAll(w, PromoteOps(c)[..k]);
            HostInv(store, w', base) && (SafeResume(store, w, base) ==> ImageSafe(store, w', base))
  {
    PromoteStates(store, w, base, a, c, k);
    var w' := ExecAll(w, PromoteOps(c)[..k]);
    if k >= 9 {
      FinishedIsSettled(store, w', base, a);
    } else if k < 2 && SafeResume(store, w, base) && !Durable(w) {
      FirstPut(store, w, base, a, c, k);
    }
  }

  /** Replacing compose by what it already was shows no new pointers. */
  lemma {:induction false} FirstPut(store: Store, w: Window, base: Pointers, a: Attempt, c: Candidate, k: nat)
    requires CandidateOf(store, a) == Some(c) && Pending(store, w, base, a) && !Durable(w) && k < 2
    requires base.compose == Some(c.compose)
    ensures forall i | 0 <= i < |ExecAll(w, PromoteOps(c)[..k])| :: Of(ExecAll(w, PromoteOps(c)[..k])[i]) == base
  {
    forall i | 0 <= i < |w| ensures Of(w[i]) == base {
      assert PendingState(store, w[i], base, a);
    }
    assert PromoteOps(c)[..0] == [];
    OneMoreOp(w, base, PromoteOps(c), 1);
  }

  // ---------- one activation ----------

  lemma {:induction false} HeadStates(w: Window, base: Pointers, a: Attempt)
    requires a.phase.Activating?
    ensures var activated := a.(phase := Activated);
            var head := [PutJournal(a), Sync, PutJournal(activated), Sync];
            var f1 := Visible(w).(journal := Some(a));
            var f2 := f1.(journal := Some(activated));
            && ExecAll(w, head[..0]) == w && ExecAll(w, head[..1]) == w + [f1] && ExecAll(w, head[..2]) == [f1]
            && ExecAll(w, head[..3]) == [f1, f2] && ExecAll(w, head[..4]) == [f2]
            && BaseAll(w, base, head[..0]) == base
            && (forall k | 1 <= k <= 4 :: BaseAll(w, base, head[..k]) == Of(Visible(w)))
  {
    var activated := a.(phase := Activated);
    var head := [PutJournal(a), Sync, PutJournal(activated), Sync];
    OneMoreOp(w, base, head, 1);
    OneMoreOp(w, base, head, 2);
    OneMoreOp(w, base, head, 3);
    OneMoreOp(w, base, head, 4);
    assert [Visible(w).(journal := Some(a))] + [Visible(w).(journal := Some(activated))]
        == [Visible(w).(journal := Some(a)), Visible(w).(journal := Some(activated))];
  }

  /** Journaling an attempt over settled pointers, up to the journal's last sync. */
  lemma {:induction false} HeadKeeps(store: Store, w: Window, base: Pointers, a: Attempt, k: nat)
    requires Settled(store, w, base) && a.phase.Activating? && a.name in store.attempts && k <= 4
    ensures var ops := [PutJournal(a), Sync, PutJournal(a.(phase := Activated)), Sync][..k];
            ImageSafe(store, ExecAll(w, ops), BaseAll(w, base, ops))
  {
    HeadStates(w, base, a);
    assert SettledState(store, w[|w| - 1], Of(Visible(w)), base);
  }

  lemma {:induction false} ActivateKeeps(store: Store, w: Window, base: Pointers, a: Attempt, k: nat)
    requires Settled(store, w, base) && a.phase.Activating? && a.name in store.attempts
    requires k <= |ActivateOps(store, a)|
    ensures var ops := ActivateOps(store, a)[..k]; ImageSafe(store, ExecAll(w, ops), BaseAll(w, base, ops))
  {
    var activated := a.(phase := Activated);
    var head := [PutJournal(a), Sync, PutJournal(activated), Sync];
    if k <= 4 {
      assert ActivateOps(store, a)[..k] == head[..k];
      HeadKeeps(store, w, base, a, k);
    } else {
      var c := CandidateOf(store, a).value;
      assert CandidateOf(store, activated) == Some(c);
      HeadStates(w, base, a);
      assert head[..4] == head;
      LaterPrefix(w, base, head, PromoteOps(c), k);
      AfterHead(store, w, base, a);
      PromoteKeeps(store, ExecAll(w, head), Of(Visible(w)), activated, c, k - 4);
      PromoteStates(store, ExecAll(w, head), Of(Visible(w)), activated, c, k - 4);
    }
  }

  lemma {:induction false} AfterHead(store: Store, w: Window, base: Pointers, a: Attempt)
    requires Settled(store, w, base) && a.phase.Activating? && CandidateOf(store, a).Some?
    ensures var activated := a.(phase := Activated);
            var w' := ExecAll(w, [PutJournal(a), Sync, PutJournal(activated), Sync]);
            && Pending(store, w', Of(Visible(w)), activated) && Durable(w')
            && BaseAll(w, base, [PutJournal(a), Sync, PutJournal(activated), Sync]) == Of(Visible(w))
  {
    var head := [PutJournal(a), Sync, PutJournal(a.(phase := Activated)), Sync];
    HeadStates(w, base, a);
    assert head[..4] == head;
    assert SettledState(store, w[|w| - 1], Of(Visible(w)), base);
  }

  // ---------- one session: finish a journaled promotion, then activate ----------

  /** The invariant, and image safety where the journal was durable to begin with. */
  predicate Kept(store: Store, w: Window, base: Pointers, safe: bool) {
    HostInv(store, w, base) && (safe ==> ImageSafe(store, w, base))
  }

  lemma {:induction false} ResumeKeeps(store: Store, w: Window, base: Pointers, k: nat)
    requires HostInv(store, w, base) && ResumeOps(store, Visible(w)).Some? && k <= |ResumeOps(store, Visible(w)).value|
    ensures var ops := ResumeOps(store, Visible(w)).value;
            && Kept(store, ExecAll(w, ops[..k]), base, SafeResume(store, w, base))
            && BaseAll(w, base, ops[..k]) == base
            && (k == |ops| ==> Settled(store, ExecAll(w, ops), base))
  {
    var ops := ResumeOps(store, Visible(w)).value;
    if ops == [] {
      assert ops[..k] == [];
    } else {
      var a := Visible(w).journal.value;
      var c := CandidateOf(store, a).value;
      PromoteKeeps(store, w, base, a, c, k);
      PromoteStates(store, w, base, a, c, k);
      if k == 10 {
        assert ops[..10] == ops;
        FinishedIsSettled(store, ExecAll(w, ops), base, a);
      }
    }
  }

  lemma {:induction false} LaterPrefix(w: Window, base: Pointers, first: seq<Op>, second: seq<Op>, k: nat)
    requires |first| <= k <= |first| + |second|
    ensures ExecAll(w, (first + second)[..k]) == ExecAll(ExecAll(w, first), second[..k - |first|])
    ensures BaseAll(w, base, (first + second)[..k])
         == BaseAll(ExecAll(w, first), BaseAll(w, base, first), second[..k - |first|])
  {
    assert (first + second)[..k] == first + second[..k - |first|];
    ExecConcat(w, first, second[..k - |first|]);
    BaseConcat(w, base, first, second[..k - |first|]);
  }

  lemma {:induction false} AttemptsOnlyGrow(store: Store, name: string, files: AttemptFiles, w: Window, base: Pointers, safe: bool)
    requires Kept(store, w, base, safe) && name !in store.attempts
    ensures Kept(store.(attempts := store.attempts[name := files]), w, base, safe)
    ensures Settled(store, w, base) ==> Settled(store.(attempts := store.attempts[name := files]), w, base)
  {
    var store' := store.(attempts := store.attempts[name := files]);
    if Promotable(store, Visible(w)) {
      var a := Visible(w).journal.value;
      assert PendingState(store, w[|w| - 1], base, a);
      forall i | 0 <= i < |w| ensures PendingState(store', w[i], base, a) {
        assert PendingState(store, w[i], base, a);
      }
    } else {
      forall i | 0 <= i < |w| ensures SettledState(store', w[i], Of(Visible(w)), base) {
        assert SettledState(store, w[i], Of(Visible(w)), base);
      }
      assert SettledState(store, w[|w| - 1], Of(Visible(w)), base);
    }
  }

  lemma {:induction false} GrownStates(store: Store, f: Files, r: Request, w: Window, base: Pointers, safe: bool)
    requires Kept(store, w, base, safe) && r.attemptName !in store.attempts && Select(store, f, r).Success?
    ensures Kept(Prepared(store, Select(store, f, r).value, r).0, w, base, safe)
    ensures Settled(store, w, base) ==> Settled(Prepared(store, Select(store, f, r).value, r).0, w, base)
  {
    AttemptsOnlyGrow(store, r.attemptName,
                     AttemptFiles(Select(store, f, r).value.settings, store.bundles[r.bundle].compose), w, base, safe);
  }

  lemma {:induction false} PreparedIsActivating(store: Store, f: Files, r: Request)
    requires Select(store, f, r).Success? && !Promotable(store, f) && ResumeOps(store, f).Some?
    ensures var (store', a) := Prepared(store, Select(store, f, r).value, r);
            a.phase.Activating? && a.name in store'.attempts
  {
  }

  /** After any number of directory operations of any activation the invariant holds, over the pointers
      in place when the journaled attempt was journaled; and every crash image is safe if the session
      did not resume a promotion whose journal was still unsynced. */
  lemma {:induction false} SessionKeeps(store: Store, w: Window, base: Pointers, r: Request, k: nat)
    requires HostInv(store, w, base) && r.attemptName !in store.attempts
    requires k <= |SessionOps(store, Visible(w), r).1|
    ensures var (store', ops) := SessionOps(store, Visible(w), r);
            Kept(store', ExecAll(w, ops[..k]), BaseAll(w, base, ops[..k]), SafeResume(store, w, base))
  {
    var f := Visible(w);
    var (store', ops) := SessionOps(store, f, r);
    if ResumeOps(store, f).None? {
      assert ops[..k] == [];
    } else if k <= |ResumeOps(store, f).value| {
      SessionResuming(store, w, base, r, ResumeOps(store, f).value, k);
    } else {
      SessionActivating(store, w, base, r, ResumeOps(store, f).value, k);
    }
  }

  lemma {:induction false} SessionResuming(store: Store, w: Window, base: Pointers, r: Request, resume: seq<Op>, k: nat)
    requires HostInv(store, w, base) && r.attemptName !in store.attempts
    requires ResumeOps(store, Visible(w)) == Some(resume) && k <= |resume|
    ensures var (store', ops) := SessionOps(store, Visible(w), r);
            && k <= |ops| && BaseAll(w, base, ops[..k]) == base
            && Kept(store', ExecAll(w, ops[..k]), base, SafeResume(store, w, base))
  {
    var (store', ops) := SessionOps(store, Visible(w), r);
    ResumeKeeps(store, w, base, k);
    assert ops[..k] == resume[..k];
    var f' := Visible(ExecAll([Visible(w)], resume));
    if Select(store, f', r).Success? {
      GrownStates(store, f', r, ExecAll(w, resume[..k]), base, SafeResume(store, w, base));
    }
  }

  /** The resumed promotion is through: settled pointers, and an attempt ready to be journaled. */
  lemma {:induction false} ReadyToActivate(store: Store, w: Window, base: Pointers, r: Request)
    requires HostInv(store, w, base) && r.attemptName !in store.attempts && ResumeOps(store, Visible(w)).Some?
    ensures var w1 := ExecAll(w, ResumeOps(store, Visible(w)).value);
            && Visible(w1) == Visible(ExecAll([Visible(w)], ResumeOps(store, Visible(w)).value))
            && Settled(store, w1, base) && BaseAll(w, base, ResumeOps(store, Visible(w)).value) == base
            && !(Visible(w1).journal.Some? && Visible(w1).journal.value.phase.Activated?)
            && (Select(store, Visible(w1), r).Success? ==>
                var (store', a) := Prepared(store, Select(store, Visible(w1), r).value, r);
                Settled(store', w1, base) && a.phase.Activating? && a.name in store'.attempts)
  {
    var resume := ResumeOps(store, Visible(w)).value;
    var w1 := ExecAll(w, resume);
    assert resume[..|resume|] == resume;
    ResumeKeeps(store, w, base, |resume|);
    VisibleIsLocal(w, resume);
    if resume != [] {
      PromoteStates(store, w, base, Visible(w).journal.value, CandidateOf(store, Visible(w).journal.value).value, 10);
    }
    if Select(store, Visible(w1), r).Success? {
      PreparedIsActivating(store, Visible(w1), r);
      GrownStates(store, Visible(w1), r, w1, base, false);
    }
  }

  /** A session that activates: the resumed promotion, then the attempt's operations. */
  predicate Activates(store: Store, w: Window, r: Request, resume: seq<Op>, store': Store, a: Attempt) {
    && ResumeOps(store, Visible(w)) == Some(resume)
    && var f := Visible(ExecAll(w, resume));
       && Select(store, f, r).Success? && !Select(store, f, r).value.alreadyActive
       && (store', a) == Prepared(store, Select(store, f, r).value, r)
  }

  lemma {:induction false} ProgramIs(store: Store, w: Window, r: Request, resume: seq<Op>, store': Store, a: Attempt)
    requires Activates(store, w, r, resume, store', a)
    ensures SessionOps(store, Visible(w), r) == (store', resume + ActivateOps(store', a))
  {
    VisibleIsLocal(w, resume);
  }

  lemma {:induction false} LongerActivates(store: Store, w: Window, r: Request, resume: seq<Op>) returns (store': Store, a: Attempt)
    requires ResumeOps(store, Visible(w)) == Some(resume) && |resume| < |SessionOps(store, Visible(w), r).1|
    ensures Activates(store, w, r, resume, store', a)
  {
    VisibleIsLocal(w, resume);
    var f := Visible(ExecAll(w, resume));
    store', a := Prepared(store, Select(store, f, r).value, r).0, Prepared(store, Select(store, f, r).value, r).1;
  }

  lemma {:induction false} ActivatingKeeps(store: Store, w: Window, base: Pointers, r: Request, resume: seq<Op>, store': Store,
                                           a: Attempt, k: nat)
    requires HostInv(store, w, base) && r.attemptName !in store.attempts && Activates(store, w, r, resume, store', a)
    requires |resume| <= k <= |resume + ActivateOps(store', a)|
    ensures var ops := (resume + ActivateOps(store', a))[..k];
            ImageSafe(store', ExecAll(w, ops), BaseAll(w, base, ops))
  {
    ReadyToActivate(store, w, base, r);
    LaterPrefix(w, base, resume, ActivateOps(store', a), k);
    ActivateKeeps(store', ExecAll(w, resume), base, a, k - |resume|);
  }

  lemma {:induction false} SessionActivating(store: Store, w: Window, base: Pointers, r: Request, resume: seq<Op>, k: nat)
    requires HostInv(store, w, base) && r.attemptName !in store.attempts
    requires ResumeOps(store, Visible(w)) == Some(resume) && |resume| < k <= |SessionOps(store, Visible(w), r).1|
    ensures var (store', ops) := SessionOps(store, Visible(w), r);
            ImageSafe(store', ExecAll(w, ops[..k]), BaseAll(w, base, ops[..k]))
  {
    var store', a := LongerActivates(store, w, r, resume);
    ProgramIs(store, w, r, resume, store', a);
    ActivatingKeeps(store, w, base, r, resume, store', a, k);
  }
}
