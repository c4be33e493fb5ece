/** Release promotion on one host: a journal and three pointer files, changed one directory
    operation at a time, with a stop or a crash possible after every one of them. */
module Deployment {
  import opened Common

  type Dir = string
  type Yaml = string

  datatype Images = Images(application: string, infrastructure: string)

  /** A verified bundle of the immutable release store. */
  datatype Bundle = Bundle(images: Images, compose: Yaml)

  datatype Settings = Settings(images: Images, bundle: Option<Dir>, values: map<string, string>)

  datatype Phase = Activating | Activated

  datatype Attempt = Attempt(name: string, phase: Phase, rollback: bool)

  /** What an attempt directory holds; written once, before the attempt is journaled. */
  datatype AttemptFiles = AttemptFiles(manifest: Settings, compose: Yaml)

  datatype Store = Store(bundles: map<Dir, Bundle>, attempts: map<string, AttemptFiles>)

  /** The entries of the application directory that promotion changes. */
  datatype Files = Files(
    compose: Option<Yaml>,
    manifest: Option<Settings>,
    current: Option<Dir>,
    next: Option<Dir>,
    journal: Option<Attempt>)

  // ---------- directory operations and what survives ----------

  datatype Op =
    | PutCompose(compose: Yaml)
    | PutManifest(manifest: Settings)
    | DropNext
    | LinkNext(target: Dir)
    | InstallCurrent
    | PutJournal(attempt: Attempt)
    | DropJournal
    | Sync

  function Apply(f: Files, op: Op): Files {
    match op
    case PutCompose(y) => f.(compose := Some(y))
    case PutManifest(m) => f.(manifest := Some(m))
    case DropNext => f.(next := None)
    case LinkNext(d) => f.(next := Some(d))
    case InstallCurrent => f.(current := f.next, next := None)
    case PutJournal(a) => f.(journal := Some(a))
    case DropJournal => f.(journal := None)
    case Sync => f
  }

  /** The directory states since the last sync, the oldest durable, the newest visible. */
  type Window = w: seq<Files> | w != [] witness [Files(None, None, None, None, None)]

  function Visible(w: Window): Files {
    w[|w| - 1]
  }

  function Exec(w: Window, op: Op): Window {
    if op.Sync? then [Visible(w)] else w + [Apply(Visible(w), op)]
  }

  function ExecAll(w: Window, ops: seq<Op>): Window {
    if ops == [] then w else Exec(ExecAll(w, ops[..|ops| - 1]), ops[|ops| - 1])
  }

  /** A crash that may lose any unsynced change of any entry, independently of the others. */
  ghost predicate Scattered(w: Window, f: Files) {
    && (exists i :: 0 <= i < |w| && w[i].compose == f.compose)
    && (exists i :: 0 <= i < |w| && w[i].manifest == f.manifest)
    && (exists i :: 0 <= i < |w| && w[i].current == f.current)
    && (exists i :: 0 <= i < |w| && w[i].next == f.next)
    && (exists i :: 0 <= i < |w| && w[i].journal == f.journal)
  }

  // ---------- candidates and selection ----------

  datatype Candidate = Candidate(bundle: Dir, manifest: Settings, compose: Yaml)

  /** Reading a promotion candidate: the attempt must still agree with an installed bundle. */
  function CandidateOf(store: Store, a: Attempt): Option<Candidate> {
    if a.name !in store.attempts then None
    else
      var files := store.attempts[a.name];
      match files.manifest.bundle
      case None => None
      case Some(d) =>
        if d in store.bundles && store.bundles[d].images == files.manifest.images && store.bundles[d].compose == files.compose
        then Some(Candidate(d, files.manifest, files.compose))
        else None
  }

  function PromoteOps(c: Candidate): seq<Op> {
    [PutCompose(c.compose), Sync, PutManifest(c.manifest), Sync,
     DropNext, LinkNext(c.bundle), InstallCurrent, Sync, DropJournal, Sync]
  }

  /** Host runtime configuration laid over retained settings; it may name images of its own. */
  datatype Runtime = Runtime(images: Option<Images>, values: map<string, string>)

  datatype Request = Request(bundle: Dir, rollback: bool, runtime: Option<Runtime>, attemptName: string)

  datatype Selection = Selection(settings: Settings, retained: Option<Attempt>, alreadyActive: bool)

  datatype Refusal =
    | UnknownBundle | InvalidJournal | UnreadableRuntime | FreshRollback | InfrastructureChange
    | OperationDiffers | BundleDiffers

  function SelectedSettings(retained: Option<Settings>, runtime: Runtime, b: Bundle, dir: Dir): Settings {
    match retained
    case Some(s) =>
      Settings(if runtime.images.Some? then runtime.images.value else b.images, Some(dir), s.values + runtime.values)
    case None => Settings(b.images, Some(dir), runtime.values)
  }

  function Select(store: Store, f: Files, r: Request): Result<Selection, Refusal> {
    if r.bundle !in store.bundles then Failure(UnknownBundle)
    else if f.journal.Some? && f.journal.value.name !in store.attempts then Failure(InvalidJournal)
    else if f.journal.None? && r.runtime.None? then Failure(UnreadableRuntime)
    else
      var b := store.bundles[r.bundle];
      var retained := if f.journal.Some? then Some(store.attempts[f.journal.value.name].manifest) else f.manifest;
      var runtime := if f.journal.Some? then Runtime(None, map[]) else r.runtime.value;
      if retained.None? && r.rollback then Failure(FreshRollback)
      else if retained.Some? && retained.value.images.infrastructure != b.images.infrastructure then Failure(InfrastructureChange)
      else
        var settings := SelectedSettings(retained, runtime, b, r.bundle);
        if f.journal.Some? && retained.value.images == b.images then
          if f.journal.value.rollback != r.rollback then Failure(OperationDiffers)
          else if retained.value != settings || store.attempts[f.journal.value.name].compose != b.compose then Failure(BundleDiffers)
          else Success(Selection(settings, f.journal, false))
        else
          Success(Selection(settings, None,
                            f.journal.None? && f.current == Some(r.bundle) && retained == Some(settings)
                            && f.compose == Some(b.compose)))
  }

  // ---------- one activation as a program of directory operations ----------

  /** The attempt an activation works on, and the store after preparing it. */
  function Prepared(store: Store, s: Selection, r: Request): (Store, Attempt)
    requires r.bundle in store.bundles
  {
    match s.retained
    case Some(a) => (store, a)
    case None =>
      (store.(attempts := store.attempts[r.attemptName := AttemptFiles(s.settings, store.bundles[r.bundle].compose)]),
       Attempt(r.attemptName, Activating, r.rollback))
  }

  function ActivateOps(store: Store, a: Attempt): seq<Op> {
    [PutJournal(a), Sync, PutJournal(a.(phase := Activated)), Sync]
    + match CandidateOf(store, a) case Some(c) => PromoteOps(c) case None => []
  }

  /** First finish a journaled promotion, then select and activate. External commands that
      fail stop the program early; so does a crash. */
  function ResumeOps(store: Store, f: Files): Option<seq<Op>> {
    if f.journal.Some? && f.journal.value.phase.Activated? then
      match CandidateOf(store, f.journal.value)
      case Some(c) => Some(PromoteOps(c))
      case None => None
    else Some([])
  }

  function SessionOps(store: Store, f: Files, r: Request): (Store, seq<Op>) {
    match ResumeOps(store, f)
    case None => (store, [])
    case Some(resume) =>
      var f' := Visible(ExecAll([f], resume));
      match Select(store, f', r)
      case Failure(_) => (store, resume)
      case Success(s) =>
        if s.alreadyActive then (store, resume)
        else
          var (store', a) := Prepared(store, s, r);
          (store', resume + ActivateOps(store', a))
  }
}
