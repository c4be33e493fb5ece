/** Terminal wakes staged inside nested database transactions: one flat, owner-tagged deque
    stands in for a stack of per-savepoint buffers. */
module TerminalWakes {
  import opened Common

  const TERMINAL_WAKE_LIMIT: nat := 1024

  datatype Wake = Wake(runId: nat, eventId: nat)

  datatype Entry = Entry(owner: nat, wake: Wake)

  /** The session: open transactions, root first; and the staged wakes, if any were ever staged. */
  datatype State = State(stack: seq<nat>, nextId: nat, pending: Option<seq<Entry>>, offered: seq<Wake>)

  datatype Op =
    | Begin | Stage(wake: Wake) | BeginNested | ReleaseNested | RollbackNested
    | CommitRoot | RollbackRoot | CloseSession

  function Entries(s: State): seq<Entry> {
    if s.pending.Some? then s.pending.value else []
  }

  function Wakes(entries: seq<Entry>): (r: seq<Wake>)
    ensures |r| == |entries|
    ensures forall i | 0 <= i < |r| :: r[i] == entries[i].wake
  {
    seq(|entries|, i requires 0 <= i < |entries| => entries[i].wake)
  }

  /** A released savepoint hands its entries to its parent; the order of the deque stays. */
  function Promote(entries: seq<Entry>, from: nat, to: nat): (r: seq<Entry>)
    ensures |r| == |entries|
    ensures forall i | 0 <= i < |r| ::
              r[i] == if entries[i].owner == from then Entry(to, entries[i].wake) else entries[i]
  {
    seq(|entries|, i requires 0 <= i < |entries| =>
      if entries[i].owner == from then Entry(to, entries[i].wake) else entries[i])
  }

  function Discard(entries: seq<Entry>, owner: nat): seq<Entry> {
    if entries == [] then []
    else
      var e := entries[|entries| - 1];
      Discard(entries[..|entries| - 1], owner) + if e.owner == owner then [] else [e]
  }

  function Top(s: State): nat
    requires s.stack != []
  {
    s.stack[|s.stack| - 1]
  }

  /** The tag of a wake staged with no transaction open; transactions are numbered from one. */
  const NO_TRANSACTION: nat := 0

  function Owner(s: State): nat {
    if s.stack == [] then NO_TRANSACTION else Top(s)
  }

  function Step(s: State, op: Op): State {
    match op
    case Begin => if s.stack == [] then s.(stack := [s.nextId], nextId := s.nextId + 1) else s
    case BeginNested => if s.stack != [] then s.(stack := s.stack + [s.nextId], nextId := s.nextId + 1) else s
    case Stage(w) =>
      if |Entries(s)| == TERMINAL_WAKE_LIMIT then s.(pending := Some(Entries(s)))
      else s.(pending := Some(Entries(s) + [Entry(Owner(s), w)]))
    case ReleaseNested =>
      if |s.stack| < 2 then s
      else s.(stack := s.stack[..|s.stack| - 1],
              pending := if s.pending.None? then None else Some(Promote(s.pending.value, Top(s), s.stack[|s.stack| - 2])))
    case RollbackNested =>
      if |s.stack| < 2 then s
      else s.(stack := s.stack[..|s.stack| - 1],
              pending := if s.pending.None? then None else Some(Discard(s.pending.value, Top(s))))
    case CommitRoot =>
      if |s.stack| != 1 then s
      else s.(stack := [], pending := None, offered := s.offered + Wakes(Entries(s)))
    case RollbackRoot => if s.stack == [] then s else s.(stack := [], pending := None)
    case CloseSession => if s.stack == [] then s else s.(stack := [], pending := None)
  }

  function Run(s: State, ops: seq<Op>): State {
    if ops == [] then s else Step(Run(s, ops[..|ops| - 1]), ops[|ops| - 1])
  }

  const INITIAL := State([], 1, None, [])

  // ---------- the stack of buffers ----------

  /** The simple machine: wakes staged before any transaction, one buffer an open transaction, and what
      was offered. */
  datatype Buffers = Buffers(loose: seq<Wake>, stack: seq<seq<Wake>>, offered: seq<Wake>)

  const NO_BUFFERS := Buffers([], [], [])

  function Total(stack: seq<seq<Wake>>): nat {
    if stack == [] then 0 else Total(stack[..|stack| - 1]) + |stack[|stack| - 1]|
  }

  function Held(b: Buffers): nat {
    |b.loose| + Total(b.stack)
  }

  function BufferStep(b: Buffers, op: Op): Buffers {
    var n := |b.stack|;
    match op
    case Begin => if n == 0 then b.(stack := [[]]) else b
    case BeginNested => if n > 0 then b.(stack := b.stack + [[]]) else b
    case Stage(w) =>
      if Held(b) == TERMINAL_WAKE_LIMIT then b
      else if n == 0 then b.(loose := b.loose + [w])
      else b.(stack := b.stack[..n - 1] + [b.stack[n - 1] + [w]])
    case ReleaseNested =>
      if n < 2 then b else b.(stack := b.stack[..n - 2] + [b.stack[n - 2] + b.stack[n - 1]])
    case RollbackNested => if n < 2 then b else b.(stack := b.stack[..n - 1])
    case CommitRoot => if n != 1 then b else Buffers([], [], b.offered + b.loose + b.stack[0])
    case RollbackRoot => if n == 0 then b else b.(loose := [], stack := [])
    case CloseSession => if n == 0 then b else b.(loose := [], stack := [])
  }

  function BufferRun(b: Buffers, ops: seq<Op>): Buffers {
    if ops == [] then b else BufferStep(BufferRun(b, ops[..|ops| - 1]), ops[|ops| - 1])
  }

  // ---------- the refinement ----------

  function Tag(owner: nat, wakes: seq<Wake>): (r: seq<Entry>)
    ensures |r| == |wakes|
    ensures forall i | 0 <= i < |r| :: r[i] == Entry(owner, wakes[i])
  {
    seq(|wakes|, i requires 0 <= i < |wakes| => Entry(owner, wakes[i]))
  }

  /** The buffers laid end to end, each under its transaction's tag. */
  function Flatten(owners: seq<nat>, stack: seq<seq<Wake>>): seq<Entry>
    requires |owners| == |stack|
  {
    if stack == [] then []
    else Flatten(owners[..|owners| - 1], stack[..|stack| - 1]) + Tag(owners[|owners| - 1], stack[|stack| - 1])
  }

  ghost predicate Refines(s: State, b: Buffers) {
    && |s.stack| == |b.stack| && s.offered == b.offered
    && (forall i, j | 0 <= i < j < |s.stack| :: s.stack[i] != s.stack[j])
    && (forall i | 0 <= i < |s.stack| :: NO_TRANSACTION < s.stack[i] < s.nextId)
    && NO_TRANSACTION < s.nextId
    && Entries(s) == Tag(NO_TRANSACTION, b.loose) + Flatten(s.stack, b.stack)
  }

  /** No entry at any position has this owner. */
  predicate NoneOwned(entries: seq<Entry>, owner: nat) {
    forall i | 0 <= i < |entries| :: entries[i].owner != owner
  }

  lemma {:induction false} FlattenOwners(owners: seq<nat>, stack: seq<seq<Wake>>, owner: nat)
    requires |owners| == |stack| && forall i | 0 <= i < |owners| :: owners[i] != owner
    ensures NoneOwned(Flatten(owners, stack), owner)
  {
    if stack != [] {
      FlattenOwners(owners[..|owners| - 1], stack[..|stack| - 1], owner);
    }
  }

  lemma {:induction false} FlattenSize(owners: seq<nat>, stack: seq<seq<Wake>>)
    requires |owners| == |stack|
    ensures |Flatten(owners, stack)| == Total(stack)
  {
    if stack != [] {
      FlattenSize(owners[..|owners| - 1], stack[..|stack| - 1]);
    }
  }

  lemma {:induction false} DiscardConcat(a: seq<Entry>, b: seq<Entry>, owner: nat)
    ensures Discard(a + b, owner) == Discard(a, owner) + Discard(b, owner)
  {
    if b == [] {
      assert a + b == a;
    } else {
      assert (a + b)[..|a + b| - 1] == a + b[..|b| - 1];
      DiscardConcat(a, b[..|b| - 1], owner);
    }
  }

  lemma {:induction false} DiscardAbsent(entries: seq<Entry>, owner: nat)
    requires NoneOwned(entries, owner)
    ensures Discard(entries, owner) == entries
  {
    if entries != [] {
      DiscardAbsent(entries[..|entries| - 1], owner);
    }
  }

  lemma {:induction false} DiscardTagged(owner: nat, wakes: seq<Wake>)
    ensures Discard(Tag(owner, wakes), owner) == []
  {
    if wakes != [] {
      var front := wakes[..|wakes| - 1];
      DiscardTagged(owner, front);
      TagSnoc(owner, front, wakes[|wakes| - 1]);
      assert wakes == front + [wakes[|wakes| - 1]];
      assert Tag(owner, wakes)[..|front|] == Tag(owner, front);
    }
  }

  lemma {:induction false} TagSnoc(owner: nat, wakes: seq<Wake>, w: Wake)
    ensures Tag(owner, wakes + [w]) == Tag(owner, wakes) + [Entry(owner, w)]
  {
  }

  /** The innermost buffer is the end of the deque. */
  lemma {:induction false} FlattenTop(owners: seq<nat>, front: seq<seq<Wake>>, last: seq<Wake>)
    requires |owners| == |front| + 1
    ensures Flatten(owners, front + [last]) == Flatten(owners[..|front|], front) + Tag(owners[|front|], last)
  {
    assert (front + [last])[..|front|] == front;
  }

  lemma {:induction false} Associated<T>(a: seq<T>, b: seq<T>, c: seq<T>)
    ensures a + (b + c) == a + b + c
  {
  }

  lemma {:induction false} Regrouped<T>(a: seq<T>, b: seq<T>, c: seq<T>, d: seq<T>)
    ensures a + (b + (c + d)) == (a + (b + c)) + d
  {
  }

  /** A wake added to the innermost buffer is one more entry at the end of the deque. */
  lemma {:induction false} StagedEntries(loose: seq<Entry>, owners: seq<nat>, stack: seq<seq<Wake>>, w: Wake)
    requires stack != [] && |owners| == |stack|
    ensures loose + Flatten(owners, stack[..|stack| - 1] + [stack[|stack| - 1] + [w]]) ==
            (loose + Flatten(owners, stack)) + [Entry(owners[|stack| - 1], w)]
  {
    var n := |stack|;
    var front, last := stack[..n - 1], stack[n - 1];
    assert stack == front + [last];
    FlattenTop(owners, front, last);
    FlattenTop(owners, front, last + [w]);
    TagSnoc(owners[n - 1], last, w);
    Regrouped(loose, Flatten(owners[..n - 1], front), Tag(owners[n - 1], last), [Entry(owners[n - 1], w)]);
  }

  lemma {:induction false} StagedLoose(loose: seq<Wake>, w: Wake)
    ensures Tag(NO_TRANSACTION, loose + [w]) + [] == (Tag(NO_TRANSACTION, loose) + []) + [Entry(NO_TRANSACTION, w)]
  {
    TagSnoc(NO_TRANSACTION, loose, w);
  }

  lemma {:induction false} StageRefines(s: State, b: Buffers, w: Wake)
    requires Refines(s, b)
    ensures Refines(Step(s, Stage(w)), BufferStep(b, Stage(w)))
  {
    FlattenSize(s.stack, b.stack);
    assert |Entries(s)| == Held(b);
    if Held(b) != TERMINAL_WAKE_LIMIT {
      if s.stack == [] {
        StagedLoose(b.loose, w);
      } else {
        StagedEntries(Tag(NO_TRANSACTION, b.loose), s.stack, b.stack, w);
      }
    }
  }

  lemma {:induction false} BeginNestedRefines(s: State, b: Buffers)
    requires Refines(s, b)
    ensures Refines(Step(s, BeginNested), BufferStep(b, BeginNested))
  {
    if s.stack != [] {
      var s' := Step(s, BeginNested);
      assert s'.stack[..|s.stack|] == s.stack && (b.stack + [[]])[..|b.stack|] == b.stack;
      assert Tag(s.nextId, []) == [];
    }
  }

  /** What lies below the innermost transactions belongs to none of them. */
  lemma {:induction false} LowerParts(s: State, b: Buffers, k: nat, owner: nat)
    requires Refines(s, b) && k <= |s.stack| && owner != NO_TRANSACTION
    requires forall i | 0 <= i < k :: s.stack[i] != owner
    ensures NoneOwned(Tag(NO_TRANSACTION, b.loose) + Flatten(s.stack[..k], b.stack[..k]), owner)
  {
    FlattenOwners(s.stack[..k], b.stack[..k], owner);
  }

  /** The three parts of the deque under the two innermost transactions. */
  lemma {:induction false} InnerParts(s: State, b: Buffers)
    requires Refines(s, b) && |s.stack| >= 2
    ensures var n := |s.stack|;
            var below := Tag(NO_TRANSACTION, b.loose) + Flatten(s.stack[..n - 2], b.stack[..n - 2]);
            && Entries(s) == below + Tag(s.stack[n - 2], b.stack[n - 2]) + Tag(Top(s), b.stack[n - 1])
            && NoneOwned(below, Top(s))
  {
    var n := |s.stack|;
    assert s.stack[..n - 1][..n - 2] == s.stack[..n - 2] && b.stack[..n - 1][..n - 2] == b.stack[..n - 2];
    assert Flatten(s.stack[..n - 1], b.stack[..n - 1]) ==
           Flatten(s.stack[..n - 2], b.stack[..n - 2]) + Tag(s.stack[n - 2], b.stack[n - 2]);
    LowerParts(s, b, n - 2, Top(s));
  }

  /** Promoting the innermost entries joins the two innermost buffers. */
  lemma {:induction false} PromoteParts(below: seq<Entry>, parent: nat, top: nat, u: seq<Wake>, v: seq<Wake>)
    requires parent != top && NoneOwned(below, top)
    ensures Promote(below + Tag(parent, u) + Tag(top, v), top, parent) == below + Tag(parent, u + v)
  {
    var before := below + Tag(parent, u) + Tag(top, v);
    var after := below + Tag(parent, u + v);
    assert forall i | 0 <= i < |before| :: Promote(before, top, parent)[i] == after[i];
  }

  /** The deque once the two innermost buffers are one, under the outer one's tag. */
  lemma {:induction false} JoinedEntries(loose: seq<Entry>, owners: seq<nat>, stack: seq<seq<Wake>>, joined: seq<Wake>)
    requires |owners| == |stack| >= 2
    ensures loose + Flatten(owners[..|owners| - 1], stack[..|stack| - 2] + [joined]) ==
            loose + Flatten(owners[..|owners| - 2], stack[..|stack| - 2]) + Tag(owners[|owners| - 2], joined)
  {
    var n := |owners|;
    assert owners[..n - 1][..n - 2] == owners[..n - 2];
    FlattenTop(owners[..n - 1], stack[..n - 2], joined);
    Associated(loose, Flatten(owners[..n - 2], stack[..n - 2]), Tag(owners[n - 2], joined));
  }

  lemma {:induction false} ReleaseRefines(s: State, b: Buffers)
    requires Refines(s, b)
    ensures Refines(Step(s, ReleaseNested), BufferStep(b, ReleaseNested))
  {
    if |s.stack| >= 2 {
      var n := |s.stack|;
      var loose := Tag(NO_TRANSACTION, b.loose);
      InnerParts(s, b);
      PromoteParts(loose + Flatten(s.stack[..n - 2], b.stack[..n - 2]), s.stack[n - 2], Top(s), b.stack[n - 2], b.stack[n - 1]);
      JoinedEntries(loose, s.stack, b.stack, b.stack[n - 2] + b.stack[n - 1]);
    }
  }

  /** Discarding the innermost transaction's entries leaves those below. */
  lemma {:induction false} DiscardTop(below: seq<Entry>, top: nat, wakes: seq<Wake>)
    requires NoneOwned(below, top)
    ensures Discard(below + Tag(top, wakes), top) == below
  {
    DiscardConcat(below, Tag(top, wakes), top);
    DiscardAbsent(below, top);
    DiscardTagged(top, wakes);
    assert below + [] == below;
  }

  lemma {:induction false} RollbackRefines(s: State, b: Buffers)
    requires Refines(s, b)
    ensures Refines(Step(s, RollbackNested), BufferStep(b, RollbackNested))
  {
    if |s.stack| >= 2 {
      var n := |s.stack|;
      var loose, inner := Tag(NO_TRANSACTION, b.loose), Flatten(s.stack[..n - 1], b.stack[..n - 1]);
      Associated(loose, inner, Tag(Top(s), b.stack[n - 1]));
      LowerParts(s, b, n - 1, Top(s));
      DiscardTop(loose + inner, Top(s), b.stack[n - 1]);
    }
  }

  lemma {:induction false} WakesOfTags(x: nat, a: seq<Wake>, y: nat, b: seq<Wake>)
    ensures Wakes(Tag(x, a) + Tag(y, b)) == a + b
  {
  }

  /** A root transaction's buffer alone. */
  lemma {:induction false} FlattenRoot(owners: seq<nat>, stack: seq<seq<Wake>>)
    requires |owners| == |stack| == 1
    ensures Flatten(owners, stack) == Tag(owners[0], stack[0])
  {
    assert Flatten(owners[..0], stack[..0]) == [];
  }

  lemma {:induction false} NothingHeld(nextId: nat, offered: seq<Wake>)
    requires NO_TRANSACTION < nextId
    ensures Refines(State([], nextId, None, offered), Buffers([], [], offered))
  {
  }

  lemma {:induction false} CommitRefines(s: State, b: Buffers)
    requires Refines(s, b)
    ensures Refines(Step(s, CommitRoot), BufferStep(b, CommitRoot))
  {
    if |s.stack| == 1 {
      FlattenRoot(s.stack, b.stack);
      WakesOfTags(NO_TRANSACTION, b.loose, s.stack[0], b.stack[0]);
      Associated(s.offered, b.loose, b.stack[0]);
      NothingHeld(s.nextId, s.offered + b.loose + b.stack[0]);
    }
  }

  lemma {:induction false} StepRefines(s: State, b: Buffers, op: Op)
    requires Refines(s, b)
    ensures Refines(Step(s, op), BufferStep(b, op))
  {
    match op
    case Begin =>
      if s.stack == [] {
        assert [s.nextId][..0] == [] && Tag(s.nextId, []) == [];
      }
    case Stage(w) => StageRefines(s, b, w);
    case BeginNested => BeginNestedRefines(s, b);
    case ReleaseNested => ReleaseRefines(s, b);
    case RollbackNested => RollbackRefines(s, b);
    case CommitRoot => CommitRefines(s, b);
    case _ =>
  }

  /** For every sequence of session operations the owner-tagged deque is the stack of buffers laid end
      to end, and offers exactly what that stack offers. */
  lemma {:induction false} DequeRefinesBuffers(ops: seq<Op>)
    ensures Refines(Run(INITIAL, ops), BufferRun(NO_BUFFERS, ops))
  {
    if ops != [] {
      DequeRefinesBuffers(ops[..|ops| - 1]);
      StepRefines(Run(INITIAL, ops[..|ops| - 1]), BufferRun(NO_BUFFERS, ops[..|ops| - 1]), ops[|ops| - 1]);
    }
  }

  // ---------- what a bracketed transaction offers ----------

  /** What happens inside one transaction: wakes staged and savepoints opened and closed, in order. */
  datatype Script = Done | Staged(wake: Wake, rest: Script) | Savepoint(body: Script, released: bool, rest: Script)

  function Ops(script: Script): seq<Op> {
    match script
    case Done => []
    case Staged(w, rest) => [Stage(w)] + Ops(rest)
    case Savepoint(body, released, rest) =>
      [BeginNested] + Ops(body) + [Close(released)] + Ops(rest)
  }

  /** The wakes staged under savepoints that were all released. */
  function Committed(script: Script): seq<Wake> {
    match script
    case Done => []
    case Staged(w, rest) => [w] + Committed(rest)
    case Savepoint(body, released, rest) => (if released then Committed(body) else []) + Committed(rest)
  }

  /** The same, when a wake is dropped because `used` staged wakes already fill the deque. */
  function Admitted(script: Script, used: nat): seq<Wake> {
    match script
    case Done => []
    case Staged(w, rest) =>
      if used == TERMINAL_WAKE_LIMIT then Admitted(rest, used) else [w] + Admitted(rest, used + 1)
    case Savepoint(body, released, rest) =>
      var inner := if released then Admitted(body, used) else [];
      inner + Admitted(rest, used + |inner|)
  }

  /** The most wakes ever staged at once, were there no limit. */
  function Peak(script: Script): nat {
    match script
    case Done => 0
    case Staged(_, rest) => 1 + Peak(rest)
    case Savepoint(body, released, rest) =>
      var after := (if released then |Committed(body)| else 0) + Peak(rest);
      if Peak(body) > after then Peak(body) else after
  }

  predicate Subsequence(a: seq<Wake>, b: seq<Wake>) {
    if a == [] then true
    else if b == [] then false
    else if a[0] == b[0] && Subsequence(a[1..], b[1..]) then true
    else Subsequence(a, b[1..])
  }

  lemma {:induction false} RunConcat(b: Buffers, x: seq<Op>, y: seq<Op>)
    ensures BufferRun(b, x + y) == BufferRun(BufferRun(b, x), y)
  {
    if y == [] {
      assert x + y == x;
    } else {
      assert (x + y)[..|x + y| - 1] == x + y[..|y| - 1];
      RunConcat(b, x, y[..|y| - 1]);
    }
  }

  lemma {:induction false} RunOne(b: Buffers, op: Op, rest: seq<Op>)
    ensures BufferRun(b, [op] + rest) == BufferRun(BufferStep(b, op), rest)
    ensures op.Stage? && b.stack != [] && Held(b) != TERMINAL_WAKE_LIMIT ==>
              BufferStep(b, op) == Extend(b, [op.wake])
  {
    RunConcat(b, [op], rest);
    assert [op][..0] == [];
  }

  lemma {:induction false} TotalSplit(stack: seq<seq<Wake>>)
    requires stack != []
    ensures Total(stack) == Total(stack[..|stack| - 1]) + |stack[|stack| - 1]|
    ensures Total(stack + [[]]) == Total(stack)
  {
    assert (stack + [[]])[..|stack|] == stack;
  }

  function Extend(b: Buffers, wakes: seq<Wake>): Buffers
    requires b.stack != []
  {
    b.(stack := b.stack[..|b.stack| - 1] + [b.stack[|b.stack| - 1] + wakes])
  }

  lemma {:induction false} ExtendTotal(b: Buffers, wakes: seq<Wake>, more: seq<Wake>)
    requires b.stack != []
    ensures Held(Extend(b, wakes)) == Held(b) + |wakes|
    ensures Extend(Extend(b, wakes), more) == Extend(b, wakes + more)
    ensures Extend(b, []) == b
  {
    var n := |b.stack|;
    assert Extend(b, wakes).stack[..n - 1] == b.stack[..n - 1];
    assert (b.stack[n - 1] + wakes) + more == b.stack[n - 1] + (wakes + more);
    assert b.stack[n - 1] + [] == b.stack[n - 1] && b.stack == b.stack[..n - 1] + [b.stack[n - 1]];
  }

  function Close(released: bool): Op {
    if released then ReleaseNested else RollbackNested
  }

  lemma {:induction false} Bracketed(b: Buffers, inner: seq<Op>, close: Op, rest: seq<Op>)
    ensures BufferRun(b, [BeginNested] + inner + [close] + rest) ==
            BufferRun(BufferStep(BufferRun(BufferStep(b, BeginNested), inner), close), rest)
  {
    assert [BeginNested] + inner + [close] + rest == [BeginNested] + (inner + ([close] + rest));
    RunOne(b, BeginNested, inner + ([close] + rest));
    RunConcat(BufferStep(b, BeginNested), inner, [close] + rest);
    RunOne(BufferRun(BufferStep(b, BeginNested), inner), close, rest);
  }

  lemma {:induction false} OpsUnfold(body: Script, released: bool, rest: Script)
    ensures Ops(Savepoint(body, released, rest)) == [BeginNested] + Ops(body) + [Close(released)] + Ops(rest)
  {
  }

  /** Inside a transaction, a script only extends that transaction's buffer, by its admitted wakes. */
  lemma {:induction false} ScriptExtends(b: Buffers, used: nat, script: Script)
    requires b.stack != [] && Held(b) == used <= TERMINAL_WAKE_LIMIT
    ensures BufferRun(b, Ops(script)) == Extend(b, Admitted(script, used))
    ensures used + |Admitted(script, used)| <= TERMINAL_WAKE_LIMIT
    decreases script, 2
  {
    match script
    case Done => ExtendTotal(b, [], []);
    case Staged(w, rest) => StagedExtends(b, used, w, rest);
    case Savepoint(body, released, rest) => SavepointThenRest(b, used, body, released, rest);
  }

  lemma {:induction false} StagedUnfolds(w: Wake, rest: Script, used: nat)
    ensures Ops(Staged(w, rest)) == [Stage(w)] + Ops(rest)
    ensures Admitted(Staged(w, rest), used) ==
            if used == TERMINAL_WAKE_LIMIT then Admitted(rest, used) else [w] + Admitted(rest, used + 1)
  {
  }

  lemma {:induction false} StagedExtends(b: Buffers, used: nat, w: Wake, rest: Script)
    requires b.stack != [] && Held(b) == used <= TERMINAL_WAKE_LIMIT
    ensures BufferRun(b, Ops(Staged(w, rest))) == Extend(b, Admitted(Staged(w, rest), used))
    ensures used + |Admitted(Staged(w, rest), used)| <= TERMINAL_WAKE_LIMIT
    decreases rest, 4
  {
    StagedUnfolds(w, rest, used);
    RunOne(b, Stage(w), Ops(rest));
    if used == TERMINAL_WAKE_LIMIT {
      ScriptExtends(b, used, rest);
    } else {
      ExtendTotal(b, [w], []);
      RestExtends(b, used, [w], rest);
      ExtendTotal(b, [w], Admitted(rest, used + 1));
    }
  }

  lemma {:induction false} SavepointThenRest(b: Buffers, used: nat, body: Script, released: bool, rest: Script)
    requires b.stack != [] && Held(b) == used <= TERMINAL_WAKE_LIMIT
    ensures var script := Savepoint(body, released, rest);
            && BufferRun(b, Ops(script)) == Extend(b, Admitted(script, used))
            && used + |Admitted(script, used)| <= TERMINAL_WAKE_LIMIT
    decreases Savepoint(body, released, rest), 1
  {
    var script := Savepoint(body, released, rest);
    AdmittedUnfolds(body, released, rest, used);
    OpsUnfold(body, released, rest);
    SavepointRun(b, used, body, released, rest, if released then Admitted(body, used) else [],
                 Ops(script), Admitted(script, used));
  }

  lemma {:induction false} SavepointRun(b: Buffers, used: nat, body: Script, released: bool, rest: Script,
                                        inner: seq<Wake>, ops: seq<Op>, admitted: seq<Wake>)
    requires b.stack != [] && Held(b) == used <= TERMINAL_WAKE_LIMIT
    requires inner == if released then Admitted(body, used) else []
    requires ops == [BeginNested] + Ops(body) + [Close(released)] + Ops(rest)
    requires admitted == inner + Admitted(rest, used + |inner|)
    ensures BufferRun(b, ops) == Extend(b, admitted)
    ensures used + |admitted| <= TERMINAL_WAKE_LIMIT
    decreases Savepoint(body, released, rest), 0
  {
    SavepointExtends(b, used, body, released);
    RestExtends(b, used, inner, rest);
    Concluded(b, Ops(body), Close(released), Ops(rest), inner, Admitted(rest, used + |inner|), ops, admitted);
  }

  lemma {:induction false} RestExtends(b: Buffers, used: nat, inner: seq<Wake>, rest: Script)
    requires b.stack != [] && Held(b) == used && used + |inner| <= TERMINAL_WAKE_LIMIT
    ensures Extend(b, inner).stack != []
    ensures BufferRun(Extend(b, inner), Ops(rest)) == Extend(Extend(b, inner), Admitted(rest, used + |inner|))
    ensures used + |inner| + |Admitted(rest, used + |inner|)| <= TERMINAL_WAKE_LIMIT
    decreases rest, 3
  {
    ExtendTotal(b, inner, []);
    ScriptExtends(Extend(b, inner), used + |inner|, rest);
  }

  lemma {:induction false} Concluded(b: Buffers, body: seq<Op>, close: Op, rest: seq<Op>, inner: seq<Wake>, tail: seq<Wake>,
                  ops: seq<Op>, admitted: seq<Wake>)
    requires b.stack != [] && ops == [BeginNested] + body + [close] + rest && admitted == inner + tail
    requires BufferStep(BufferRun(BufferStep(b, BeginNested), body), close) == Extend(b, inner)
    requires Extend(b, inner).stack != [] && BufferRun(Extend(b, inner), rest) == Extend(Extend(b, inner), tail)
    ensures BufferRun(b, ops) == Extend(b, admitted)
  {
    Bracketed(b, body, close, rest);
    ExtendTotal(b, inner, tail);
  }

  lemma {:induction false} AdmittedUnfolds(body: Script, released: bool, rest: Script, used: nat)
    ensures var inner := if released then Admitted(body, used) else [];
            Admitted(Savepoint(body, released, rest), used) == inner + Admitted(rest, used + |inner|)
  {
  }

  lemma {:induction false} SavepointExtends(b: Buffers, used: nat, body: Script, released: bool)
    requires b.stack != [] && Held(b) == used <= TERMINAL_WAKE_LIMIT
    ensures var inner := if released then Admitted(body, used) else [];
            && BufferStep(BufferRun(BufferStep(b, BeginNested), Ops(body)), Close(released)) == Extend(b, inner)
            && used + |inner| <= TERMINAL_WAKE_LIMIT
    decreases body, 3
  {
    TotalSplit(b.stack);
    ScriptExtends(b.(stack := b.stack + [[]]), used, body);
    CloseSavepoint(b, Admitted(body, used), released);
    ExtendTotal(b, [], []);
  }

  lemma {:induction false} CloseSavepoint(b: Buffers, inner: seq<Wake>, released: bool)
    requires b.stack != []
    ensures var within := Extend(b.(stack := b.stack + [[]]), inner);
            BufferStep(within, Close(released)) == if released then Extend(b, inner) else b
  {
    var n := |b.stack|;
    var within := Extend(b.(stack := b.stack + [[]]), inner);
    assert (b.stack + [[]])[..n] == b.stack && [] + inner == inner;
    assert within.stack == b.stack + [inner];
    assert within.stack[..n] == b.stack && within.stack[..n - 1] == b.stack[..n - 1];
  }

  lemma {:induction false} RootRun(b: Buffers, body: seq<Op>, end: Op)
    ensures BufferRun(b, [Begin] + body + [end]) == BufferStep(BufferRun(BufferStep(b, Begin), body), end)
  {
    assert [Begin] + body + [end] == [Begin] + (body + [end]);
    RunOne(b, Begin, body + [end]);
    RunConcat(BufferStep(b, Begin), body, [end]);
    RunOne(BufferRun(BufferStep(b, Begin), body), end, []);
    assert [end] + [] == [end];
  }

  lemma {:induction false} RootEnds(b: Buffers, wakes: seq<Wake>, end: Op)
    requires b.stack == [] && end in {CommitRoot, RollbackRoot, CloseSession}
    ensures BufferStep(Extend(b.(stack := [[]]), wakes), end) ==
            Buffers([], [], b.offered + if end.CommitRoot? then b.loose + wakes else [])
  {
    assert [[]][..0] + [[] + wakes] == [wakes] by { EmptyFirst(wakes); }
    assert b.offered + b.loose + wakes == b.offered + (b.loose + wakes);
    assert b.offered + [] == b.offered;
  }

  lemma {:induction false} RootBuffers(b: Buffers, script: Script, end: Op)
    requires b.stack == [] && end in {CommitRoot, RollbackRoot, CloseSession} && |b.loose| <= TERMINAL_WAKE_LIMIT
    ensures BufferRun(b, [Begin] + Ops(script) + [end]) ==
            Buffers([], [], b.offered + if end.CommitRoot? then b.loose + Admitted(script, |b.loose|) else [])
  {
    var b1 := b.(stack := [[]]);
    TotalOf([], []);
    assert [] + [[]] == b1.stack;
    ScriptExtends(b1, |b.loose|, script);
    RootRun(b, Ops(script), end);
    RootEnds(b, Admitted(script, |b.loose|), end);
  }

  lemma {:induction false} HeldWithinLimit(ops: seq<Op>)
    ensures Held(BufferRun(NO_BUFFERS, ops)) <= TERMINAL_WAKE_LIMIT
  {
    if ops != [] {
      HeldWithinLimit(ops[..|ops| - 1]);
      HeldStep(BufferRun(NO_BUFFERS, ops[..|ops| - 1]), ops[|ops| - 1]);
    }
  }

  lemma {:induction false} HeldStep(b: Buffers, op: Op)
    requires Held(b) <= TERMINAL_WAKE_LIMIT
    ensures Held(BufferStep(b, op)) <= TERMINAL_WAKE_LIMIT
  {
    match op
    case Begin => TotalOf([], []);
    case BeginNested => TotalOf(b.stack, []);
    case Stage(w) => if b.stack != [] { StagedTotal(b.stack, w); }
    case ReleaseNested => if |b.stack| >= 2 { ReleasedTotal(b.stack); }
    case _ =>
  }

  lemma {:induction false} StagedTotal(stack: seq<seq<Wake>>, w: Wake)
    requires stack != []
    ensures Total(stack[..|stack| - 1] + [stack[|stack| - 1] + [w]]) == Total(stack) + 1
  {
    TotalOf(stack[..|stack| - 1], stack[|stack| - 1] + [w]);
  }

  lemma {:induction false} ReleasedTotal(stack: seq<seq<Wake>>)
    requires |stack| >= 2
    ensures Total(stack[..|stack| - 2] + [stack[|stack| - 2] + stack[|stack| - 1]]) == Total(stack)
  {
    var n := |stack|;
    TotalOf(stack[..n - 2], stack[n - 2] + stack[n - 1]);
    assert stack[..n - 1][..n - 2] == stack[..n - 2] && stack[..n - 1][n - 2] == stack[n - 2];
  }

  lemma {:induction false} TotalOf(stack: seq<seq<Wake>>, last: seq<Wake>)
    ensures Total(stack + [last]) == Total(stack) + |last|
  {
    assert (stack + [last])[..|stack|] == stack;
  }

  /** A whole root transaction offers exactly its admitted wakes when it commits, in staging order and
      after any staged before it began, and nothing when it is rolled back or its session closed; either
      way nothing stays staged. */
  lemma {:induction false} RootOffers(before: seq<Op>, script: Script, end: Op)
    requires Run(INITIAL, before).stack == [] && end in {CommitRoot, RollbackRoot, CloseSession}
    ensures var done := Run(INITIAL, before + ([Begin] + Ops(script) + [end]));
            var earlier := Entries(Run(INITIAL, before));
            && done.offered == Run(INITIAL, before).offered
                             + (if end.CommitRoot? then Wakes(earlier) + Admitted(script, |earlier|) else [])
            && done.stack == [] && Entries(done) == []
  {
    var root := [Begin] + Ops(script) + [end];
    var b := BufferRun(NO_BUFFERS, before);
    DequeRefinesBuffers(before);
    DequeRefinesBuffers(before + root);
    HeldWithinLimit(before);
    RunConcat(NO_BUFFERS, before, root);
    RootBuffers(b, script, end);
    assert Wakes(Entries(Run(INITIAL, before))) == b.loose by {
      assert Flatten(Run(INITIAL, before).stack, b.stack) == [];
      assert Entries(Run(INITIAL, before)) == Tag(NO_TRANSACTION, b.loose);
    }
    assert Entries(Run(INITIAL, before + root)) == [] by {
      assert Flatten(Run(INITIAL, before + root).stack, []) == [] && Tag(NO_TRANSACTION, []) == [];
    }
  }

  /** While the limit is never reached, the admitted wakes are all those under released savepoints. */
  lemma {:induction false} AdmittedIsCommitted(script: Script, used: nat)
    requires used + Peak(script) <= TERMINAL_WAKE_LIMIT
    ensures Admitted(script, used) == Committed(script)
    decreases script
  {
    match script
    case Done =>
    case Staged(w, rest) => AdmittedIsCommitted(rest, used + 1);
    case Savepoint(body, released, rest) =>
      AdmittedIsCommitted(body, used);
      AdmittedIsCommitted(rest, used + if released then |Committed(body)| else 0);
  }

  lemma {:induction false} SubsequenceConcat(a: seq<Wake>, b: seq<Wake>, c: seq<Wake>, d: seq<Wake>)
    requires Subsequence(a, b) && Subsequence(c, d)
    ensures Subsequence(a + c, b + d)
    decreases |b|
  {
    if b == [] {
      assert a + c == c && b + d == d;
    } else {
      assert (b + d)[1..] == b[1..] + d;
      if a != [] && a[0] == b[0] && Subsequence(a[1..], b[1..]) {
        SubsequenceConcat(a[1..], b[1..], c, d);
        assert (a + c)[1..] == a[1..] + c;
      } else {
        SubsequenceConcat(a, b[1..], c, d);
        SkipFirst(a + c, b + d);
      }
    }
  }

  lemma {:induction false} SkipFirst(a: seq<Wake>, b: seq<Wake>)
    requires b != [] && Subsequence(a, b[1..])
    ensures Subsequence(a, b)
  {
  }

  lemma {:induction false} SameFirst(w: Wake, a: seq<Wake>, b: seq<Wake>)
    requires Subsequence(a, b)
    ensures Subsequence([w] + a, [w] + b)
  {
    assert ([w] + a)[1..] == a && ([w] + b)[1..] == b;
  }

  lemma {:induction false} EmptyFirst(a: seq<Wake>)
    ensures [] + a == a
  {
  }

  /** Otherwise they are a subsequence of those. */
  lemma {:induction false} AdmittedIsSubsequence(script: Script, used: nat)
    ensures Subsequence(Admitted(script, used), Committed(script))
    decreases script
  {
    match script
    case Done =>
    case Staged(w, rest) =>
      if used == TERMINAL_WAKE_LIMIT {
        AdmittedIsSubsequence(rest, used);
        SkipFirst(Admitted(rest, used), [w] + Committed(rest));
      } else {
        AdmittedIsSubsequence(rest, used + 1);
        SameFirst(w, Admitted(rest, used + 1), Committed(rest));
      }
    case Savepoint(body, released, rest) =>
      if released {
        var inner := Admitted(body, used);
        AdmittedIsSubsequence(body, used);
        AdmittedIsSubsequence(rest, used + |inner|);
        SubsequenceConcat(inner, Committed(body), Admitted(rest, used + |inner|), Committed(rest));
      } else {
        AdmittedIsSubsequence(rest, used);
        EmptyFirst(Admitted(rest, used));
        EmptyFirst(Committed(rest));
      }
  }
}
