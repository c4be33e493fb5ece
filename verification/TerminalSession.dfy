/** The session listeners and the bounded queue behind them, as the objects that change. */
module TerminalSession {
  import opened Common
  import opened TerminalWakes

  class TerminalWakePublisher {
    var pending: seq<Wake>
    var failures: nat

    constructor ()
      ensures pending == [] && failures == 0
    {
      pending, failures := [], 0;
    }

    method Offer(wake: Wake)
      modifies this
      ensures pending == Filled(old(pending), [wake])
      ensures failures == old(failures) + |Refused(old(pending), [wake])|
    {
      if |pending| < TERMINAL_WAKE_LIMIT {
        pending := pending + [wake];
      } else {
        failures := failures + 1;
      }
    }

    /** One turn of the serving task: the wake it takes leaves the queue whether or not publishing works. */
    method Serve(published: bool) returns (wake: Option<Wake>)
      modifies this
      ensures old(pending) == [] ==> wake.None? && pending == [] && failures == old(failures)
      ensures old(pending) != [] ==>
                wake == Some(old(pending)[0]) && pending == old(pending)[1..] &&
                failures == old(failures) + if published then 0 else 1
    {
      if pending == [] { return None; }
      wake := Some(pending[0]);
      pending := pending[1..];
      if !published { failures := failures + 1; }
    }
  }

  /** A queue after `wakes` are offered in turn: it keeps as many as it has room for. */
  function Filled(queue: seq<Wake>, wakes: seq<Wake>): seq<Wake> {
    if |queue| >= TERMINAL_WAKE_LIMIT then queue
    else if |queue| + |wakes| <= TERMINAL_WAKE_LIMIT then queue + wakes
    else queue + wakes[..TERMINAL_WAKE_LIMIT - |queue|]
  }

  function Refused(queue: seq<Wake>, wakes: seq<Wake>): seq<Wake> {
    if |queue| >= TERMINAL_WAKE_LIMIT then wakes
    else if |queue| + |wakes| <= TERMINAL_WAKE_LIMIT then []
    else wakes[TERMINAL_WAKE_LIMIT - |queue|..]
  }

  lemma {:induction false} FilledOneMore(queue: seq<Wake>, wakes: seq<Wake>, i: nat)
    requires i < |wakes|
    ensures Filled(Filled(queue, wakes[..i]), [wakes[i]]) == Filled(queue, wakes[..i + 1])
    ensures |Refused(queue, wakes[..i])| + |Refused(Filled(queue, wakes[..i]), [wakes[i]])| ==
            |Refused(queue, wakes[..i + 1])|
  {
    assert wakes[..i + 1] == wakes[..i] + [wakes[i]];
    var room := TERMINAL_WAKE_LIMIT - |queue|;
    if 0 < room <= i {
      assert wakes[..i][..room] == wakes[..i + 1][..room];
    }
  }

  /** What is dropped at the queue is always the latest, and only when the queue is left full; a drained queue
      takes a whole commit. */
  lemma {:induction false} FilledKeepsOrder(queue: seq<Wake>, wakes: seq<Wake>)
    ensures Filled(queue, wakes) + Refused(queue, wakes) == queue + wakes
    ensures |queue| <= TERMINAL_WAKE_LIMIT ==> |Filled(queue, wakes)| <= TERMINAL_WAKE_LIMIT
    ensures |queue| <= TERMINAL_WAKE_LIMIT && Refused(queue, wakes) != [] ==> |Filled(queue, wakes)| == TERMINAL_WAKE_LIMIT
    ensures queue == [] && |wakes| <= TERMINAL_WAKE_LIMIT ==> Refused(queue, wakes) == []
  {
    var room := TERMINAL_WAKE_LIMIT - |queue|;
    if 0 < room < |wakes| {
      assert wakes == wakes[..room] + wakes[room..];
    }
  }

  /** The stage limit: no run of a session ever holds more staged wakes than the queue can take. */
  lemma {:induction false} StagedNeverExceedsQueue(ops: seq<Op>)
    ensures |Entries(Run(INITIAL, ops))| <= TERMINAL_WAKE_LIMIT
  {
    if ops != [] {
      var front := Run(INITIAL, ops[..|ops| - 1]);
      StagedNeverExceedsQueue(ops[..|ops| - 1]);
      if ops[|ops| - 1].RollbackNested? && |front.stack| >= 2 {
        DiscardShrinks(Entries(front), Top(front));
      }
    }
  }

  lemma {:induction false} DiscardShrinks(entries: seq<Entry>, owner: nat)
    ensures |Discard(entries, owner)| <= |entries|
  {
    if entries != [] {
      DiscardShrinks(entries[..|entries| - 1], owner);
    }
  }

  /** A session with its open transactions, innermost last, and the info entry holding the wakes. */
  class Session {
    const sink: TerminalWakePublisher?
    var stack: seq<nat>
    var nextId: nat
    var pending: Option<seq<Entry>>

    constructor (sink: TerminalWakePublisher?)
      ensures this.sink == sink && Abs([]) == INITIAL
    {
      this.sink := sink;
      stack, nextId, pending := [], 1, None;
    }

    function Abs(offered: seq<Wake>): State
      reads this
    {
      State(stack, nextId, pending, offered)
    }

    method Stage(wake: Wake)
      modifies this`pending
      ensures pending == if sink == null then old(pending) else Step(old(Abs([])), Op.Stage(wake)).pending
    {
      if sink == null { return; }
      var entries := match pending { case Some(staged) => staged case None => [] };
      pending := Some(entries);
      if |entries| == TERMINAL_WAKE_LIMIT { return; }
      var owner := if stack == [] then NO_TRANSACTION else stack[|stack| - 1];
      pending := Some(entries + [Entry(owner, wake)]);
    }

    method BeginNested()
      requires stack != []
      modifies this`stack, this`nextId
      ensures Abs([]) == Step(old(Abs([])), Op.BeginNested)
    {
      stack, nextId := stack + [nextId], nextId + 1;
    }

    method Begin()
      requires stack == []
      modifies this`stack, this`nextId
      ensures Abs([]) == Step(old(Abs([])), Op.Begin)
    {
      stack, nextId := [nextId], nextId + 1;
    }

    /** The commit listener, called while the committed transaction is still the innermost one. */
    method Committed()
      requires stack != []
      modifies this`pending, sink
      ensures |stack| >= 2 ==>
                pending == Step(old(Abs([])), ReleaseNested).pending &&
                (sink != null ==> sink.pending == old(sink.pending) && sink.failures == old(sink.failures))
      ensures |stack| == 1 ==>
                pending == None &&
                (sink != null ==>
                  && sink.pending == Filled(old(sink.pending), Wakes(old(Entries(Abs([])))))
                  && sink.failures == old(sink.failures) + |Refused(old(sink.pending), Wakes(old(Entries(Abs([])))))|)
    {
      if |stack| >= 2 {
        var transaction, parent := stack[|stack| - 1], stack[|stack| - 2];
        if pending.Some? {
          var promoted, i := [], 0;
          while i < |pending.value|
            invariant 0 <= i <= |pending.value|
            invariant |promoted| == i && promoted == Promote(pending.value, transaction, parent)[..i]
          {
            var e := pending.value[i];
            promoted := promoted + [if e.owner == transaction then Entry(parent, e.wake) else e];
            i := i + 1;
          }
          assert promoted == Promote(pending.value, transaction, parent);
          pending := Some(promoted);
        }
        return;
      }
      var staged := match pending { case Some(entries) => entries case None => [] };
      pending := None;
      if sink != null {
        var i := 0;
        while i < |staged|
          invariant 0 <= i <= |staged| && pending == None
          invariant sink.pending == Filled(old(sink.pending), Wakes(staged)[..i])
          invariant sink.failures == old(sink.failures) + |Refused(old(sink.pending), Wakes(staged)[..i])|
        {
          FilledOneMore(old(sink.pending), Wakes(staged), i);
          sink.Offer(staged[i].wake);
          i := i + 1;
        }
        assert Wakes(staged)[..|staged|] == Wakes(staged);
      }
    }

    /** The rollback listener, likewise. */
    method RolledBack()
      requires stack != []
      modifies this`pending
      ensures pending == Step(old(Abs([])), if |stack| >= 2 then RollbackNested else RollbackRoot).pending
    {
      if |stack| < 2 {
        pending := None;
      } else if pending.Some? {
        var transaction := stack[|stack| - 1];
        var kept, i := [], 0;
        while i < |pending.value|
          invariant 0 <= i <= |pending.value|
          invariant kept == Discard(pending.value[..i], transaction)
        {
          assert pending.value[..i + 1][..i] == pending.value[..i];
          if pending.value[i].owner != transaction {
            kept := kept + [pending.value[i]];
          }
          i := i + 1;
        }
        assert pending.value[..|pending.value|] == pending.value;
        pending := Some(kept);
      }
    }

    /** The end-of-transaction listener and the pop of the transaction it is called for. */
    method TransactionEnded()
      requires stack != []
      modifies this`stack, this`pending
      ensures stack == old(stack)[..|old(stack)| - 1]
      ensures pending == if |old(stack)| == 1 then None else old(pending)
    {
      if |stack| == 1 { pending := None; }
      stack := stack[..|stack| - 1];
    }

    method Commit(offered: seq<Wake>)
      requires stack != []
      modifies this`stack, this`pending, sink
      ensures |old(stack)| >= 2 ==>
                Abs(offered) == Step(old(Abs(offered)), ReleaseNested) &&
                (sink != null ==> sink.pending == old(sink.pending) && sink.failures == old(sink.failures))
      ensures |old(stack)| == 1 ==>
                var done := Step(old(Abs(offered)), CommitRoot);
                && Abs(done.offered) == done
                && (sink != null ==>
                     && sink.pending == Filled(old(sink.pending), done.offered[|offered|..])
                     && sink.failures == old(sink.failures) + |Refused(old(sink.pending), done.offered[|offered|..])|)
    {
      Committed();
      TransactionEnded();
    }

    method Rollback()
      requires stack != []
      modifies this`stack, this`pending
      ensures Abs([]) == Step(old(Abs([])), if |old(stack)| >= 2 then RollbackNested else RollbackRoot)
    {
      RolledBack();
      TransactionEnded();
    }

    /** Closing a session ends its transactions, innermost first, without the rollback listener. */
    method Close()
      modifies this`stack, this`pending
      ensures old(stack) != [] ==> Abs([]) == Step(old(Abs([])), CloseSession)
      ensures old(stack) == [] ==> Abs([]) == old(Abs([]))
    {
      while stack != []
        invariant stack == [] && old(stack) != [] ==> pending == None
        invariant stack == [] && old(stack) == [] ==> pending == old(pending)
        decreases |stack|
      {
        TransactionEnded();
      }
    }
  }
}
