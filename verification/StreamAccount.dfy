/** The stream, on every run, owns and tells exactly what its deliveries say. */
module StreamAccount {
  import opened Common
  import opened OrderBooks
  import opened MarketStream
  import opened StreamDeliveries

  // ---------- the account ----------

  /** The owned depth holds exactly these books. */
  ghost predicate OwnsToken(g: Generation, b: Books, depth: map<Token, Depth>, t: Token) {
    && (t in depth <==> t in b.based)
    && (t in depth ==>
          && t in g.index && t in g.subscribed && ProperBook(depth[t])
          && forall side, price :: depth[t].SizeAt(side, price) == b.size(t, side, price))
  }

  ghost predicate Owns(g: Generation, b: Books, depth: map<Token, Depth>) {
    depth.Keys <= g.index.Keys && forall t :: OwnsToken(g, b, depth, t)
  }

  // ---------- books ----------

  lemma {:induction false} ProperIsValid(book: Depth)
    ensures BookIssue(book).None? <==> ProperBook(book)
    ensures BookIssue(book).Some? ==> BookIssue(book).value == if ProperLevels(book) then CrossedBook else InvalidBookLevel
  {
    if ProperLevels(book) {
      forall price | price in book.bids ensures 0.0 < price <= 1.0 && 0.0 < book.bids[price] {
        assert price in book.Levels(Buy);
      }
      forall price | price in book.asks ensures 0.0 < price <= 1.0 && 0.0 < book.asks[price] {
        assert price in book.Levels(Sell);
      }
    }
  }

  ghost predicate NoZeros(book: Depth) {
    forall side, price | price in book.Levels(side) :: book.Levels(side)[price] != 0.0
  }

  lemma {:induction false} ProperBySizes(book: Depth, size: (Side, real) -> real)
    requires NoZeros(book) && forall side, price :: size(side, price) == book.SizeAt(side, price)
    ensures ProperBook(book) <==> ProperSizes(size)
    ensures ProperLevels(book) <==> ProperLevelSizes(size)
  {
    forall side, price ensures size(side, price) != 0.0 <==> price in book.Levels(side) {
      assert size(side, price) == book.SizeAt(side, price);
    }
    forall price ensures (price in book.bids <==> size(Buy, price) != 0.0) && (price in book.asks <==> size(Sell, price) != 0.0) {
      assert book.Levels(Buy) == book.bids && book.Levels(Sell) == book.asks;
    }
  }

  lemma {:induction false} ProperHasNoZeros(book: Depth)
    requires ProperBook(book)
    ensures NoZeros(book)
  {
  }

  // ---------- changes ----------

  lemma {:induction false} WrittenIsLast(changes: seq<Change>, t: Token, side: Side, price: real, was: real)
    ensures Written(changes, t, side, price, was) ==
            if LastWrite(changes, t, side, price).Some? then LastWrite(changes, t, side, price).value else was
  {
    if changes != [] {
      WrittenIsLast(changes[..|changes| - 1], t, side, price, was);
    }
  }

  lemma {:induction false} UsableWritten(g: Generation, depth: map<Token, Depth>, changes: seq<Change>, t: Token, side: Side, price: real,
                                         was: real)
    requires t in g.subscribed && t in depth
    ensures Written(Usable(g, depth, changes), t, side, price, was) == Written(changes, t, side, price, was)
  {
    if changes != [] {
      var front, c := changes[..|changes| - 1], changes[|changes| - 1];
      UsableWritten(g, depth, front, t, side, price, was);
      if c.token in g.subscribed && c.token in depth {
        WrittenSnoc(Usable(g, depth, front), c, t, side, price, was);
      }
    }
  }

  lemma {:induction false} WrittenSnoc(changes: seq<Change>, c: Change, t: Token, side: Side, price: real, was: real)
    ensures Written(changes + [c], t, side, price, was) ==
            if c.token == t && c.side == side && c.price == price then c.size else Written(changes, t, side, price, was)
  {
    assert (changes + [c])[..|changes|] == changes;
  }

  lemma {:induction false} UsableIsKept(g: Generation, depth: map<Token, Depth>, changes: seq<Change>, tokens: iset<Token>)
    requires forall t :: t in tokens <==> t in g.subscribed && t in depth
    ensures Usable(g, depth, changes) == Kept(changes, tokens)
  {
    if changes != [] {
      UsableIsKept(g, depth, changes[..|changes| - 1], tokens);
    }
  }

  lemma {:induction false} EditedHasNoZeros(book: Depth, c: Change)
    requires NoZeros(book)
    ensures NoZeros(ApplyChange(book, c))
  {
    var edited := ApplyChange(book, c);
    forall side, price | price in edited.Levels(side) ensures edited.Levels(side)[price] != 0.0 {
      if side != c.side {
        assert edited.Levels(side) == book.Levels(side);
      }
    }
  }

  lemma {:induction false} CandidateHasNoZeros(depth: map<Token, Depth>, changes: seq<Change>, t: Token)
    requires forall c | c in changes :: c.token in depth
    requires t in Candidates(depth, changes) && NoZeros(depth[t])
    ensures NoZeros(Candidates(depth, changes)[t])
  {
    var front, c := changes[..|changes| - 1], changes[|changes| - 1];
    var earlier := Candidates(depth, front);
    if c.token == t {
      if t in earlier {
        CandidateHasNoZeros(depth, front, t);
      }
      EditedHasNoZeros(if t in earlier then earlier[t] else depth[t], c);
    } else {
      CandidateHasNoZeros(depth, front, t);
    }
  }

  /** The edited copy of one book, in sizes. */
  lemma {:induction false} CandidateSizes(g: Generation, b: Books, m: Message, depth: map<Token, Depth>, usable: seq<Change>, t: Token)
    requires Owns(g, b, depth) && m.PriceChange? && m.changes.Good?
    requires usable == Usable(g, depth, m.changes.value) && t in Candidates(depth, usable)
    ensures t in g.subscribed && t in depth
    ensures forall side, price ::
              Candidates(depth, usable)[t].SizeAt(side, price) ==
              Written(m.changes.value, t, side, price, b.size(t, side, price))
    ensures NoZeros(Candidates(depth, usable)[t])
  {
    assert t in set c | c in usable :: c.token;
    assert OwnsToken(g, b, depth, t);
    ProperHasNoZeros(depth[t]);
    CandidateHasNoZeros(depth, usable, t);
    forall side, price
      ensures Candidates(depth, usable)[t].SizeAt(side, price) ==
              Written(m.changes.value, t, side, price, b.size(t, side, price))
    {
      CandidateLevels(depth, usable, t, side, price);
      WrittenIsLast(usable, t, side, price, depth[t].SizeAt(side, price));
      UsableWritten(g, depth, m.changes.value, t, side, price, depth[t].SizeAt(side, price));
    }
  }

  lemma {:induction false} ChangedIsCandidate(g: Generation, b: Books, m: Message, depth: map<Token, Depth>, usable: seq<Change>, t: Token)
    requires Owns(g, b, depth) && m.PriceChange? && m.changes.Good? && Target(g, m).Some?
    requires usable == Usable(g, depth, m.changes.value)
    ensures ChangesBook(g, b, m, t) <==> t in Candidates(depth, usable)
  {
    assert OwnsToken(g, b, depth, t);
    if ChangesBook(g, b, m, t) {
      var c :| c in m.changes.value && c.token == t;
      assert c in usable;
    }
    if t in Candidates(depth, usable) {
      var c :| c in usable && c.token == t;
      assert c in m.changes.value;
    }
  }

  /** The fault of a book, told by its sizes. */
  lemma {:induction false} IssueBySizes(book: Depth, size: (Side, real) -> real)
    requires NoZeros(book) && forall side, price :: size(side, price) == book.SizeAt(side, price)
    ensures BookIssue(book).None? <==> ProperSizes(size)
    ensures BookIssue(book).Some? ==> ReasonFor(BookIssue(book).value) == Some(FaultIn(size))
  {
    ProperIsValid(book);
    ProperBySizes(book, size);
  }

  lemma {:induction false} SpoiledBook(g: Generation, b: Books, m: Message, depth: map<Token, Depth>, usable: seq<Change>, t: Token)
    requires Owns(g, b, depth) && m.PriceChange? && m.changes.Good?
    requires usable == Usable(g, depth, m.changes.value) && t in Candidates(depth, usable)
    ensures BookIssue(Candidates(depth, usable)[t]).None? <==> ProperSizes(SizesAfter(b, m.changes.value, t))
    ensures BookIssue(Candidates(depth, usable)[t]).Some? ==>
            ReasonFor(BookIssue(Candidates(depth, usable)[t]).value) == Some(FaultIn(SizesAfter(b, m.changes.value, t)))
  {
    CandidateSizes(g, b, m, depth, usable, t);
    IssueBySizes(Candidates(depth, usable)[t], SizesAfter(b, m.changes.value, t));
  }

  lemma {:induction false} ForeignChange(g: Generation, b: Books, m: Message, depth: map<Token, Depth>, usable: seq<Change>, condition: Condition, atMs: nat)
    requires Owns(g, b, depth) && m.PriceChange? && m.changes.Good?
    requires Target(g, m).Some? && Target(g, m).value.condition == condition
    requires usable == Usable(g, depth, m.changes.value)
    ensures ChangeFault(g.index, depth, usable, condition).Some? <==> Foreign(g, b, m)
  {
    if ChangeFault(g.index, depth, usable, condition).Some? {
      var c :| c in usable && !(MarketFor(g.index, c.token, condition).Some? && c.token in depth);
      ChangedIsCandidate(g, b, m, depth, usable, c.token);
      assert ChangesBook(g, b, m, c.token);
    }
    if Foreign(g, b, m) {
      var t :| ChangesBook(g, b, m, t) && (t !in g.index || g.index[t].condition != condition);
      ChangedIsCandidate(g, b, m, depth, usable, t);
      var c :| c in usable && c.token == t;
    }
  }

  lemma {:induction false} SpoiledIsFaulty(g: Generation, b: Books, m: Message, depth: map<Token, Depth>, usable: seq<Change>, t: Token)
    requires Owns(g, b, depth) && m.PriceChange? && m.changes.Good? && Target(g, m).Some?
    requires usable == Usable(g, depth, m.changes.value)
    ensures SpoilsBook(g, b, m, t) <==> t in Touched(usable) && BookIssue(Candidates(depth, usable)[t]).Some?
    ensures SpoilsBook(g, b, m, t) ==>
            ReasonFor(BookIssue(Candidates(depth, usable)[t]).value) == Some(FaultIn(SizesAfter(b, m.changes.value, t)))
  {
    ChangedIsCandidate(g, b, m, depth, usable, t);
    if t in Candidates(depth, usable) {
      SpoiledBook(g, b, m, depth, usable, t);
    }
  }

  lemma {:induction false} SpoilingChange(g: Generation, b: Books, m: Message, depth: map<Token, Depth>, usable: seq<Change>)
    requires Owns(g, b, depth) && m.PriceChange? && m.changes.Good? && Target(g, m).Some?
    requires usable == Usable(g, depth, m.changes.value)
    ensures BookFault(Candidates(depth, usable), Touched(usable)).Some? <==> Spoils(g, b, m)
  {
    var books, touched := Candidates(depth, usable), Touched(usable);
    if BookFault(books, touched).Some? {
      var t :| t in touched && BookIssue(books[t]).Some?;
      SpoiledIsFaulty(g, b, m, depth, usable, t);
    }
    if Spoils(g, b, m) {
      var t :| SpoilsBook(g, b, m, t);
      SpoiledIsFaulty(g, b, m, depth, usable, t);
      assert t in touched;
    }
  }

  /** The fault reported is that of the first faulty book. */
  lemma {:induction false} FirstFault(books: map<Token, Depth>, tokens: seq<Token>) returns (k: nat)
    requires (forall t | t in tokens :: t in books) && BookFault(books, tokens).Some?
    ensures k < |tokens| && BookFault(books, tokens) == BookIssue(books[tokens[k]])
    ensures forall j | 0 <= j < k :: BookIssue(books[tokens[j]]).None?
  {
    var front := tokens[..|tokens| - 1];
    if BookFault(books, front).Some? {
      k := FirstFault(books, front);
    } else {
      k := |tokens| - 1;
      forall j | 0 <= j < k ensures BookIssue(books[tokens[j]]).None? {
        assert front[j] in front;
      }
    }
  }

  /** It is the first of the books a price change would spoil. */
  lemma {:induction false} FaultIsFirstSpoiled(g: Generation, b: Books, m: Message, depth: map<Token, Depth>, usable: seq<Change>)
    requires Owns(g, b, depth) && m.PriceChange? && m.changes.Good? && Target(g, m).Some?
    requires usable == Usable(g, depth, m.changes.value)
    requires BookFault(Candidates(depth, usable), Touched(usable)).Some?
    ensures exists t :: FirstSpoiled(g, b, m, t) &&
              ReasonFor(BookFault(Candidates(depth, usable), Touched(usable)).value) == Some(FaultIn(SizesAfter(b, m.changes.value, t)))
  {
    var books, touched := Candidates(depth, usable), Touched(usable);
    var k := FirstFault(books, touched);
    SpoiledIsFaulty(g, b, m, depth, usable, touched[k]);
    forall u | u != touched[k] && SpoilsBook(g, b, m, u) ensures ChangedBefore(usable, touched[k], u) {
      SpoiledIsFaulty(g, b, m, depth, usable, u);
      SpoiledLater(books, usable, k, u);
    }
    UsableIsTold(g, b, depth, m.changes.value);
    assert FirstSpoiled(g, b, m, touched[k]);
  }

  lemma {:induction false} SpoiledLater(books: map<Token, Depth>, usable: seq<Change>, k: nat, u: Token)
    requires (forall t | t in Touched(usable) :: t in books) && k < |Touched(usable)|
    requires forall j | 0 <= j < k :: BookIssue(books[Touched(usable)[j]]).None?
    requires u in Touched(usable) && BookIssue(books[u]).Some? && u != Touched(usable)[k]
    ensures ChangedBefore(usable, Touched(usable)[k], u)
  {
    var touched := Touched(usable);
    TouchedInOrder(usable);
    var j :| 0 <= j < |touched| && touched[j] == u;
    assert k < j;
  }

  lemma {:induction false} ChangeFaultIsForeign(index: map<Token, Market>, depth: map<Token, Depth>, changes: seq<Change>, condition: Condition)
    requires forall c | c in changes :: c.token in depth
    ensures ChangeFault(index, depth, changes, condition) in {None, Some(BookIdentityMismatch)}
  {
    if changes != [] {
      ChangeFaultIsForeign(index, depth, changes[..|changes| - 1], condition);
      assert changes[|changes| - 1] in changes;
    }
  }

  lemma {:induction false} DeltaFaults(index: map<Token, Market>, depth: map<Token, Depth>, usable: seq<Change>, condition: Condition, atMs: nat)
    requires forall c | c in usable :: c.token in depth
    ensures var outcome := DeltaOutcome(index, depth, usable, condition, atMs);
            if ChangeFault(index, depth, usable, condition).Some? then outcome == Failure(BookIdentityMismatch)
            else if BookFault(Candidates(depth, usable), Touched(usable)).Some?
            then outcome == Failure(BookFault(Candidates(depth, usable), Touched(usable)).value)
            else outcome.Success?
  {
    ChangeFaultIsForeign(index, depth, usable, condition);
  }

  lemma {:induction false} RefusedChange(g: Generation, b: Books, m: Message)
    requires m.PriceChange? && m.changes.Good? && Target(g, m).Some?
    ensures Refused(g, b, m) <==> Foreign(g, b, m) || Spoils(g, b, m)
  {
  }

  lemma {:induction false} ChangeReason(g: Generation, b: Books, m: Message, issue: Issue)
    requires m.PriceChange? && m.changes.Good? && Target(g, m).Some?
    requires if Foreign(g, b, m) then issue == BookIdentityMismatch
             else exists t :: FirstSpoiled(g, b, m, t) && ReasonFor(issue) == Some(FaultIn(SizesAfter(b, m.changes.value, t)))
    ensures ReasonFor(issue).Some? && Reason(g, b, m, ReasonFor(issue).value)
  {
  }

  /** What a price change comes to, in the terms of the deliveries. */
  lemma {:induction false} ChangeOutcome(g: Generation, b: Books, m: Message, depth: map<Token, Depth>, usable: seq<Change>,
                                         condition: Condition, atMs: nat)
    returns (outcome: Result<seq<Snapshot>, Issue>)
    requires Owns(g, b, depth) && m.PriceChange? && m.changes.Good?
    requires Target(g, m).Some? && Target(g, m).value.condition == condition
    requires usable == Usable(g, depth, m.changes.value)
    ensures outcome == DeltaOutcome(g.index, depth, usable, condition, atMs)
    ensures if Foreign(g, b, m) then outcome == Failure(BookIdentityMismatch)
            else if Spoils(g, b, m) then
              outcome.Failure? &&
              exists t :: FirstSpoiled(g, b, m, t) && ReasonFor(outcome.error) == Some(FaultIn(SizesAfter(b, m.changes.value, t)))
            else outcome.Success?
  {
    outcome := DeltaOutcome(g.index, depth, usable, condition, atMs);
    ForeignChange(g, b, m, depth, usable, condition, atMs);
    SpoilingChange(g, b, m, depth, usable);
    DeltaFaults(g.index, depth, usable, condition, atMs);
    if !Foreign(g, b, m) && Spoils(g, b, m) {
      FaultIsFirstSpoiled(g, b, m, depth, usable);
    }
  }

  lemma {:induction false} TouchedInOrder(changes: seq<Change>)
    ensures FirstChanged(changes, Touched(changes))
  {
    if changes != [] {
      var front, c := changes[..|changes| - 1], changes[|changes| - 1];
      TouchedInOrder(front);
      assert changes == front + [c];
      var tokens := Touched(changes);
      forall i, j | 0 <= i < j < |tokens| ensures ChangedBefore(changes, tokens[i], tokens[j]) {
        ChangedBeforeGrows(front, c, tokens, i, j);
      }
    }
  }

  lemma {:induction false} ChangedBeforeGrows(front: seq<Change>, c: Change, tokens: seq<Token>, i: nat, j: nat)
    requires FirstChanged(front, Touched(front)) && i < j < |tokens| && tokens == WithToken(Touched(front), c.token)
    ensures ChangedBefore(front + [c], tokens[i], tokens[j])
  {
    var seen, changes := Touched(front), front + [c];
    if j < |seen| {
      assert ChangedBefore(front, seen[i], seen[j]);
      var p :| 0 <= p < |front| && front[p].token == seen[i] && forall q | 0 <= q <= p :: front[q].token != seen[j];
      assert changes[p] == front[p] && forall q | 0 <= q <= p :: changes[q] == front[q];
    } else {
      assert seen[i] in seen;
      var x :| x in front && x.token == seen[i];
      var p :| 0 <= p < |front| && front[p] == x;
      forall q | 0 <= q <= p ensures changes[q].token != c.token {
        assert front[q] in front && front[q].token in seen;
      }
      assert changes[p] == front[p];
    }
  }

  lemma {:induction false} AvailableIsWithin(index: map<Token, Market>, depth: map<Token, Depth>, order: seq<Token>, condition: Condition,
                                             tokens: iset<Token>)
    requires forall t | t in order :: t in tokens <==> t in depth && t in index && index[t].condition == condition
    ensures Available(index, depth, order, condition) == Within(order, tokens)
  {
    if order != [] {
      assert order == order[..|order| - 1] + [order[|order| - 1]];
      AvailableIsWithin(index, depth, order[..|order| - 1], condition, tokens);
    }
  }

  // ---------- one message ----------

  /** The market an accepted book belongs to. */
  ghost predicate BringsBookOf(g: Generation, m: Message, c: Condition) {
    exists t :: BringsBook(g, m, t) && g.index[t].condition == c
  }

  /** A market is held back after a message: it was or is hit, and no accepted book completes it. */
  ghost predicate HeldAfter(g: Generation, b: Books, held: iset<Condition>, m: Message, c: Condition)
    requires c in g.byCondition
  {
    (c in held || Hits(g, b, m, c)) && !(BringsBookOf(g, m, c) && Covered(g, After(g, b, m), c))
  }

  ghost predicate Sees(g: Generation, b: Books, held: iset<Condition>, s: State) {
    && !s.raised && Owns(g, b, s.depth)
    && forall c | c in g.byCondition :: c in s.recovering <==> c in held
  }

  /** The message has been accounted for. */
  ghost predicate Accounted(g: Generation, b: Books, held: iset<Condition>, s: State, m: Message, atMs: nat, r: (State, seq<Item>)) {
    && !r.0.raised && r.0.dropped == s.dropped && Owns(g, After(g, b, m), r.0.depth)
    && (forall c | c in g.byCondition :: c in r.0.recovering <==> HeldAfter(g, b, held, m, c))
    && TellsMessage(g, b, held, m, atMs, r.1)
  }

  lemma {:induction false} TargetIsRoute(g: Generation, m: Message)
    ensures Target(g, m) == Route(g, m)
  {
  }

  lemma {:induction false} BooksOf(g: Generation, b: Books, m: Message, t: Token)
    ensures t in After(g, b, m).based <==> BringsBook(g, m, t) || (t in b.based && !HitsToken(g, b, m, t))
    ensures forall side, price :: After(g, b, m).size(t, side, price) == SizeAfter(g, b, m, t, side, price)
  {
  }

  lemma {:induction false} NoBooksLeft(g: Generation, b: Books, m: Message, depth: map<Token, Depth>)
    requires g.Consistent() && Owns(g, b, depth) && Unroutable(g, m)
    ensures Owns(g, After(g, b, m), map[])
  {
    forall t ensures OwnsToken(g, After(g, b, m), map[], t) {
      assert OwnsToken(g, b, depth, t);
      BooksOf(g, b, m, t);
    }
  }

  /** Nothing but a gap that takes every book. */
  lemma {:induction false} AllForgotten(g: Generation, b: Books, held: iset<Condition>, s: State, m: Message, atMs: nat)
    requires g.Consistent() && Sees(g, b, held, s) && Unroutable(g, m)
    ensures Accounted(g, b, held, s, m, atMs, MessageStep(g, s, m, atMs))
  {
    TargetIsRoute(g, m);
    NoBooksLeft(g, b, m, s.depth);
    assert forall t :: !BringsBook(g, m, t);
  }

  lemma {:induction false} OneForgotten(g: Generation, b: Books, held: iset<Condition>, s: State, m: Message, atMs: nat, c: Condition, issue: Issue)
    requires Sees(g, b, held, s) && Refused(g, b, m) && c == Target(g, m).value.condition
    requires ReasonFor(issue).Some? && Reason(g, b, m, ReasonFor(issue).value)
    ensures Accounted(g, b, held, s, m, atMs, InvalidateOne(g, s, c, issue, atMs))
  {
    var s' := InvalidateOne(g, s, c, issue, atMs).0;
    forall t ensures OwnsToken(g, After(g, b, m), s'.depth, t) {
      assert OwnsToken(g, b, s.depth, t);
      BooksOf(g, b, m, t);
    }
  }

  lemma {:induction false} RefusedBook(g: Generation, b: Books, m: Message, t: Token, book: Decoded<Depth>, atMs: nat)
    requires g.Consistent() && m == Book(Text(t), book) && t in g.subscribed && t in g.byToken
    ensures Target(g, m) == Some(g.byToken[t])
    ensures book.Good? ==>
              var outcome := BaselineOutcome(g.index, t, book.value, g.byToken[t].condition, atMs);
              && (outcome.Failure? <==> Refused(g, b, m))
              && (outcome.Failure? ==> ReasonFor(outcome.error).Some? && Reason(g, b, m, ReasonFor(outcome.error).value))
              && (outcome.Success? ==> BringsBook(g, m, t) && outcome.value == Snapshot(t, g.index[t], book.value, atMs))
  {
    if book.Good? {
      ProperIsValid(book.value);
    }
  }

  lemma {:induction false} OneBook(g: Generation, b: Books, s: State, m: Message, t: Token, atMs: nat)
    requires g.Consistent() && Owns(g, b, s.depth) && BringsBook(g, m, t)
    ensures Owns(g, After(g, b, m), s.depth[t := m.book.value])
  {
    var depth := s.depth[t := m.book.value];
    forall u ensures OwnsToken(g, After(g, b, m), depth, u) {
      assert OwnsToken(g, b, s.depth, u);
      BooksOf(g, b, m, u);
    }
  }

  lemma {:induction false} CoveredIsBased(g: Generation, b: Books, depth: map<Token, Depth>, c: Condition)
    requires Owns(g, b, depth) && c in g.byCondition
    ensures Covered(g, b, c) <==> g.Required(g.byCondition[c]) != {} && g.Required(g.byCondition[c]) <= depth.Keys
  {
    var required := g.Required(g.byCondition[c]);
    assert forall t :: t in required <==> t in g.subscribed && g.byCondition[c].Has(t);
    if required != {} {
      var t :| t in required;
    }
    forall t | t in required ensures t in depth <==> t in b.based {
      assert OwnsToken(g, b, depth, t);
    }
  }

  lemma {:induction false} YieldsShow(g: Generation, b: Books, depth: map<Token, Depth>, tokens: seq<Token>, atMs: nat)
    requires Owns(g, b, depth) && forall t | t in tokens :: t in depth && t in g.index
    ensures ShowsBooks(g, b, atMs, Yield(Snapshots(g.index, depth, tokens, atMs)), tokens)
  {
    forall i | 0 <= i < |tokens| ensures ShowsBook(g, b, atMs, Yield(Snapshots(g.index, depth, tokens, atMs))[i], tokens[i]) {
      assert tokens[i] in tokens && OwnsToken(g, b, depth, tokens[i]);
    }
  }

  lemma {:induction false} BookTaken(g: Generation, b: Books, held: iset<Condition>, s: State, m: Message, t: Token, atMs: nat)
    requires g.Consistent() && Sees(g, b, held, s) && BringsBook(g, m, t)
    ensures Accounted(g, b, held, s, m, atMs, BaselineStep(g, s, g.byToken[t], t, m.book.value, atMs))
  {
    var book, c := m.book.value, g.index[t].condition;
    var (s', items) := BaselineStep(g, s, g.byToken[t], t, book, atMs);
    var after := After(g, b, m);
    RefusedBook(g, b, m, t, m.book, atMs);
    OneBook(g, b, s, m, t, atMs);
    CoveredIsBased(g, after, s'.depth, c);
    BookTells(g, b, held, s, m, t, atMs);
    forall c' | c' in g.byCondition ensures c' in s'.recovering <==> HeldAfter(g, b, held, m, c') {
      assert BringsBookOf(g, m, c') <==> c' == c;
    }
  }

  /** All owned books of one market, in token order, with what they hold. */
  lemma {:induction false} MarketShows(g: Generation, b: Books, depth: map<Token, Depth>, c: Condition, atMs: nat)
    requires Owns(g, b, depth)
    ensures forall t | t in Available(g.index, depth, g.order, c) :: t in depth && t in g.index
    ensures ShowsBooks(g, b, atMs, Yield(Snapshots(g.index, depth, Available(g.index, depth, g.order, c), atMs)),
                       Within(g.order, iset u | u in g.index && g.index[u].condition == c && u in b.based))
  {
    var tokens := iset u | u in g.index && g.index[u].condition == c && u in b.based;
    forall u ensures u in tokens <==> u in depth && u in g.index && g.index[u].condition == c {
      assert OwnsToken(g, b, depth, u);
    }
    AvailableIsWithin(g.index, depth, g.order, c, tokens);
    YieldsShow(g, b, depth, Available(g.index, depth, g.order, c), atMs);
  }

  lemma {:induction false} BookTells(g: Generation, b: Books, held: iset<Condition>, s: State, m: Message, t: Token, atMs: nat)
    requires g.Consistent() && Sees(g, b, held, s) && BringsBook(g, m, t)
    ensures TellsMessage(g, b, held, m, atMs, BaselineStep(g, s, g.byToken[t], t, m.book.value, atMs).1)
  {
    var book, c := m.book.value, g.index[t].condition;
    var (s', items) := BaselineStep(g, s, g.byToken[t], t, book, atMs);
    var after := After(g, b, m);
    RefusedBook(g, b, m, t, m.book, atMs);
    OneBook(g, b, s, m, t, atMs);
    CoveredIsBased(g, after, s'.depth, c);
    if c !in s.recovering {
      YieldsShow(g, after, s'.depth, [t], atMs);
      assert items[1..] == Yield(Snapshots(g.index, s'.depth, [t], atMs));
    } else if Covered(g, after, c) {
      MarketShows(g, after, s'.depth, c, atMs);
      assert items[1..] == Yield(Snapshots(g.index, s'.depth, Available(g.index, s'.depth, g.order, c), atMs));
    }
    assert TellsBook(g, b, c in held, m, atMs, t, c, items);
  }

  lemma {:induction false} ChangeTaken(g: Generation, b: Books, held: iset<Condition>, s: State, m: Message, atMs: nat)
    requires g.Consistent() && Sees(g, b, held, s) && m.PriceChange? && m.changes.Good? && Target(g, m).Some? && !Refused(g, b, m)
    ensures Accounted(g, b, held, s, m, atMs, DeltaStep(g, s, Target(g, m).value.condition, m.changes.value, atMs))
  {
    var c := Target(g, m).value.condition;
    var usable := Usable(g, s.depth, m.changes.value);
    var (s', items) := DeltaStep(g, s, c, m.changes.value, atMs);
    RefusedChange(g, b, m);
    var outcome := ChangeOutcome(g, b, m, s.depth, usable, c, atMs);
    ChangedBooks(g, b, m, s, usable);
    if usable == [] {
      assert s.depth + Candidates(s.depth, usable) == s.depth;
    }
    ChangeTells(g, b, held, s, m, usable, atMs);
  }

  /** One book after an accepted price change. */
  lemma {:induction false} ChangedToken(g: Generation, b: Books, m: Message, s: State, usable: seq<Change>, t: Token)
    requires g.Consistent() && Owns(g, b, s.depth) && m.PriceChange? && m.changes.Good? && Target(g, m).Some? && !Refused(g, b, m)
    requires usable == Usable(g, s.depth, m.changes.value)
    ensures OwnsToken(g, After(g, b, m), s.depth + Candidates(s.depth, usable), t)
  {
    assert OwnsToken(g, b, s.depth, t);
    BooksOf(g, b, m, t);
    ChangedIsCandidate(g, b, m, s.depth, usable, t);
    if t in Candidates(s.depth, usable) {
      RefusedChange(g, b, m);
      assert !SpoilsBook(g, b, m, t);
      CandidateSizes(g, b, m, s.depth, usable, t);
      SpoiledBook(g, b, m, s.depth, usable, t);
      ProperIsValid(Candidates(s.depth, usable)[t]);
    }
  }

  /** The books after an accepted price change. */
  lemma {:induction false} ChangedBooks(g: Generation, b: Books, m: Message, s: State, usable: seq<Change>)
    requires g.Consistent() && Owns(g, b, s.depth) && m.PriceChange? && m.changes.Good? && Target(g, m).Some? && !Refused(g, b, m)
    requires usable == Usable(g, s.depth, m.changes.value)
    ensures Owns(g, After(g, b, m), s.depth + Candidates(s.depth, usable))
  {
    assert forall t | t in Candidates(s.depth, usable) :: t in s.depth;
    forall t ensures OwnsToken(g, After(g, b, m), s.depth + Candidates(s.depth, usable), t) {
      ChangedToken(g, b, m, s, usable, t);
    }
  }

  lemma {:induction false} UsableIsTold(g: Generation, b: Books, depth: map<Token, Depth>, changes: seq<Change>)
    requires Owns(g, b, depth)
    ensures Usable(g, depth, changes) == Kept(changes, iset t | t in g.subscribed && t in b.based)
  {
    var tokens := iset t | t in g.subscribed && t in b.based;
    forall t ensures t in tokens <==> t in g.subscribed && t in depth {
      assert OwnsToken(g, b, depth, t);
    }
    UsableIsKept(g, depth, changes, tokens);
  }

  /** The snapshots of an accepted price change. */
  lemma {:induction false} ChangeShows(g: Generation, b: Books, m: Message, s: State, usable: seq<Change>, c: Condition, atMs: nat)
    requires g.Consistent() && Owns(g, b, s.depth) && m.PriceChange? && m.changes.Good? && Target(g, m).Some? && !Refused(g, b, m)
    requires usable == Usable(g, s.depth, m.changes.value) && DeltaOutcome(g.index, s.depth, usable, c, atMs).Success?
    ensures FirstChanged(usable, Touched(usable))
    ensures ShowsBooks(g, After(g, b, m), atMs, Yield(DeltaOutcome(g.index, s.depth, usable, c, atMs).value), Touched(usable))
  {
    var depth := DeltaYields(g.index, s.depth, usable, c, atMs);
    TouchedInOrder(usable);
    ChangedBooks(g, b, m, s, usable);
    YieldsShow(g, After(g, b, m), depth, Touched(usable), atMs);
  }

  lemma {:induction false} DeltaYields(index: map<Token, Market>, depth: map<Token, Depth>, usable: seq<Change>, c: Condition, atMs: nat)
    returns (edited: map<Token, Depth>)
    requires DeltaOutcome(index, depth, usable, c, atMs).Success?
    ensures forall change | change in usable :: change.token in depth
    ensures edited == depth + Candidates(depth, usable)
    ensures forall t | t in Touched(usable) :: t in edited && t in index
    ensures DeltaOutcome(index, depth, usable, c, atMs).value == Snapshots(index, edited, Touched(usable), atMs)
  {
    var candidates, touched := Candidates(depth, usable), Touched(usable);
    edited := depth + candidates;
    forall t | t in touched ensures t in index && t in candidates && edited[t] == candidates[t] {
      var change :| change in usable && change.token == t;
      assert MarketFor(index, t, c).Some?;
    }
    assert Snapshots(index, candidates, touched, atMs) == Snapshots(index, edited, touched, atMs);
  }

  lemma {:induction false} ChangeTells(g: Generation, b: Books, held: iset<Condition>, s: State, m: Message, usable: seq<Change>, atMs: nat)
    requires g.Consistent() && Sees(g, b, held, s) && m.PriceChange? && m.changes.Good? && Target(g, m).Some? && !Refused(g, b, m)
    requires usable == Usable(g, s.depth, m.changes.value)
    requires DeltaOutcome(g.index, s.depth, usable, Target(g, m).value.condition, atMs).Success?
    ensures TellsMessage(g, b, held, m, atMs, DeltaStep(g, s, Target(g, m).value.condition, m.changes.value, atMs).1)
  {
    var c := Target(g, m).value.condition;
    var items := DeltaStep(g, s, c, m.changes.value, atMs).1;
    UsableIsTold(g, b, s.depth, m.changes.value);
    if usable != [] && c !in s.recovering {
      ChangeShows(g, b, m, s, usable, c, atMs);
      assert items[1..] == Yield(DeltaOutcome(g.index, s.depth, usable, c, atMs).value);
    }
    assert TellsChange(g, b, c in held, m, atMs, items);
  }

  lemma {:induction false} NothingChanged(g: Generation, b: Books, held: iset<Condition>, s: State, m: Message)
    requires Sees(g, b, held, s) && !m.Book? && !m.PriceChange?
    ensures Owns(g, After(g, b, m), s.depth)
    ensures forall c | c in g.byCondition :: c in s.recovering <==> HeldAfter(g, b, held, m, c)
  {
    forall t ensures OwnsToken(g, After(g, b, m), s.depth, t) {
      assert OwnsToken(g, b, s.depth, t);
      BooksOf(g, b, m, t);
    }
  }

  lemma {:induction false} PlainTells(g: Generation, b: Books, held: iset<Condition>, s: State, m: Message, atMs: nat)
    requires g.Consistent() && Sees(g, b, held, s) && !m.Book? && !m.PriceChange?
    ensures MessageStep(g, s, m, atMs).0 == s
    ensures TellsMessage(g, b, held, m, atMs, MessageStep(g, s, m, atMs).1)
  {
    TargetIsRoute(g, m);
    assert !Unroutable(g, m) && !Refused(g, b, m);
  }

  lemma {:induction false} PlainAccounted(g: Generation, b: Books, held: iset<Condition>, s: State, m: Message, atMs: nat)
    requires g.Consistent() && Sees(g, b, held, s) && !m.Book? && !m.PriceChange?
    ensures Accounted(g, b, held, s, m, atMs, MessageStep(g, s, m, atMs))
  {
    NothingChanged(g, b, held, s, m);
    PlainTells(g, b, held, s, m, atMs);
  }

  /** One message does to the stream what the deliveries say. */
  lemma {:induction false} MessageAccounted(g: Generation, b: Books, held: iset<Condition>, s: State, m: Message, atMs: nat)
    requires g.Consistent() && Sees(g, b, held, s) && !Unpublishable(g, m)
    ensures Accounted(g, b, held, s, m, atMs, MessageStep(g, s, m, atMs))
  {
    TargetIsRoute(g, m);
    if Unroutable(g, m) {
      AllForgotten(g, b, held, s, m, atMs);
    } else if !m.Book? && !m.PriceChange? {
      PlainAccounted(g, b, held, s, m, atMs);
    } else if m.Book? {
      BookAccounted(g, b, held, s, m, m.token.id, atMs);
    } else {
      ChangeAccounted(g, b, held, s, m, atMs);
    }
  }

  lemma {:induction false} BookAccounted(g: Generation, b: Books, held: iset<Condition>, s: State, m: Message, t: Token, atMs: nat)
    requires g.Consistent() && Sees(g, b, held, s) && !Unpublishable(g, m)
    requires m.Book? && m.token == Text(t) && t in g.subscribed && t in g.byToken
    ensures Accounted(g, b, held, s, m, atMs, MessageStep(g, s, m, atMs))
  {
    var c := g.byToken[t].condition;
    RefusedBook(g, b, m, t, m.book, atMs);
    match m.book
    case Bad(issue) => OneForgotten(g, b, held, s, m, atMs, c, issue);
    case Good(book) =>
      var outcome := BaselineOutcome(g.index, t, book, c, atMs);
      if outcome.Failure? {
        OneForgotten(g, b, held, s, m, atMs, c, outcome.error);
      } else {
        BookTaken(g, b, held, s, m, t, atMs);
      }
  }

  lemma {:induction false} ChangeAccounted(g: Generation, b: Books, held: iset<Condition>, s: State, m: Message, atMs: nat)
    requires g.Consistent() && Sees(g, b, held, s) && !Unpublishable(g, m) && m.PriceChange? && Target(g, m).Some?
    ensures Accounted(g, b, held, s, m, atMs, MessageStep(g, s, m, atMs))
  {
    var c := Target(g, m).value.condition;
    match m.changes
    case Bad(issue) => OneForgotten(g, b, held, s, m, atMs, c, issue);
    case Good(changes) =>
      RefusedChange(g, b, m);
      if Refused(g, b, m) {
        var outcome := ChangeOutcome(g, b, m, s.depth, Usable(g, s.depth, changes), c, atMs);
        ChangeReason(g, b, m, outcome.error);
        OneForgotten(g, b, held, s, m, atMs, c, outcome.error);
      } else {
        ChangeTaken(g, b, held, s, m, atMs);
      }
  }

  // ---------- whole runs ----------

  ghost predicate Account(g: Generation, d: int, events: seq<Event>, s: State) {
    && !s.raised && s.dropped == LastDropped(d, events) && Owns(g, BooksAfter(g, d, events), s.depth)
    && forall c | c in g.byCondition :: c in s.recovering <==> Held(g, d, events, c)
  }

  /** The markets held back when the message of a delivery is looked at. */
  ghost function HeldBack(g: Generation, d: int, before: seq<Event>, e: Event): iset<Condition> {
    iset c | c in g.byCondition && HeldNow(g, d, before, e, c)
  }

  lemma {:induction false} OneMore(g: Generation, d: int, before: seq<Event>, e: Event, c: Condition)
    ensures BooksAfter(g, d, before + [e]) == After(g, BooksNow(g, d, before, e), e.message)
    ensures EverHit(g, d, before + [e], c) <==>
            Drops(d, before, e) || Hits(g, BooksNow(g, d, before, e), e.message, c) || EverHit(g, d, before, c)
    ensures Halted(g, d, before + [e]) <==> Halted(g, d, before) || Halts(g, d, before, e)
    ensures LastDropped(d, before + [e]) == if e.dropped.Some? then e.dropped.value else LastDropped(d, before)
  {
    assert (before + [e])[..|before|] == before;
  }

  lemma {:induction false} OutcomesIndexed(g: Generation, c: Condition, t: Token)
    requires g.Consistent() && c in g.byCondition && g.byCondition[c].Has(t)
    ensures t in g.index && g.index[t].condition == c
  {
  }

  /** Without a book of the market, a covered one was covered before and is not hit. */
  lemma {:induction false} CoveredBefore(g: Generation, b: Books, m: Message, c: Condition)
    requires g.Consistent() && c in g.byCondition && !BringsBookOf(g, m, c)
    ensures Covered(g, After(g, b, m), c) <==> Covered(g, b, c) && !Hits(g, b, m, c)
  {
    forall t | t in g.subscribed && g.byCondition[c].Has(t)
      ensures t in After(g, b, m).based <==> t in b.based && !Hits(g, b, m, c)
    {
      OutcomesIndexed(g, c, t);
      BooksOf(g, b, m, t);
      assert !BringsBook(g, m, t);
    }
    if Covered(g, After(g, b, m), c) {
      var t :| t in g.subscribed && g.byCondition[c].Has(t);
    }
  }

  lemma {:induction false} HeldStep(g: Generation, d: int, before: seq<Event>, e: Event, c: Condition)
    requires g.Consistent() && c in g.byCondition
    ensures HeldAfter(g, BooksNow(g, d, before, e), HeldBack(g, d, before, e), e.message, c) <==> Held(g, d, before + [e], c)
  {
    var b := BooksNow(g, d, before, e);
    OneMore(g, d, before, e, c);
    if BringsBookOf(g, e.message, c) {
      CoveredStays(g, b, e.message, c);
    } else {
      CoveredBefore(g, b, e.message, c);
    }
  }

  /** An accepted book of the market takes none of its books away. */
  lemma {:induction false} CoveredStays(g: Generation, b: Books, m: Message, c: Condition)
    requires g.Consistent() && c in g.byCondition && BringsBookOf(g, m, c)
    ensures Covered(g, b, c) ==> Covered(g, After(g, b, m), c)
    ensures !Hits(g, b, m, c)
  {
    var u :| BringsBook(g, m, u) && g.index[u].condition == c;
    forall t | t in g.subscribed && g.byCondition[c].Has(t) && t in b.based ensures t in After(g, b, m).based {
      OutcomesIndexed(g, c, t);
      BooksOf(g, b, m, t);
    }
  }

  /** The state a message is looked at in. */
  lemma {:induction false} AfterDrop(g: Generation, d: int, before: seq<Event>, s: State, e: Event)
    requires g.Consistent() && Account(g, d, before, s) && e.dropped.Some? && e.dropped.value >= s.dropped
    ensures var (s1, lost) := if e.dropped.value > s.dropped then InvalidateAll(g, s, BookStreamGap, e.dropAtMs) else (s, []);
            && Sees(g, BooksNow(g, d, before, e), HeldBack(g, d, before, e), s1.(dropped := e.dropped.value))
            && lost == if Drops(d, before, e) then [Yielded(GapOut(BookGap(None, e.dropAtMs, BookStreamGapGap)))] else []
  {
    if e.dropped.value > s.dropped {
      var s1 := InvalidateAll(g, s, BookStreamGap, e.dropAtMs).0;
      forall t ensures OwnsToken(g, NO_BOOKS, s1.depth, t) {
      }
    } else {
      var s1 := s.(dropped := e.dropped.value);
      forall t ensures OwnsToken(g, BooksNow(g, d, before, e), s1.depth, t) {
        assert OwnsToken(g, BooksAfter(g, d, before), s.depth, t);
      }
    }
  }

  /** One delivery. */
  lemma {:induction false} StepAccounted(g: Generation, d: int, before: seq<Event>, s: State, e: Event)
    requires g.Consistent() && Account(g, d, before, s) && !Halts(g, d, before, e)
    ensures var (s', items) := Step(g, s, e); Account(g, d, before + [e], s') && Tells(g, d, before, e, items)
  {
    var (s1, lost) := if e.dropped.value > s.dropped then InvalidateAll(g, s, BookStreamGap, e.dropAtMs) else (s, []);
    var seen := s1.(dropped := e.dropped.value);
    var b, held := BooksNow(g, d, before, e), HeldBack(g, d, before, e);
    AfterDrop(g, d, before, s, e);
    MessageAccounted(g, b, held, seen, e.message, e.atMs);
    var (s2, items) := MessageStep(g, seen, e.message, e.atMs);
    OneMore(g, d, before, e, "");
    forall c | c in g.byCondition ensures c in s2.recovering <==> Held(g, d, before + [e], c) {
      HeldStep(g, d, before, e, c);
    }
    LostThen(lost, items);
  }

  lemma {:induction false} LostThen(lost: seq<Item>, items: seq<Item>)
    ensures |lost| == 1 ==> (lost + items)[0] == lost[0] && (lost + items)[1..] == items
    ensures lost == [] ==> lost + items == items
  {
  }

  /** A delivery that ends the stream publishes at most the gap of a drop. */
  lemma {:induction false} HaltStep(g: Generation, d: int, before: seq<Event>, s: State, e: Event)
    requires g.Consistent() && Account(g, d, before, s) && Halts(g, d, before, e)
    ensures Step(g, s, e).0.raised
    ensures Step(g, s, e).1 ==
            if Drops(d, before, e) && e.dropped.value >= 0 then [Yielded(GapOut(BookGap(None, e.dropAtMs, BookStreamGapGap)))] else []
  {
    TargetIsRoute(g, e.message);
    if e.dropped.Some? && e.dropped.value >= s.dropped {
      AfterDrop(g, d, before, s, e);
    }
  }

  lemma {:induction false} RunOneMore(g: Generation, s0: State, events: seq<Event>, e: Event)
    requires s0.depth.Keys <= g.index.Keys
    ensures var (s, trace) := Run(g, s0, events);
            Run(g, s0, events + [e]) == (Step(g, s, e).0, trace + Step(g, s, e).1)
  {
    assert (events + [e])[..|events|] == events;
  }

  lemma {:induction false} RunAccounted(g: Generation, s0: State, events: seq<Event>)
    requires g.Consistent() && s0 == Start(s0.dropped, s0.gapCount, s0.lastGap)
    ensures Run(g, s0, events).0.raised <==> Halted(g, s0.dropped, events)
    ensures !Halted(g, s0.dropped, events) ==> Account(g, s0.dropped, events, Run(g, s0, events).0)
  {
    if events == [] {
      forall t ensures OwnsToken(g, NO_BOOKS, s0.depth, t) {
      }
    } else {
      var before, e := events[..|events| - 1], events[|events| - 1];
      assert events == before + [e];
      RunAccounted(g, s0, before);
      OneMore(g, s0.dropped, before, e, "");
      if !Halted(g, s0.dropped, before) {
        if Halts(g, s0.dropped, before, e) {
          HaltStep(g, s0.dropped, before, Run(g, s0, before).0, e);
        } else {
          StepAccounted(g, s0.dropped, before, Run(g, s0, before).0, e);
        }
      }
    }
  }

  // ---------- the guarantees ----------

  /** On every run the stream ends exactly where its deliveries end it. While it lives a token has a book, and
      at every level the size last written there, exactly as the deliveries since its last gap say; and a market
      is held back exactly while a gap has hit it and a subscribed outcome has no book since. */
  lemma {:induction false} OwnedIsLastWritten(g: Generation, s0: State, events: seq<Event>, t: Token, side: Side, price: real)
    requires g.Consistent() && s0 == Start(s0.dropped, s0.gapCount, s0.lastGap)
    ensures var s := Run(g, s0, events).0;
            && (s.raised <==> Halted(g, s0.dropped, events))
            && (!s.raised ==>
                  && (t in s.depth <==> t in BooksAfter(g, s0.dropped, events).based)
                  && (t in s.depth ==> s.depth[t].SizeAt(side, price) == BooksAfter(g, s0.dropped, events).size(t, side, price))
                  && forall c | c in g.byCondition :: c in s.recovering <==> Held(g, s0.dropped, events, c))
  {
    RunAccounted(g, s0, events);
    if !Halted(g, s0.dropped, events) {
      assert OwnsToken(g, BooksAfter(g, s0.dropped, events), Run(g, s0, events).0.depth, t);
    }
  }

  /** On every run, what a delivery adds to the trace is exactly what the deliveries so far tell: the books
      taken with their own levels, the changes kept in their order, and every gap, snapshot, hint and
      resolution with its payload. */
  lemma {:induction false} DeliveryTells(g: Generation, s0: State, events: seq<Event>, e: Event)
    requires g.Consistent() && s0 == Start(s0.dropped, s0.gapCount, s0.lastGap)
    ensures var d, trace, after := s0.dropped, Run(g, s0, events).1, Run(g, s0, events + [e]).1;
            && trace <= after
            && (if Halted(g, d, events) then after == trace
                else if Halts(g, d, events, e) then
                  after[|trace|..] == if Drops(d, events, e) && e.dropped.value >= 0
                                      then [Yielded(GapOut(BookGap(None, e.dropAtMs, BookStreamGapGap)))] else []
                else Tells(g, d, events, e, after[|trace|..]))
  {
    var (s, trace) := Run(g, s0, events);
    RunAccounted(g, s0, events);
    RunOneMore(g, s0, events, e);
    assert (trace + Step(g, s, e).1)[|trace|..] == Step(g, s, e).1;
    if !Halted(g, s0.dropped, events) {
      if Halts(g, s0.dropped, events, e) {
        HaltStep(g, s0.dropped, events, s, e);
      } else {
        StepAccounted(g, s0.dropped, events, s, e);
      }
    }
  }

  /** The books a run took into owned depth. */
  function Baselines(trace: seq<Item>): seq<(Token, Depth)> {
    if trace == [] then []
    else
      var item := trace[|trace| - 1];
      Baselines(trace[..|trace| - 1]) + if item.TookBaseline? then [(item.token, item.book)] else []
  }

  /** The proper books of subscribed tokens among the deliveries, until one ends the stream. */
  ghost function Brought(g: Generation, d: int, events: seq<Event>): seq<(Token, Depth)> {
    if events == [] then []
    else
      var before, e := events[..|events| - 1], events[|events| - 1];
      Brought(g, d, before)
      + if !Halted(g, d, events) && e.message.Book? && e.message.token.Text? && BringsBook(g, e.message, e.message.token.id)
        then [(e.message.token.id, e.message.book.value)] else []
  }

  lemma {:induction false} BaselinesConcat(a: seq<Item>, b: seq<Item>)
    ensures Baselines(a + b) == Baselines(a) + Baselines(b)
  {
    if b == [] {
      assert a + b == a;
    } else {
      assert (a + b)[..|a + b| - 1] == a + b[..|b| - 1];
      BaselinesConcat(a, b[..|b| - 1]);
    }
  }

  lemma {:induction false} NoBaselines(items: seq<Item>)
    requires forall i | 0 <= i < |items| :: !items[i].TookBaseline?
    ensures Baselines(items) == []
  {
    if items != [] {
      NoBaselines(items[..|items| - 1]);
    }
  }

  lemma {:induction false} FirstIsBaseline(items: seq<Item>)
    requires items != [] && items[0].TookBaseline? && forall i | 1 <= i < |items| :: !items[i].TookBaseline?
    ensures Baselines(items) == [(items[0].token, items[0].book)]
  {
    assert items == [items[0]] + items[1..];
    BaselinesConcat([items[0]], items[1..]);
    NoBaselines(items[1..]);
    assert [items[0]][..0] == [] && Baselines([items[0]]) == [(items[0].token, items[0].book)];
  }

  lemma {:induction false} MessageBaselines(g: Generation, b: Books, held: iset<Condition>, m: Message, atMs: nat, items: seq<Item>)
    requires g.Consistent() && TellsMessage(g, b, held, m, atMs, items)
    ensures Baselines(items) ==
            if m.Book? && m.token.Text? && BringsBook(g, m, m.token.id) then [(m.token.id, m.book.value)] else []
  {
    if m.Book? && m.token.Text? && BringsBook(g, m, m.token.id) {
      FirstIsBaseline(items);
    } else {
      NoBaselines(items);
    }
  }

  /** The books taken on a run are, in order and with their own levels, exactly the proper books of subscribed
      tokens among its deliveries. */
  lemma {:induction false} BaselinesAreBrought(g: Generation, s0: State, events: seq<Event>)
    requires g.Consistent() && s0 == Start(s0.dropped, s0.gapCount, s0.lastGap)
    ensures Baselines(Run(g, s0, events).1) == Brought(g, s0.dropped, events)
  {
    if events != [] {
      var before, e := events[..|events| - 1], events[|events| - 1];
      var d, trace := s0.dropped, Run(g, s0, before).1;
      assert events == before + [e];
      BaselinesAreBrought(g, s0, before);
      DeliveryTells(g, s0, before, e);
      OneMore(g, d, before, e, "");
      var items := Run(g, s0, events).1[|trace|..];
      assert Run(g, s0, events).1 == trace + items;
      BaselinesConcat(trace, items);
      if Halted(g, d, before) || Halts(g, d, before, e) {
        NoBaselines(items);
      } else {
        DeliveryBaselines(g, d, before, e, items);
      }
    }
  }

  lemma {:induction false} DeliveryBaselines(g: Generation, d: int, before: seq<Event>, e: Event, items: seq<Item>)
    requires g.Consistent() && Tells(g, d, before, e, items)
    ensures Baselines(items) ==
            if e.message.Book? && e.message.token.Text? && BringsBook(g, e.message, e.message.token.id)
            then [(e.message.token.id, e.message.book.value)] else []
  {
    var b, held := BooksNow(g, d, before, e), HeldBack(g, d, before, e);
    if Drops(d, before, e) {
      assert items == [items[0]] + items[1..];
      BaselinesConcat([items[0]], items[1..]);
      NoBaselines([items[0]]);
      MessageBaselines(g, b, held, e.message, e.atMs, items[1..]);
    } else {
      MessageBaselines(g, b, held, e.message, e.atMs, items);
    }
  }
}
