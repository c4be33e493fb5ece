/** What a market stream owns and tells, read off its list of deliveries alone: which token has a book,
    the size at every level of it, and the items each delivery adds. */
module StreamDeliveries {
  import opened Common
  import opened OrderBooks
  import opened MarketStream

  /** The books owned: which tokens have one, and the size at every level, zero where there is none. */
  datatype Books = Books(based: iset<Token>, size: (Token, Side, real) -> real)

  ghost const NO_BOOKS := Books(iset{}, (t: Token, side: Side, price: real) => 0.0)

  // ---------- one message ----------

  /** The market a message is about: by subscribed token, or by condition. */
  function Target(g: Generation, m: Message): Option<Market> {
    var token := match m
                 case Book(Text(t), _) => Some(t)
                 case LastTrade(Text(t), _) => Some(t)
                 case TickSize(Text(t), _) => Some(t)
                 case _ => None;
    var condition := match m
                     case PriceChange(Text(c), _) => Some(c)
                     case Resolved(Text(c), _) => Some(c)
                     case _ => None;
    if token.Some? && token.value in g.subscribed && token.value in g.byToken then Some(g.byToken[token.value])
    else if condition.Some? && condition.value in g.byCondition then Some(g.byCondition[condition.value])
    else None
  }

  /** A book or price change that names no market of the subscription. */
  predicate Unroutable(g: Generation, m: Message) {
    (m.Book? || m.PriceChange?) && Target(g, m).None?
  }

  /** A refused book or change with no reason to be published under. */
  predicate Unpublishable(g: Generation, m: Message) {
    && Target(g, m).Some?
    && ((m.Book? && m.book.Bad? && ReasonFor(m.book.issue).None?)
        || (m.PriceChange? && m.changes.Bad? && ReasonFor(m.changes.issue).None?))
  }

  /** Every level has a price in (0, 1] and a positive size. */
  ghost predicate ProperLevels(book: Depth) {
    forall side, price | price in book.Levels(side) :: 0.0 < price <= 1.0 && book.Levels(side)[price] > 0.0
  }

  /** And no bid is above an ask. */
  ghost predicate ProperBook(book: Depth) {
    ProperLevels(book) && forall bid, ask | bid in book.bids && ask in book.asks :: bid <= ask
  }

  /** The same of sizes. */
  ghost predicate ProperLevelSizes(size: (Side, real) -> real) {
    forall side, price | size(side, price) != 0.0 :: 0.0 < price <= 1.0 && size(side, price) > 0.0
  }

  ghost predicate ProperSizes(size: (Side, real) -> real) {
    ProperLevelSizes(size) && forall bid, ask | size(Buy, bid) != 0.0 && size(Sell, ask) != 0.0 :: bid <= ask
  }

  /** The message is a proper book of this subscribed token. */
  ghost predicate BringsBook(g: Generation, m: Message, t: Token) {
    m.Book? && m.token == Text(t) && m.book.Good? && t in g.subscribed && t in g.index && ProperBook(m.book.value)
  }

  /** The message is a price change of a known market, and changes a book of this token. */
  ghost predicate ChangesBook(g: Generation, b: Books, m: Message, t: Token) {
    && m.PriceChange? && m.changes.Good? && Target(g, m).Some? && t in g.subscribed && t in b.based
    && exists c :: c in m.changes.value && c.token == t
  }

  /** The last of the changes to this level, else what it was. */
  function Written(changes: seq<Change>, t: Token, side: Side, price: real, was: real): real {
    if changes == [] then was
    else
      var c := changes[|changes| - 1];
      if c.token == t && c.side == side && c.price == price then c.size
      else Written(changes[..|changes| - 1], t, side, price, was)
  }

  ghost function SizesAfter(b: Books, changes: seq<Change>, t: Token): (Side, real) -> real {
    (side, price) => Written(changes, t, side, price, b.size(t, side, price))
  }

  /** A change to a book of another market. */
  ghost predicate Foreign(g: Generation, b: Books, m: Message) {
    Target(g, m).Some? &&
    exists t :: ChangesBook(g, b, m, t) && (t !in g.index || g.index[t].condition != Target(g, m).value.condition)
  }

  /** The changes would leave this token's book improper. */
  ghost predicate SpoilsBook(g: Generation, b: Books, m: Message, t: Token) {
    ChangesBook(g, b, m, t) && !ProperSizes(SizesAfter(b, m.changes.value, t))
  }

  ghost predicate Spoils(g: Generation, b: Books, m: Message) {
    exists t :: SpoilsBook(g, b, m, t)
  }

  /** Of the books spoiled, the one changed first. */
  ghost predicate FirstSpoiled(g: Generation, b: Books, m: Message, t: Token)
    requires m.PriceChange? && m.changes.Good?
  {
    var kept := Kept(m.changes.value, iset u | u in g.subscribed && u in b.based);
    SpoilsBook(g, b, m, t) && forall u | u != t && SpoilsBook(g, b, m, u) :: ChangedBefore(kept, t, u)
  }

  /** The message is refused: it could not be decoded, it is no proper book of the market, or one of its
      changes is foreign or spoils a book. */
  ghost predicate Refused(g: Generation, b: Books, m: Message) {
    && Target(g, m).Some?
    && match m
       case Book(Text(t), book) => book.Bad? || !BringsBook(g, m, t)
       case PriceChange(_, changes) => changes.Bad? || Foreign(g, b, m) || Spoils(g, b, m)
       case _ => false
  }

  /** The message is a gap for this condition. */
  ghost predicate Hits(g: Generation, b: Books, m: Message, c: Condition) {
    Unroutable(g, m) || (Refused(g, b, m) && Target(g, m).value.condition == c)
  }

  ghost predicate HitsToken(g: Generation, b: Books, m: Message, t: Token) {
    t in g.index && Hits(g, b, m, g.index[t].condition)
  }

  /** A level holds what the message writes there; a gap leaves nothing. */
  ghost function SizeAfter(g: Generation, b: Books, m: Message, t: Token, side: Side, price: real): real {
    if BringsBook(g, m, t) then m.book.value.SizeAt(side, price)
    else if HitsToken(g, b, m, t) then 0.0
    else if ChangesBook(g, b, m, t) && !Refused(g, b, m) then Written(m.changes.value, t, side, price, b.size(t, side, price))
    else b.size(t, side, price)
  }

  ghost function After(g: Generation, b: Books, m: Message): Books {
    Books(iset t | BringsBook(g, m, t) || (t in b.based && !HitsToken(g, b, m, t)),
          (t, side, price) => SizeAfter(g, b, m, t, side, price))
  }

  // ---------- the deliveries so far ----------

  /** The SDK drop counter last reported. */
  function LastDropped(d: int, events: seq<Event>): int {
    if events == [] then d
    else if events[|events| - 1].dropped.Some? then events[|events| - 1].dropped.value
    else LastDropped(d, events[..|events| - 1])
  }

  predicate Drops(d: int, before: seq<Event>, e: Event) {
    e.dropped.Some? && e.dropped.value > LastDropped(d, before)
  }

  /** The drop counter is missing or goes down, or the message cannot be published: the stream ends. */
  predicate Halts(g: Generation, d: int, before: seq<Event>, e: Event) {
    e.dropped.None? || e.dropped.value < 0 || e.dropped.value < LastDropped(d, before) || Unpublishable(g, e.message)
  }

  predicate Halted(g: Generation, d: int, events: seq<Event>) {
    events != [] &&
    (Halted(g, d, events[..|events| - 1]) || Halts(g, d, events[..|events| - 1], events[|events| - 1]))
  }

  ghost function BooksAfter(g: Generation, d: int, events: seq<Event>): Books
    decreases |events|, 0
  {
    if events == [] then NO_BOOKS
    else After(g, BooksNow(g, d, events[..|events| - 1], events[|events| - 1]), events[|events| - 1].message)
  }

  /** The books when the message of a delivery is looked at: a drop has taken all of them. */
  ghost function BooksNow(g: Generation, d: int, before: seq<Event>, e: Event): Books
    decreases |before|, 1
  {
    if Drops(d, before, e) then NO_BOOKS else BooksAfter(g, d, before)
  }

  ghost predicate EverHit(g: Generation, d: int, events: seq<Event>, c: Condition) {
    events != [] &&
    var before, e := events[..|events| - 1], events[|events| - 1];
    Drops(d, before, e) || Hits(g, BooksNow(g, d, before, e), e.message, c) || EverHit(g, d, before, c)
  }

  /** Some outcome of the market is subscribed, and every subscribed one has a book. */
  ghost predicate Covered(g: Generation, b: Books, c: Condition)
    requires c in g.byCondition
  {
    && (exists t :: t in g.subscribed && g.byCondition[c].Has(t))
    && forall t | t in g.subscribed && g.byCondition[c].Has(t) :: t in b.based
  }

  /** A gap hit the market, and some subscribed outcome of it has no book since. */
  ghost predicate Held(g: Generation, d: int, events: seq<Event>, c: Condition)
    requires c in g.byCondition
  {
    EverHit(g, d, events, c) && !Covered(g, BooksAfter(g, d, events), c)
  }

  ghost predicate HeldNow(g: Generation, d: int, before: seq<Event>, e: Event, c: Condition)
    requires c in g.byCondition
  {
    Drops(d, before, e) || Held(g, d, before, c)
  }

  // ---------- what a delivery adds ----------

  /** The changes to these tokens, in their order. */
  ghost function Kept(changes: seq<Change>, tokens: iset<Token>): seq<Change> {
    if changes == [] then []
    else
      var c := changes[|changes| - 1];
      Kept(changes[..|changes| - 1], tokens) + if c.token in tokens then [c] else []
  }

  ghost function Within(order: seq<Token>, tokens: iset<Token>): seq<Token> {
    if order == [] then []
    else
      var t := order[|order| - 1];
      Within(order[..|order| - 1], tokens) + if t in tokens then [t] else []
  }

  /** Under which reason a refused message is published: an improper level goes before a crossed book, a foreign
      change before both, and of several books left improper the one changed first decides. */
  ghost predicate Reason(g: Generation, b: Books, m: Message, reason: GapReason) {
    match m
    case Book(_, Bad(issue)) => Some(reason) == ReasonFor(issue)
    case PriceChange(_, Bad(issue)) => Some(reason) == ReasonFor(issue)
    case Book(Text(t), Good(book)) => reason == if t !in g.index then BookIdentityMismatchGap
                                                else if ProperLevels(book) then CrossedBookGap else InvalidBookLevelGap
    case PriceChange(_, Good(changes)) =>
      if Foreign(g, b, m) then reason == BookIdentityMismatchGap
      else exists t :: FirstSpoiled(g, b, m, t) && reason == FaultIn(SizesAfter(b, changes, t))
    case _ => false
  }

  ghost function FaultIn(size: (Side, real) -> real): GapReason {
    if ProperLevelSizes(size) then CrossedBookGap else InvalidBookLevelGap
  }

  /** A snapshot of this token with the sizes owned. */
  ghost predicate ShowsBook(g: Generation, b: Books, atMs: nat, item: Item, t: Token) {
    && item.Yielded? && item.output.SnapshotOut? && t in g.index
    && item.output.snapshot.token == t && item.output.snapshot.market == g.index[t]
    && item.output.snapshot.receivedAtMs == atMs
    && forall side, price :: item.output.snapshot.depth.SizeAt(side, price) == b.size(t, side, price)
  }

  ghost predicate ShowsBooks(g: Generation, b: Books, atMs: nat, items: seq<Item>, tokens: seq<Token>) {
    |items| == |tokens| && forall i | 0 <= i < |items| :: ShowsBook(g, b, atMs, items[i], tokens[i])
  }

  /** The changed tokens, each once, first changed first. */
  ghost predicate FirstChanged(changes: seq<Change>, tokens: seq<Token>) {
    && (forall t :: t in tokens <==> exists c :: c in changes && c.token == t)
    && forall i, j | 0 <= i < j < |tokens| :: ChangedBefore(changes, tokens[i], tokens[j])
  }

  ghost predicate ChangedBefore(changes: seq<Change>, t: Token, u: Token) {
    exists p :: 0 <= p < |changes| && changes[p].token == t && forall q | 0 <= q <= p :: changes[q].token != u
  }

  /** What an accepted book adds: itself; and a snapshot of it, or of all books of a market it completes. */
  ghost predicate TellsBook(g: Generation, b: Books, held: bool, m: Message, atMs: nat, t: Token, c: Condition, items: seq<Item>)
    requires c in g.byCondition && m.Book? && m.book.Good?
  {
    var after := After(g, b, m);
    && items != [] && items[0] == TookBaseline(t, m.book.value)
    && if !held then ShowsBooks(g, after, atMs, items[1..], [t])
       else if Covered(g, after, c) then
         ShowsBooks(g, after, atMs, items[1..],
                    Within(g.order, iset u | u in g.index && g.index[u].condition == c && u in after.based))
       else items[1..] == []
  }

  /** What an accepted price change adds: its changes to subscribed tokens with a book, none lost and in their
      order; and a snapshot of each changed book, unless the market is held back. */
  ghost predicate TellsChange(g: Generation, b: Books, held: bool, m: Message, atMs: nat, items: seq<Item>)
    requires m.PriceChange? && m.changes.Good?
  {
    var kept := Kept(m.changes.value, iset t | t in g.subscribed && t in b.based);
    if kept == [] then items == []
    else
      && items != [] && items[0] == TookDelta(kept)
      && if held then items[1..] == []
         else exists tokens :: FirstChanged(kept, tokens) && ShowsBooks(g, After(g, b, m), atMs, items[1..], tokens)
  }

  /** What a message adds, `held` saying which markets are held back when it is looked at. */
  ghost predicate TellsMessage(g: Generation, b: Books, held: iset<Condition>, m: Message, atMs: nat, items: seq<Item>) {
    if Unroutable(g, m) then items == [Yielded(GapOut(BookGap(None, atMs, InvalidMarketParametersGap)))]
    else if Target(g, m).None? then items == []
    else
      var market := Target(g, m).value;
      if Refused(g, b, m) then
        exists reason :: Reason(g, b, m, reason) && items == [Yielded(GapOut(BookGap(Some(market.condition), atMs, reason)))]
      else
        && market.condition in g.byCondition
        && match m
           case Book(Text(t), Good(_)) => TellsBook(g, b, market.condition in held, m, atMs, t, market.condition, items)
           case PriceChange(_, Good(_)) => TellsChange(g, b, market.condition in held, m, atMs, items)
           case LastTrade(Text(t), Good(_)) => items == [Yielded(TradeHint(market.condition, t, market.slug, atMs))]
           case Resolved(_, Good(r)) =>
             items == [Yielded(ResolutionOut(market, r.winningToken, r.winningOutcome,
                                             if r.sourceAtMs.Some? then r.sourceAtMs.value else atMs, r.source))]
           case _ => items == []
  }

  /** Everything one delivery adds to the trace: the gap of a drop, then what the message comes to. */
  ghost predicate Tells(g: Generation, d: int, before: seq<Event>, e: Event, items: seq<Item>) {
    var b := BooksNow(g, d, before, e);
    var held := iset c | c in g.byCondition && HeldNow(g, d, before, e, c);
    if Drops(d, before, e) then
      && items != [] && items[0] == Yielded(GapOut(BookGap(None, e.dropAtMs, BookStreamGapGap)))
      && TellsMessage(g, b, held, e.message, e.atMs, items[1..])
    else TellsMessage(g, b, held, e.message, e.atMs, items)
  }
}
