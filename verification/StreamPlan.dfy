/** Stream rules over markets and wallets, compiled into the scopes that decide what a wallet may show. */
module StreamPlan {
  import opened Common

  datatype Relation = Filtered | Independent

  datatype Scope = Scope(wallet: Option<string>, slugs: seq<string>)

  datatype Rule = Rule(relation: Relation, slugs: seq<string>, wallets: seq<string>)

  datatype RuleError = FilteredNeedsBoth | IndependentNeedsOne

  // ---------- text ----------

  predicate IsSpace(c: char) { c in " \t\n\r" }

  function LowerChar(c: char): (r: char)
    ensures IsSpace(r) <==> IsSpace(c)
  {
    if 'A' <= c <= 'Z' then (c as int + 32) as char else c
  }

  function Lower(s: string): (r: string)
    ensures |r| == |s| && forall i | 0 <= i < |s| :: r[i] == LowerChar(s[i])
  {
    seq(|s|, i requires 0 <= i < |s| => LowerChar(s[i]))
  }

  function StripLeft(s: string): string {
    if s != [] && IsSpace(s[0]) then StripLeft(s[1..]) else s
  }

  function StripRight(s: string): string {
    if s != [] && IsSpace(s[|s| - 1]) then StripRight(s[..|s| - 1]) else s
  }

  function Strip(s: string): string { StripRight(StripLeft(s)) }

  /** Nothing to strip at either end. */
  predicate Bare(s: string) {
    s == [] || (!IsSpace(s[0]) && !IsSpace(s[|s| - 1]))
  }

  // ---------- rules ----------

  function Dedupe(s: seq<string>): seq<string> {
    if s == [] then []
    else
      var front, last := Dedupe(s[..|s| - 1]), s[|s| - 1];
      if last in front then front else front + [last]
  }

  /** Each entry stripped, blank ones left out. */
  function Stripped(s: seq<string>): seq<string> {
    if s == [] then []
    else
      var last := Strip(s[|s| - 1]);
      Stripped(s[..|s| - 1]) + if last == [] then [] else [last]
  }

  function Lowered(s: seq<string>): seq<string> {
    if s == [] then [] else Lowered(s[..|s| - 1]) + [Lower(s[|s| - 1])]
  }

  function Groups(slugs: seq<string>, wallets: seq<string>): nat {
    (if slugs == [] then 0 else 1) + if wallets == [] then 0 else 1
  }

  function MakeRule(relation: Relation, slugs: seq<string>, wallets: seq<string>): Result<Rule, RuleError> {
    var markets := Dedupe(Stripped(slugs));
    var addresses := Dedupe(Lowered(Stripped(wallets)));
    if relation == Filtered && Groups(markets, addresses) < 2 then Failure(FilteredNeedsBoth)
    else if relation == Independent && Groups(markets, addresses) < 1 then Failure(IndependentNeedsOne)
    else Success(Rule(relation, markets, addresses))
  }

  /** What a constructed rule always satisfies. */
  ghost predicate ValidRule(r: Rule) {
    && (r.relation == Filtered ==> r.slugs != [] && r.wallets != [])
    && (r.slugs != [] || r.wallets != [])
    && Distinct(r.slugs) && Distinct(r.wallets)
    && AllBare(r.slugs) && AllBare(r.wallets) && AllLower(r.wallets)
  }

  ghost predicate AllBare(s: seq<string>) {
    forall i | 0 <= i < |s| :: s[i] != [] && Bare(s[i])
  }

  ghost predicate AllLower(s: seq<string>) {
    forall i | 0 <= i < |s| :: Lower(s[i]) == s[i]
  }

  ghost predicate Distinct(s: seq<string>) {
    forall i, j | 0 <= i < j < |s| :: s[i] != s[j]
  }

  function WalletScopes(wallets: seq<string>, slugs: seq<string>): seq<Scope> {
    if wallets == [] then []
    else WalletScopes(wallets[..|wallets| - 1], slugs) + [Scope(Some(wallets[|wallets| - 1]), slugs)]
  }

  function Scopes(r: Rule): seq<Scope> {
    if r.relation == Filtered then WalletScopes(r.wallets, r.slugs)
    else WalletScopes(r.wallets, []) + if r.slugs == [] then [] else [Scope(None, r.slugs)]
  }

  predicate ScopeAccepts(scope: Scope, wallet: string, slug: Option<string>) {
    && (scope.wallet.None? || Lower(wallet) == scope.wallet.value)
    && (scope.slugs == [] || (slug.Some? && slug.value in scope.slugs))
  }

  predicate RuleAccepts(r: Rule, wallet: string, slug: Option<string>) {
    exists scope :: scope in Scopes(r) && ScopeAccepts(scope, wallet, slug)
  }

  predicate PlanAccepts(rules: seq<Rule>, wallet: string, slug: Option<string>) {
    rules == [] || exists rule :: rule in rules && RuleAccepts(rule, wallet, slug)
  }

  // ---------- discovery ----------

  function AllScopes(rules: seq<Rule>): seq<Scope> {
    if rules == [] then [] else AllScopes(rules[..|rules| - 1]) + Scopes(rules[|rules| - 1])
  }

  function SlugSet(slugs: seq<string>): set<string> { set s | s in slugs }

  /** None for a wallet means unrestricted. */
  function Discover(scopes: seq<Scope>): map<string, Option<set<string>>> {
    if scopes == [] then map[] else Fold(Discover(scopes[..|scopes| - 1]), scopes[|scopes| - 1])
  }

  function Fold(m: map<string, Option<set<string>>>, scope: Scope): map<string, Option<set<string>>> {
    if scope.wallet.None? then m
    else
      var w := scope.wallet.value;
      if scope.slugs == [] then m[w := None]
      else if w !in m then m[w := Some(SlugSet(scope.slugs))]
      else if m[w].Some? then m[w := Some(m[w].value + SlugSet(scope.slugs))]
      else m
  }

  lemma {:induction false} DiscoverOneMore(scopes: seq<Scope>, scope: Scope)
    ensures Discover(scopes + [scope]) == Fold(Discover(scopes), scope)
  {
    assert (scopes + [scope])[..|scopes|] == scopes;
  }

  /** The compiling loop, over the rules and over each rule's scopes. */
  method WalletDiscoveryScopes(current: seq<Rule>) returns (scopes: map<string, Option<set<string>>>)
    ensures scopes == Discover(AllScopes(current))
  {
    scopes := map[];
    var i := 0;
    while i < |current|
      invariant 0 <= i <= |current|
      invariant scopes == Discover(AllScopes(current[..i]))
    {
      assert current[..i + 1][..i] == current[..i];
      scopes := AddScopes(scopes, AllScopes(current[..i]), Scopes(current[i]));
      i := i + 1;
    }
    assert current[..|current|] == current;
  }

  method AddScopes(before: map<string, Option<set<string>>>, ghost done: seq<Scope>, own: seq<Scope>)
    returns (scopes: map<string, Option<set<string>>>)
    requires before == Discover(done)
    ensures scopes == Discover(done + own)
  {
    scopes := before;
    assert done + own[..0] == done;
    var j := 0;
    while j < |own|
      invariant 0 <= j <= |own|
      invariant scopes == Discover(done + own[..j])
    {
      var scope := own[j];
      DiscoverOneMore(done + own[..j], scope);
      assert done + own[..j + 1] == done + own[..j] + [scope];
      j := j + 1;
      if scope.wallet.None? { continue; }
      var wallet := scope.wallet.value;
      if scope.slugs == [] {
        scopes := scopes[wallet := None];
      } else if wallet !in scopes {
        scopes := scopes[wallet := Some(SlugSet(scope.slugs))];
      } else if scopes[wallet].Some? {
        scopes := scopes[wallet := Some(scopes[wallet].value + SlugSet(scope.slugs))];
      }
    }
    assert own[..|own|] == own;
  }

  // ---------- what it means ----------

  /** A wallet or a market of the rule, by the rule's own relation. */
  predicate Meaning(r: Rule, wallet: string, slug: Option<string>) {
    var named, listed := Lower(wallet) in r.wallets, slug.Some? && slug.value in r.slugs;
    if r.relation == Filtered then named && listed else named || listed
  }

  lemma {:induction false} WalletScopesMember(wallets: seq<string>, slugs: seq<string>, scope: Scope)
    ensures scope in WalletScopes(wallets, slugs) <==>
            scope.wallet.Some? && scope.wallet.value in wallets && scope.slugs == slugs
  {
    if wallets != [] {
      var front, last := wallets[..|wallets| - 1], wallets[|wallets| - 1];
      WalletScopesMember(front, slugs, scope);
      assert wallets == front + [last];
    }
  }

  lemma {:induction false} ScopesMember(r: Rule, scope: Scope)
    ensures scope in Scopes(r) <==>
            if scope.wallet.Some? then
              scope.wallet.value in r.wallets && scope.slugs == (if r.relation == Filtered then r.slugs else [])
            else r.relation == Independent && r.slugs != [] && scope.slugs == r.slugs
  {
    WalletScopesMember(r.wallets, if r.relation == Filtered then r.slugs else [], scope);
  }

  /** A rule accepts exactly what its relation says: both groups when filtered, either when independent. */
  lemma {:induction false} RuleAcceptsMeaning(r: Rule, wallet: string, slug: Option<string>)
    requires ValidRule(r)
    ensures RuleAccepts(r, wallet, slug) <==> Meaning(r, wallet, slug)
  {
    if RuleAccepts(r, wallet, slug) {
      var scope :| scope in Scopes(r) && ScopeAccepts(scope, wallet, slug);
      ScopesMember(r, scope);
    }
    if Meaning(r, wallet, slug) {
      var named := Scope(Some(Lower(wallet)), if r.relation == Filtered then r.slugs else []);
      var listed := Scope(None, r.slugs);
      ScopesMember(r, named);
      ScopesMember(r, listed);
      if Lower(wallet) in r.wallets && (r.relation == Independent || (slug.Some? && slug.value in r.slugs)) {
        assert named in Scopes(r) && ScopeAccepts(named, wallet, slug);
      } else {
        assert listed in Scopes(r) && ScopeAccepts(listed, wallet, slug);
      }
    }
  }

  ghost predicate Offered(rules: seq<Rule>, scope: Scope) {
    exists rule :: rule in rules && scope in Scopes(rule)
  }

  lemma {:induction false} OfferedStep(rules: seq<Rule>, scope: Scope)
    requires rules != []
    ensures Offered(rules, scope) <==> Offered(rules[..|rules| - 1], scope) || scope in Scopes(rules[|rules| - 1])
  {
    var front, last := rules[..|rules| - 1], rules[|rules| - 1];
    assert last in rules && forall r | r in rules :: r in front || r == last;
    assert forall r | r in front :: r in rules;
  }

  lemma {:induction false} AllScopesMember(rules: seq<Rule>, scope: Scope)
    ensures scope in AllScopes(rules) <==> Offered(rules, scope)
  {
    if rules != [] {
      AllScopesMember(rules[..|rules| - 1], scope);
      OfferedStep(rules, scope);
      InEither(AllScopes(rules[..|rules| - 1]), Scopes(rules[|rules| - 1]), scope);
    }
  }

  lemma {:induction false} InEither(a: seq<Scope>, b: seq<Scope>, scope: Scope)
    ensures scope in a + b <==> scope in a || scope in b
  {
  }

  ghost predicate ForWallet(scopes: seq<Scope>, w: string) {
    exists s :: s in scopes && s.wallet == Some(w)
  }

  ghost predicate Unrestricted(scopes: seq<Scope>, w: string) {
    exists s :: s in scopes && s.wallet == Some(w) && s.slugs == []
  }

  ghost predicate Grants(scopes: seq<Scope>, w: string, slug: string) {
    exists s :: s in scopes && s.wallet == Some(w) && slug in s.slugs
  }

  /** The folded scopes in full: which wallets, which unrestricted, and which slugs for the others. */
  lemma {:induction false} DiscoverMeans(scopes: seq<Scope>, w: string)
    ensures w in Discover(scopes) <==> ForWallet(scopes, w)
    ensures w in Discover(scopes) ==> (Discover(scopes)[w].None? <==> Unrestricted(scopes, w))
    ensures w in Discover(scopes) && Discover(scopes)[w].Some? ==>
              forall slug :: slug in Discover(scopes)[w].value <==> Grants(scopes, w, slug)
  {
    if scopes != [] {
      var front, last := scopes[..|scopes| - 1], scopes[|scopes| - 1];
      DiscoverMeans(front, w);
      assert scopes == front + [last];
      assert last in scopes && forall s | s in front :: s in scopes;
      forall slug ensures Grants(scopes, w, slug) <==> Grants(front, w, slug) || (last.wallet == Some(w) && slug in last.slugs) {
      }
    }
  }

  predicate Lists(r: Rule, w: string) { w in r.wallets }

  /** A wallet is unrestricted exactly when an independent rule names it: filtered rules only ever add slugs. */
  lemma {:induction false} OnlyIndependentRulesWiden(rules: seq<Rule>, w: string)
    requires forall r | r in rules :: ValidRule(r)
    ensures var m := Discover(AllScopes(rules));
            && (w in m <==> exists r :: r in rules && Lists(r, w))
            && (w in m ==> (m[w].None? <==> exists r :: r in rules && r.relation == Independent && Lists(r, w)))
            && (w in m && m[w].Some? ==> forall slug ::
                  slug in m[w].value <==> exists r :: r in rules && r.relation == Filtered && Lists(r, w) && slug in r.slugs)
  {
    var scopes := AllScopes(rules);
    DiscoverMeans(scopes, w);
    WalletsCompiled(rules, w);
    UnrestrictedCompiled(rules, w);
    var m := Discover(scopes);
    if w in m && m[w].Some? {
      forall slug ensures slug in m[w].value <==>
                exists r :: r in rules && r.relation == Filtered && Lists(r, w) && slug in r.slugs {
        GrantsCompiled(rules, w, slug);
      }
    }
  }

  lemma {:induction false} WalletsCompiled(rules: seq<Rule>, w: string)
    ensures ForWallet(AllScopes(rules), w) <==> exists r :: r in rules && Lists(r, w)
  {
    if ForWallet(AllScopes(rules), w) {
      var s :| s in AllScopes(rules) && s.wallet == Some(w);
      AllScopesMember(rules, s);
      var r :| r in rules && s in Scopes(r);
      ScopesMember(r, s);
      assert Lists(r, w);
    }
    if r :| r in rules && Lists(r, w) {
      var s := Scope(Some(w), if r.relation == Filtered then r.slugs else []);
      ScopesMember(r, s);
      AllScopesMember(rules, s);
    }
  }

  lemma {:induction false} UnrestrictedCompiled(rules: seq<Rule>, w: string)
    requires forall r | r in rules :: ValidRule(r)
    ensures Unrestricted(AllScopes(rules), w) <==> exists r :: r in rules && r.relation == Independent && Lists(r, w)
  {
    if Unrestricted(AllScopes(rules), w) {
      var s :| s in AllScopes(rules) && s.wallet == Some(w) && s.slugs == [];
      AllScopesMember(rules, s);
      var r :| r in rules && s in Scopes(r);
      ScopesMember(r, s);
      assert ValidRule(r) && Lists(r, w);
    }
    if r :| r in rules && r.relation == Independent && Lists(r, w) {
      var s := Scope(Some(w), []);
      ScopesMember(r, s);
      AllScopesMember(rules, s);
    }
  }

  lemma {:induction false} GrantsCompiled(rules: seq<Rule>, w: string, slug: string)
    ensures Grants(AllScopes(rules), w, slug) <==>
            exists r :: r in rules && r.relation == Filtered && Lists(r, w) && slug in r.slugs
  {
    if Grants(AllScopes(rules), w, slug) {
      var s :| s in AllScopes(rules) && s.wallet == Some(w) && slug in s.slugs;
      AllScopesMember(rules, s);
      var r :| r in rules && s in Scopes(r);
      ScopesMember(r, s);
      assert Lists(r, w);
    }
    if r :| r in rules && r.relation == Filtered && Lists(r, w) && slug in r.slugs {
      var s := Scope(Some(w), r.slugs);
      ScopesMember(r, s);
      AllScopesMember(rules, s);
    }
  }

  predicate Discovered(m: map<string, Option<set<string>>>, w: string, slug: Option<string>) {
    w in m && (m[w].None? || (slug.Some? && slug.value in m[w].value))
  }

  /** A nonempty plan accepts a trade exactly when the folded scopes hold the normalized wallet, unrestricted or
      with that slug, or an independent rule lists the slug. */
  lemma {:induction false} PlanAcceptsDiscovered(rules: seq<Rule>, wallet: string, slug: Option<string>)
    requires rules != [] && forall r | r in rules :: ValidRule(r)
    ensures PlanAccepts(rules, wallet, slug) <==>
            || Discovered(Discover(AllScopes(rules)), Lower(wallet), slug)
            || (slug.Some? && exists r :: r in rules && r.relation == Independent && slug.value in r.slugs)
  {
    var w := Lower(wallet);
    OnlyIndependentRulesWiden(rules, w);
    forall r | r in rules ensures RuleAccepts(r, wallet, slug) <==> Meaning(r, wallet, slug) {
      RuleAcceptsMeaning(r, wallet, slug);
    }
    if PlanAccepts(rules, wallet, slug) {
      var r :| r in rules && RuleAccepts(r, wallet, slug);
      assert Lists(r, w) <==> w in r.wallets;
    }
    if Discovered(Discover(AllScopes(rules)), w, slug) {
      var r :| r in rules && Lists(r, w) && Meaning(r, wallet, slug);
    }
    if r :| r in rules && slug.Some? && r.relation == Independent && slug.value in r.slugs {
      assert Meaning(r, wallet, slug);
    }
  }

  // ---------- construction ----------

  lemma {:induction false} DedupeFacts(s: seq<string>)
    ensures Distinct(Dedupe(s)) && forall x :: x in Dedupe(s) <==> x in s
  {
    if s != [] {
      DedupeFacts(s[..|s| - 1]);
      assert s == s[..|s| - 1] + [s[|s| - 1]];
    }
  }

  lemma {:induction false} DedupeDistinct(s: seq<string>)
    requires Distinct(s)
    ensures Dedupe(s) == s
  {
    if s != [] {
      DedupeDistinct(s[..|s| - 1]);
      assert s == s[..|s| - 1] + [s[|s| - 1]];
    }
  }

  lemma {:induction false} StripLeftFacts(s: string)
    ensures var r := StripLeft(s); (r == [] || !IsSpace(r[0])) && (s != [] && !IsSpace(s[0]) ==> r == s)
  {
    if s != [] && IsSpace(s[0]) {
      StripLeftFacts(s[1..]);
    }
  }

  lemma {:induction false} StripRightFacts(s: string)
    ensures var r := StripRight(s);
            && (r == [] || (!IsSpace(r[|r| - 1]) && r[0] == s[0]))
            && (s != [] && !IsSpace(s[|s| - 1]) ==> r == s)
  {
    if s != [] && IsSpace(s[|s| - 1]) {
      StripRightFacts(s[..|s| - 1]);
    }
  }

  lemma {:induction false} StripFacts(s: string)
    ensures Bare(Strip(s)) && (Bare(s) ==> Strip(s) == s)
  {
    StripLeftFacts(s);
    StripRightFacts(StripLeft(s));
  }

  lemma {:induction false} StrippedIsBare(s: seq<string>)
    ensures AllBare(Stripped(s))
  {
    if s != [] {
      StrippedIsBare(s[..|s| - 1]);
      StripFacts(s[|s| - 1]);
    }
  }

  lemma {:induction false} StripBare(s: string)
    requires Bare(s)
    ensures Strip(s) == s
  {
    StripFacts(s);
  }

  lemma {:induction false} StrippedSame(s: seq<string>)
    requires AllBare(s)
    ensures Stripped(s) == s
  {
    if s != [] {
      var front, last := s[..|s| - 1], s[|s| - 1];
      StrippedSame(front);
      StripBare(last);
      assert Stripped(s) == front + [last];
    }
  }

  lemma {:induction false} LowerFacts(s: string)
    ensures Lower(Lower(s)) == Lower(s)
    ensures Bare(s) <==> Bare(Lower(s))
  {
  }

  lemma {:induction false} LoweredFacts(s: seq<string>)
    requires AllBare(s)
    ensures AllBare(Lowered(s)) && AllLower(Lowered(s))
  {
    if s != [] {
      LoweredFacts(s[..|s| - 1]);
      LowerFacts(s[|s| - 1]);
    }
  }

  lemma {:induction false} LoweredSame(s: seq<string>)
    requires AllLower(s)
    ensures Lowered(s) == s
  {
    if s != [] {
      LoweredSame(s[..|s| - 1]);
    }
  }

  lemma {:induction false} DedupeKeeps(s: seq<string>)
    requires AllBare(s)
    ensures AllBare(Dedupe(s)) && (AllLower(s) ==> AllLower(Dedupe(s)))
  {
    if s != [] {
      DedupeKeeps(s[..|s| - 1]);
    }
  }

  lemma {:induction false} NormalizedMarkets(slugs: seq<string>)
    ensures var markets := Dedupe(Stripped(slugs));
            Distinct(markets) && AllBare(markets) && Dedupe(Stripped(markets)) == markets
  {
    var markets := Dedupe(Stripped(slugs));
    StrippedIsBare(slugs);
    DedupeFacts(Stripped(slugs));
    DedupeKeeps(Stripped(slugs));
    StrippedSame(markets);
    DedupeDistinct(markets);
  }

  lemma {:induction false} NormalizedWallets(wallets: seq<string>)
    ensures var addresses := Dedupe(Lowered(Stripped(wallets)));
            && Distinct(addresses) && AllBare(addresses) && AllLower(addresses)
            && Dedupe(Lowered(Stripped(addresses))) == addresses
  {
    var addresses := Dedupe(Lowered(Stripped(wallets)));
    StrippedIsBare(wallets);
    LoweredFacts(Stripped(wallets));
    DedupeFacts(Lowered(Stripped(wallets)));
    DedupeKeeps(Lowered(Stripped(wallets)));
    StrippedSame(addresses);
    LoweredSame(addresses);
    DedupeDistinct(addresses);
  }

  /** Construction normalizes, and normalizing what was constructed changes nothing. */
  lemma {:induction false} MadeRuleIsValid(relation: Relation, slugs: seq<string>, wallets: seq<string>)
    ensures var made := MakeRule(relation, slugs, wallets);
            made.Success? ==> ValidRule(made.value) &&
                              MakeRule(relation, made.value.slugs, made.value.wallets) == made
  {
    NormalizedMarkets(slugs);
    NormalizedWallets(wallets);
  }

  /** Construction is refused exactly when too few groups have a nonblank entry. */
  lemma {:induction false} RuleIsRefused(relation: Relation, slugs: seq<string>, wallets: seq<string>)
    ensures MakeRule(relation, slugs, wallets).Failure? <==>
            var markets, people := HasText(slugs), HasText(wallets);
            if relation == Filtered then !(markets && people) else !(markets || people)
  {
    TextSurvives(slugs);
    TextSurvives(wallets);
    DedupeFacts(Stripped(slugs));
    DedupeFacts(Lowered(Stripped(wallets)));
    NonemptyHasMember(Stripped(slugs), Dedupe(Stripped(slugs)));
    NonemptyHasMember(Lowered(Stripped(wallets)), Dedupe(Lowered(Stripped(wallets))));
    LoweredSize(Stripped(wallets));
  }

  predicate HasText(s: seq<string>) { exists x :: x in s && Strip(x) != [] }

  lemma {:induction false} TextSurvives(s: seq<string>)
    ensures Stripped(s) != [] <==> HasText(s)
  {
    if s != [] {
      var front, last := s[..|s| - 1], s[|s| - 1];
      TextSurvives(front);
      assert s == front + [last];
      if Strip(last) != [] {
        assert last in s;
      }
    }
  }

  lemma {:induction false} NonemptyHasMember(s: seq<string>, d: seq<string>)
    requires forall x :: x in d <==> x in s
    ensures s == [] <==> d == []
  {
    if s != [] { assert s[0] in d; }
    if d != [] { assert d[0] in s; }
  }

  lemma {:induction false} LoweredSize(s: seq<string>)
    ensures |Lowered(s)| == |s|
  {
    if s != [] {
      LoweredSize(s[..|s| - 1]);
    }
  }
}
