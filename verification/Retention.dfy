/**
 Retention rules: compiling them, what each one matches and saves, and how the
 opinions about one manifest are settled.
 Models internal/policy/retention.go.
 */
module Retention {
  import opened Wrappers
  import opened Order
  import opened Snapshots

  datatype TagStatus = AnyTags | Tagged | Untagged | UnknownStatus(text: string)

  datatype RuleKind = SelectMatched | KeepLastN | KeepNewerThan | KeepIfPulledSince | UnknownKind(text: string)

  datatype Rule = Rule(
    name: string,
    priority: int,
    kind: RuleKind,
    n: int,
    age: int,
    tagStatus: TagStatus,
    includeTags: seq<string>,
    excludeTags: seq<string>)

  /** A compiled pattern is the set of names it accepts. */
  datatype Regexp = Regexp(accepts: string -> bool)

  datatype CompiledRule = CompiledRule(rule: Rule, included: seq<Regexp>, excluded: seq<Regexp>)

  // ----- compiling -----

  datatype Fault =
    | NameMissing | NameTaken | KindUnknown | StatusUnknown
    | CountNegative | CountUnread | AgeNotPositive | AgeUnread
    | PatternEmpty | PatternUnreadable(pattern: string)

  datatype RuleError = RuleError(position: nat, fault: Fault)

  datatype Compiled = Rules(rules: seq<CompiledRule>) | BadRule(error: RuleError)

  type Compiler = string -> Option<Regexp>

  /** Patterns match whole tag names. */
  function Anchored(pattern: string): (r: string) { "\\A(?:" + pattern + ")\\z" }

  /** A rule may carry only the values its kind reads. */
  function KindFault(rule: Rule): (r: Option<Fault>)
    requires !rule.kind.UnknownKind?
  {
    match rule.kind
    case KeepLastN =>
      if rule.n < 0 then Some(CountNegative) else if rule.age != 0 then Some(AgeUnread) else None
    case SelectMatched =>
      if rule.n != 0 then Some(CountUnread) else if rule.age != 0 then Some(AgeUnread) else None
    case _ =>
      if rule.age <= 0 then Some(AgeNotPositive) else if rule.n != 0 then Some(CountUnread) else None
  }

  ghost predicate KindFieldsOk(rule: Rule) {
    match rule.kind
    case KeepLastN => rule.n >= 0 && rule.age == 0
    case SelectMatched => rule.n == 0 && rule.age == 0
    case UnknownKind(_) => false
    case _ => rule.age > 0 && rule.n == 0
  }

  ghost predicate PatternsOk(patterns: seq<string>, compile: Compiler) {
    forall i {:trigger patterns[i]} :: 0 <= i < |patterns| ==> patterns[i] != "" && compile(Anchored(patterns[i])).Some?
  }

  ghost predicate RuleOk(rule: Rule, compile: Compiler) {
    && rule.name != ""
    && !rule.tagStatus.UnknownStatus?
    && KindFieldsOk(rule)
    && PatternsOk(rule.includeTags, compile)
    && PatternsOk(rule.excludeTags, compile)
  }

  ghost predicate DistinctNames(rules: seq<Rule>) {
    forall i, j :: 0 <= i < j < |rules| ==> rules[i].name != rules[j].name
  }

  ghost predicate RuleSetOk(rules: seq<Rule>, compile: Compiler) {
    && (forall i {:trigger rules[i]} :: 0 <= i < |rules| ==> RuleOk(rules[i], compile))
    && DistinctNames(rules)
  }

  ghost predicate CompilesTo(patterns: seq<string>, compile: Compiler, res: seq<Regexp>) {
    && |res| == |patterns|
    && forall i {:trigger res[i]} :: 0 <= i < |res| ==> compile(Anchored(patterns[i])) == Some(res[i])
  }

  ghost predicate CompiledFrom(r: CompiledRule, rule: Rule, compile: Compiler) {
    && r.rule == rule
    && CompilesTo(rule.includeTags, compile, r.included)
    && CompilesTo(rule.excludeTags, compile, r.excluded)
  }

  /** The pattern a fault is about is one of these, and the first that is faulty. */
  ghost predicate PatternBlamed(patterns: seq<string>, compile: Compiler, fault: Fault) {
    exists i {:trigger patterns[i]} :: 0 <= i < |patterns| && PatternsOk(patterns[..i], compile)
      && if patterns[i] == "" then fault == PatternEmpty
         else compile(Anchored(patterns[i])).None? && fault == PatternUnreadable(patterns[i])
  }

  /** What is wrong with a named rule, in the order it is looked for. */
  ghost predicate RuleBlamed(rule: Rule, compile: Compiler, fault: Fault) {
    if rule.kind.UnknownKind? then fault == KindUnknown
    else if rule.tagStatus.UnknownStatus? then fault == StatusUnknown
    else if KindFault(rule).Some? then fault == KindFault(rule).value
    else if !PatternsOk(rule.includeTags, compile) then PatternBlamed(rule.includeTags, compile, fault)
    else PatternBlamed(rule.excludeTags, compile, fault)
  }

  /** What is wrong with a rule that follows others. */
  ghost predicate Blamed(rules: seq<Rule>, i: nat, compile: Compiler, fault: Fault)
    requires i < |rules|
  {
    if rules[i].name == "" then fault == NameMissing
    else if exists k :: 0 <= k < i && rules[k].name == rules[i].name then fault == NameTaken
    else RuleBlamed(rules[i], compile, fault)
  }

  method CompilePatterns(patterns: seq<string>, compile: Compiler) returns (fault: Option<Fault>, res: seq<Regexp>)
    ensures fault.None? <==> PatternsOk(patterns, compile)
    ensures fault.None? ==> CompilesTo(patterns, compile, res)
    ensures fault.Some? ==> PatternBlamed(patterns, compile, fault.value)
  {
    res := [];
    for i := 0 to |patterns|
      invariant PatternsOk(patterns[..i], compile)
      invariant CompilesTo(patterns[..i], compile, res)
    {
      assert patterns[..i + 1][i] == patterns[i];
      if patterns[i] == "" { return Some(PatternEmpty), res; }
      var re := compile(Anchored(patterns[i]));
      if re.None? { return Some(PatternUnreadable(patterns[i])), res; }
      res := res + [re.value];
      assert forall k :: 0 <= k < i ==> patterns[..i + 1][k] == patterns[..i][k];
    }
    assert patterns[..|patterns|] == patterns;
    fault := None;
  }

  method CompileRule(rule: Rule, compile: Compiler) returns (fault: Option<Fault>, r: CompiledRule)
    requires rule.name != ""
    ensures fault.None? <==> RuleOk(rule, compile)
    ensures fault.None? ==> CompiledFrom(r, rule, compile)
    ensures fault.Some? ==> RuleBlamed(rule, compile, fault.value)
  {
    r := CompiledRule(rule, [], []);
    if rule.kind.UnknownKind? { return Some(KindUnknown), r; }
    if rule.tagStatus.UnknownStatus? { return Some(StatusUnknown), r; }
    fault := KindFault(rule);
    if fault.Some? { return; }
    var included, excluded;
    fault, included := CompilePatterns(rule.includeTags, compile);
    if fault.Some? { return; }
    fault, excluded := CompilePatterns(rule.excludeTags, compile);
    r := CompiledRule(rule, included, excluded);
  }

  /** Compiles a rule set, or names the first rule that cannot mean what it says. */
  method CompileRules(rules: seq<Rule>, compile: Compiler) returns (r: Compiled)
    ensures r.Rules? <==> RuleSetOk(rules, compile)
    ensures r.Rules? ==>
          && |r.rules| == |rules|
          && forall i {:trigger r.rules[i]} :: 0 <= i < |rules| ==> CompiledFrom(r.rules[i], rules[i], compile)
    ensures r.BadRule? ==>
          && r.error.position < |rules|
          && RuleSetOk(rules[..r.error.position], compile)
          && Blamed(rules, r.error.position, compile, r.error.fault)
  {
    var set_: seq<CompiledRule> := [];
    var names: set<string> := {};
    for i := 0 to |rules|
      invariant RuleSetOk(rules[..i], compile)
      invariant forall n {:trigger n in names} :: n in names <==> exists k :: 0 <= k < i && rules[k].name == n
      invariant |set_| == i && forall k {:trigger set_[k]} :: 0 <= k < i ==> CompiledFrom(set_[k], rules[k], compile)
    {
      var rule := rules[i];
      assert rules[..i + 1][i] == rule;
      assert forall k :: 0 <= k < i ==> rules[..i + 1][k] == rules[..i][k] == rules[k];
      if rule.name == "" { BadPrefix(rules, i, compile); return BadRule(RuleError(i, NameMissing)); }
      if rule.name in names { BadPrefix(rules, i, compile); return BadRule(RuleError(i, NameTaken)); }
      names := names + {rule.name};
      var fault, compiled := CompileRule(rule, compile);
      if fault.Some? { BadPrefix(rules, i, compile); return BadRule(RuleError(i, fault.value)); }
      set_ := set_ + [compiled];
    }
    assert rules[..|rules|] == rules;
    r := Rules(set_);
  }

  lemma BadPrefix(rules: seq<Rule>, i: nat, compile: Compiler)
    requires i < |rules| && !RuleSetOk(rules[..i + 1], compile)
    ensures !RuleSetOk(rules, compile)
  {
    var t := rules[..i + 1];
    assert forall k :: 0 <= k < |t| ==> t[k] == rules[k];
  }

  // ----- what a rule matches and saves -----

  predicate AnyAccepts(res: seq<Regexp>, tags: seq<Tag>) {
    exists i, j :: 0 <= i < |tags| && 0 <= j < |res| && res[j].accepts(tags[i].name)
  }

  predicate StatusAdmits(status: TagStatus, m: Manifest) {
    match status
    case Tagged => |m.tags| > 0
    case Untagged => |m.tags| == 0
    case _ => true
  }

  /** Whether the rule has an opinion about a manifest at all. */
  predicate Matches(r: CompiledRule, m: Manifest) {
    && StatusAdmits(r.rule.tagStatus, m)
    && !AnyAccepts(r.excluded, m.tags)
    && (r.included == [] || AnyAccepts(r.included, m.tags))
  }

  ghost function MatchedBy(c: Catalog, r: CompiledRule): (X: set<Digest>)
    ensures X <= c.Keys
  {
    set d | d in Selectable(c) && Matches(r, c[d])
  }

  predicate Outranks(a: Manifest, b: Manifest) {
    a.pushedAt > b.pushedAt || (a.pushedAt == b.pushedAt && LexLt(a.digest, b.digest))
  }

  /** The members of `X` pushed more recently than `d`, ties by digest. */
  ghost function Ahead(c: Catalog, X: set<Digest>, d: Digest): (r: set<Digest>)
    requires X <= c.Keys && d in c
  {
    set x | x in X && Outranks(c[x], c[d])
  }

  function LastUse(m: Manifest): (r: Time) { if m.lastPulledAt == 0 then m.pushedAt else m.lastPulledAt }

  /** Whether the rule saves `d` out of the matched set `X`. */
  ghost predicate Saves(c: Catalog, X: set<Digest>, r: CompiledRule, now: Time, d: Digest)
    requires X <= c.Keys && d in X
  {
    match r.rule.kind
    case KeepLastN => |Ahead(c, X, d)| < r.rule.n
    case KeepNewerThan => c[d].pushedAt > now - r.rule.age
    case KeepIfPulledSince => LastUse(c[d]) > now - r.rule.age
    case _ => false
  }

  predicate ByRecency(a: Manifest, b: Manifest) {
    a.pushedAt > b.pushedAt || (a.pushedAt == b.pushedAt && LexLe(a.digest, b.digest))
  }

  lemma RecencyOrder()
    ensures TotalPreorder(ByRecency)
  {
    LexOrder();
  }

  /** In a ranking, those ahead of a manifest are those listed before it. */
  lemma AheadIsPrefix(c: Catalog, X: set<Digest>, ranked: seq<Manifest>, i: nat)
    requires X <= c.Keys && Keyed(c) && i < |ranked|
    requires Ranking(c, X, ranked)
    ensures Ahead(c, X, ranked[i].digest) == Elems(DigestsOf(ranked[..i]))
    ensures |Ahead(c, X, ranked[i].digest)| == i
  {
    var ahead, front := Ahead(c, X, ranked[i].digest), DigestsOf(ranked[..i]);
    forall x ensures x in ahead <==> x in front {
      if x in ahead {
        var k :| 0 <= k < |ranked| && DigestsOf(ranked)[k] == x;
        assert ranked[k].digest == x;
        if k > i {
          assert ByRecency(ranked[i], ranked[k]);
          RankedStrictly(c, X, ranked, i, k);
          OutranksOnce(ranked[i], ranked[k]);
        }
        assert k < i ==> front[k] == x;
      }
      if x in front {
        var k :| 0 <= k < i && front[k] == x;
        assert ranked[k].digest == x && ranked[k].digest in X;
        RankedStrictly(c, X, ranked, k, i);
      }
    }
    assert forall k :: 0 <= k < i ==> front[k] == DigestsOf(ranked)[k];
    DistinctSize(front);
  }

  lemma OutranksOnce(a: Manifest, b: Manifest)
    requires Outranks(a, b)
    ensures !Outranks(b, a)
  {
    if LexLe(a.digest, b.digest) && LexLe(b.digest, a.digest) { LexAntisymmetric(a.digest, b.digest); }
  }

  /** The rows of `X`, most recently pushed first. */
  ghost predicate Ranking(c: Catalog, X: set<Digest>, ranked: seq<Manifest>)
    requires X <= c.Keys
  {
    && (forall i {:trigger ranked[i]} ::
          0 <= i < |ranked| ==> ranked[i].digest in X && ranked[i] == c[ranked[i].digest])
    && (forall x {:trigger x in X} :: x in X <==> x in DigestsOf(ranked))
    && Distinct(DigestsOf(ranked))
    && SortedBy(ByRecency, ranked)
  }

  lemma RankedStrictly(c: Catalog, X: set<Digest>, ranked: seq<Manifest>, i: nat, j: nat)
    requires X <= c.Keys && Ranking(c, X, ranked) && i < j < |ranked|
    ensures Outranks(ranked[i], ranked[j])
  {
    assert ByRecency(ranked[i], ranked[j]);
    assert DigestsOf(ranked)[i] != DigestsOf(ranked)[j];
  }

  lemma SortGivesRanking(c: Catalog, X: set<Digest>, matched: seq<Manifest>, ranked: seq<Manifest>)
    requires X <= c.Keys && Keyed(c) && matched == Pick(c, SortedSeq(X))
    requires multiset(ranked) == multiset(matched) && SortedBy(ByRecency, ranked)
    ensures Ranking(c, X, ranked)
  {
    var keys := SortedSeq(X);
    IncreasingDistinct(keys);
    assert forall i :: 0 <= i < |matched| ==> keys[i] in X && matched[i].digest == keys[i];
    assert Distinct(matched) by {
      forall i, j | 0 <= i < j < |matched| ensures matched[i] != matched[j] { assert keys[i] != keys[j]; }
    }
    PermutationDistinct(matched, ranked);
    RankingRows(c, X, matched, ranked);
    RankingCovers(c, X, matched, ranked);
    var ds := DigestsOf(ranked);
    forall i, j | 0 <= i < j < |ds|
      ensures ds[i] != ds[j]
    {
      assert ranked[i] == c[ranked[i].digest] && ranked[j] == c[ranked[j].digest] && ranked[i] != ranked[j];
    }
  }

  lemma RankingRows(c: Catalog, X: set<Digest>, matched: seq<Manifest>, ranked: seq<Manifest>)
    requires X <= c.Keys && Keyed(c) && matched == Pick(c, SortedSeq(X))
    requires forall x :: x in matched <==> x in ranked
    ensures forall i {:trigger ranked[i]} ::
          0 <= i < |ranked| ==> ranked[i].digest in X && ranked[i] == c[ranked[i].digest]
  {
    forall i | 0 <= i < |ranked|
      ensures ranked[i].digest in X && ranked[i] == c[ranked[i].digest]
    {
      assert ranked[i] in matched;
      var k :| 0 <= k < |matched| && matched[k] == ranked[i];
      assert SortedSeq(X)[k] in X;
    }
  }

  lemma RankingCovers(c: Catalog, X: set<Digest>, matched: seq<Manifest>, ranked: seq<Manifest>)
    requires X <= c.Keys && Keyed(c) && matched == Pick(c, SortedSeq(X))
    requires forall x :: x in matched <==> x in ranked
    requires forall i {:trigger ranked[i]} :: 0 <= i < |ranked| ==> ranked[i].digest in X
    ensures forall x {:trigger x in X} :: x in X <==> x in DigestsOf(ranked)
  {
    forall x ensures x in X <==> x in DigestsOf(ranked) {
      if x in X {
        var k :| 0 <= k < |SortedSeq(X)| && SortedSeq(X)[k] == x;
        assert matched[k] in matched;
        var i :| 0 <= i < |ranked| && ranked[i] == matched[k];
        assert DigestsOf(ranked)[i] == x;
      }
      if x in DigestsOf(ranked) {
        var i :| 0 <= i < |ranked| && DigestsOf(ranked)[i] == x;
        assert ranked[i].digest in X;
      }
    }
  }

  ghost function Kept(c: Catalog, X: set<Digest>, r: CompiledRule, now: Time): (K: set<Digest>)
    requires X <= c.Keys
  {
    set d | d in X && Saves(c, X, r, now, d)
  }

  /** The N most recently pushed: rank a copy, keep a prefix. */
  method KeepNewest(matched: seq<Manifest>, n: int, ghost c: Catalog, ghost X: set<Digest>) returns (kept: set<Digest>)
    requires X <= c.Keys && Keyed(c) && matched == Pick(c, SortedSeq(X))
    ensures kept == set d | d in X && |Ahead(c, X, d)| < n
  {
    RecencyOrder();
    var ranked := SortBy(ByRecency, matched);
    SortGivesRanking(c, X, matched, ranked);
    ghost var index;
    kept, index := TakeDigests(ranked, n);
    NewestKept(c, X, ranked, index, n);
  }

  method TakeDigests(ranked: seq<Manifest>, n: int) returns (kept: set<Digest>, ghost taken: nat)
    ensures taken <= |ranked| && (taken <= n || taken == 0) && (taken == |ranked| || taken >= n)
    ensures kept == Elems(DigestsOf(ranked[..taken]))
  {
    kept := {};
    var index := 0;
    while index < |ranked| && index < n
      invariant 0 <= index <= |ranked| && (index <= n || index == 0)
      invariant kept == Elems(DigestsOf(ranked[..index]))
    {
      kept := kept + {ranked[index].digest};
      assert DigestsOf(ranked[..index + 1]) == DigestsOf(ranked[..index]) + [ranked[index].digest];
      index := index + 1;
    }
    taken := index;
  }

  lemma NewestKept(c: Catalog, X: set<Digest>, ranked: seq<Manifest>, index: nat, n: int)
    requires X <= c.Keys && Keyed(c) && Ranking(c, X, ranked)
    requires index <= |ranked| && (index <= n || index == 0) && (index == |ranked| || index >= n)
    ensures Elems(DigestsOf(ranked[..index])) == set d | d in X && |Ahead(c, X, d)| < n
  {
    forall d | d in X
      ensures d in DigestsOf(ranked[..index]) <==> |Ahead(c, X, d)| < n
    {
      var k :| 0 <= k < |ranked| && DigestsOf(ranked)[k] == d;
      AheadIsPrefix(c, X, ranked, k);
      if k < index { assert DigestsOf(ranked[..index])[k] == d; }
      if d in DigestsOf(ranked[..index]) {
        var j :| 0 <= j < index && DigestsOf(ranked[..index])[j] == d;
        assert DigestsOf(ranked)[j] == d && j == k;
      }
    }
    forall d | d in DigestsOf(ranked[..index])
      ensures d in X
    {
      var j :| 0 <= j < index && DigestsOf(ranked[..index])[j] == d;
      assert ranked[j].digest in X;
    }
  }

  /** Those used after a cutoff. */
  method KeepSince(matched: seq<Manifest>, cutoff: Time, byPull: bool, ghost c: Catalog, ghost X: set<Digest>)
    returns (kept: set<Digest>)
    requires X <= c.Keys && Keyed(c) && matched == Pick(c, SortedSeq(X))
    ensures kept == set d | d in X && (if byPull then LastUse(c[d]) else c[d].pushedAt) > cutoff
  {
    kept := {};
    ghost var keys := SortedSeq(X);
    for i := 0 to |matched|
      invariant forall d {:trigger d in kept} ::
            d in kept <==> d in keys[..i] && d in X && (if byPull then LastUse(c[d]) else c[d].pushedAt) > cutoff
    {
      var m := matched[i];
      assert keys[i] in X && m.digest == keys[i] && c[keys[i]] == m;
      assert keys[..i + 1] == keys[..i] + [keys[i]];
      var reference := m.pushedAt;
      if byPull && m.lastPulledAt != 0 { reference := m.lastPulledAt; }
      if reference > cutoff { kept := kept + {m.digest}; }
    }
    assert keys[..|matched|] == keys;
  }

  /** The digests the rule saves out of the manifests it matched. */
  method Keeps(r: CompiledRule, matched: seq<Manifest>, now: Time, ghost c: Catalog, ghost X: set<Digest>)
    returns (kept: set<Digest>)
    requires X <= c.Keys && Keyed(c) && matched == Pick(c, SortedSeq(X))
    ensures kept == Kept(c, X, r, now)
  {
    match r.rule.kind {
      case KeepLastN => kept := KeepNewest(matched, r.rule.n, c, X);
      case KeepNewerThan => kept := KeepSince(matched, now - r.rule.age, false, c, X);
      case KeepIfPulledSince => kept := KeepSince(matched, now - r.rule.age, true, c, X);
      case _ => kept := {};
    }
  }

  // ----- opinions and how they are settled -----

  datatype Opinion = Opinion(rule: string, priority: int, kind: RuleKind, keep: bool)

  datatype Conflict = Conflict(digest: Digest, priority: int, selecting: seq<string>, keeping: seq<string>)

  datatype Verdict = Verdict(
    applicable: bool, keep: bool, rule: string, kind: RuleKind, priority: int, agreeing: seq<string>)

  datatype Ruling = Decided(verdict: Verdict) | Clash(conflict: Conflict)

  const SILENT := Verdict(false, false, "", UnknownKind(""), 0, [])

  ghost predicate IsTier(ops: set<Opinion>, p: int) {
    (exists o :: o in ops && o.priority == p) && forall o :: o in ops ==> p <= o.priority
  }

  lemma {:induction false} TierExists(ops: set<Opinion>) returns (p: int)
    requires ops != {}
    ensures IsTier(ops, p)
  {
    var o :| o in ops;
    p := o.priority;
    if ops != {o} {
      var q := TierExists(ops - {o});
      assert forall x :: x in ops ==> x == o || x in ops - {o};
      if q < p { p := q; }
    }
  }

  /** The strongest precedence with an opinion: the lowest number. */
  ghost function Tier(ops: set<Opinion>): (p: int)
    requires ops != {}
    ensures IsTier(ops, p)
  {
    assert exists p :: IsTier(ops, p) by { var p := TierExists(ops); }
    var p :| IsTier(ops, p);
    p
  }

  ghost function Voices(ops: set<Opinion>, p: int, keep: bool): (names: set<string>) {
    set o | o in ops && o.priority == p && o.keep == keep :: o.rule
  }

  ghost function KindOf(ops: set<Opinion>, rule: string): (k: RuleKind)
    requires exists o :: o in ops && o.rule == rule
  {
    var o :| o in ops && o.rule == rule; o.kind
  }

  lemma VoicesSpoke(ops: set<Opinion>)
    requires ops != {}
    ensures Voices(ops, Tier(ops), true) != {} || Voices(ops, Tier(ops), false) != {}
  {
    var o :| o in ops && o.priority == Tier(ops);
    assert o.rule in Voices(ops, Tier(ops), o.keep);
  }

  /** Only the strongest tier is consulted; within it disagreement is a conflict
      and agreement names the first rule by name. */
  ghost function Settle(d: Digest, ops: set<Opinion>): (r: Ruling) {
    if ops == {} then Decided(SILENT)
    else
      var p := Tier(ops);
      var keeping, selecting := Voices(ops, p, true), Voices(ops, p, false);
      if keeping != {} && selecting != {} then Clash(Conflict(d, p, SortedSeq(selecting), SortedSeq(keeping)))
      else
        VoicesSpoke(ops);
        var deciders := SortedSeq(if keeping != {} then keeping else selecting);
        assert deciders[0] in deciders;
        Decided(Verdict(true, keeping != {}, deciders[0], KindOf(ops, deciders[0]), p, deciders[1..]))
  }

  /** The lowest priority in the list. */
  method Best(opinions: seq<Opinion>) returns (best: int)
    requires opinions != []
    ensures IsTier(Elems(opinions), best)
  {
    best := opinions[0].priority;
    for i := 1 to |opinions|
      invariant exists k :: 0 <= k < i && opinions[k].priority == best
      invariant forall k {:trigger opinions[k]} :: 0 <= k < i ==> best <= opinions[k].priority
    {
      if opinions[i].priority < best { best := opinions[i].priority; }
    }
    ghost var k :| 0 <= k < |opinions| && opinions[k].priority == best;
    assert opinions[k] in Elems(opinions);
  }

  ghost predicate Sorting(opinions: seq<Opinion>, best: int, keep: bool, names: seq<string>) {
    && Distinct(names)
    && forall n {:trigger n in names} :: n in names <==> n in Voices(Elems(opinions), best, keep)
  }

  ghost predicate DistinctRules(opinions: seq<Opinion>) {
    forall i, j :: 0 <= i < j < |opinions| ==> opinions[i].rule != opinions[j].rule
  }

  lemma SortingSnoc(opinions: seq<Opinion>, best: int, keep: bool, names: seq<string>, o: Opinion)
    requires Sorting(opinions, best, keep, names)
    requires forall i :: 0 <= i < |opinions| ==> opinions[i].rule != o.rule
    ensures Sorting(opinions + [o], best, keep,
          if o.priority == best && o.keep == keep then names + [o.rule] else names)
  {
    var all := opinions + [o];
    var A, B := Voices(Elems(opinions), best, keep), Voices(Elems(all), best, keep);
    assert Elems(all) == Elems(opinions) + {o};
    assert o.rule !in A;
    assert o.rule !in names;
    forall n ensures n in B <==> n in A || (n == o.rule && o.priority == best && o.keep == keep) {
      if n in A {
        var x :| x in Elems(opinions) && x.priority == best && x.keep == keep && x.rule == n;
        assert x in Elems(all);
      }
      if n == o.rule && o.priority == best && o.keep == keep { assert o in Elems(all); }
    }
  }

  /** The names at the best priority, split into those that keep and those that select. */
  method Split(opinions: seq<Opinion>, best: int)
    returns (selecting: seq<string>, keeping: seq<string>, kinds: map<string, RuleKind>)
    requires DistinctRules(opinions)
    ensures Sorting(opinions, best, false, selecting) && Sorting(opinions, best, true, keeping)
    ensures forall i {:trigger opinions[i]} ::
          0 <= i < |opinions| && opinions[i].priority == best ==>
            opinions[i].rule in kinds && kinds[opinions[i].rule] == opinions[i].kind
  {
    selecting, keeping, kinds := [], [], map[];
    assert opinions[..0] == [];
    for i := 0 to |opinions|
      invariant Sorting(opinions[..i], best, false, selecting) && Sorting(opinions[..i], best, true, keeping)
      invariant forall k {:trigger opinions[k]} ::
            0 <= k < i && opinions[k].priority == best ==>
              opinions[k].rule in kinds && kinds[opinions[k].rule] == opinions[k].kind
    {
      var o := opinions[i];
      SortingSnoc(opinions[..i], best, false, selecting, o);
      SortingSnoc(opinions[..i], best, true, keeping, o);
      assert opinions[..i + 1] == opinions[..i] + [o];
      if o.priority != best { continue; }
      kinds := kinds[o.rule := o.kind];
      if o.keep { keeping := keeping + [o.rule]; } else { selecting := selecting + [o.rule]; }
    }
    assert opinions[..|opinions|] == opinions;
  }

  lemma SortingListed(opinions: seq<Opinion>, best: int, keep: bool, names: seq<string>)
    requires Sorting(opinions, best, keep, names)
    ensures SortStrings(names) == SortedSeq(Voices(Elems(opinions), best, keep))
  {
    SortStringsDistinct(names);
    assert Elems(names) == Voices(Elems(opinions), best, keep);
  }

  lemma KindFound(opinions: seq<Opinion>, best: int, keep: bool, kinds: map<string, RuleKind>, rule: string)
    requires DistinctRules(opinions) && rule in Voices(Elems(opinions), best, keep)
    requires forall i {:trigger opinions[i]} ::
          0 <= i < |opinions| && opinions[i].priority == best ==>
            opinions[i].rule in kinds && kinds[opinions[i].rule] == opinions[i].kind
    ensures exists o :: o in Elems(opinions) && o.rule == rule
    ensures rule in kinds && kinds[rule] == KindOf(Elems(opinions), rule)
  {
    var o :| o in Elems(opinions) && o.priority == best && o.keep == keep && o.rule == rule;
    var i :| 0 <= i < |opinions| && opinions[i] == o;
    var x :| x in Elems(opinions) && x.rule == rule && x.kind == KindOf(Elems(opinions), rule);
    var j :| 0 <= j < |opinions| && opinions[j] == x;
    assert i == j;
  }

  /** Reduces one manifest's opinions to a verdict, or to the conflict that stops
      the evaluation; the order of the opinions is not looked at. */
  method Resolve(digest: Digest, opinions: seq<Opinion>) returns (r: Ruling)
    requires DistinctRules(opinions)
    ensures r == Settle(digest, Elems(opinions))
  {
    if |opinions| == 0 { return Decided(SILENT); }
    assert opinions[0] in Elems(opinions);
    var best := Best(opinions);
    assert best == Tier(Elems(opinions));
    var selecting, keeping, kinds := Split(opinions, best);
    SortingListed(opinions, best, false, selecting);
    SortingListed(opinions, best, true, keeping);
    VoicesSpoke(Elems(opinions));
    selecting, keeping := SortStrings(selecting), SortStrings(keeping);
    if |selecting| > 0 && |keeping| > 0 {
      return Clash(Conflict(digest, best, selecting, keeping));
    }
    var deciders, keep := selecting, false;
    if |keeping| > 0 { deciders, keep := keeping, true; }
    assert deciders[0] in deciders;
    KindFound(opinions, best, keep, kinds, deciders[0]);
    var agreeing: seq<string> := [];
    if |deciders| > 1 { agreeing := deciders[1..]; }
    r := Decided(Verdict(true, keep, deciders[0], kinds[deciders[0]], best, agreeing));
  }
}
