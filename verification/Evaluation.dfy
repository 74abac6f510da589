/**
 `Evaluate`: gather every rule's opinion about every selectable manifest, settle
 each manifest, and either report the conflicts or build the plan.
 Models `Evaluate` of internal/policy/retention.go; the meaning it is proved
 against, `EvaluationOf`, reads the rules as a set and the snapshot as a catalog.
 */
module Evaluation {
  import opened Order
  import opened Snapshots
  import opened Inventories
  import opened Retention
  import opened Plans

  datatype Evaluated = Planned(plan: Plan) | Conflicting(conflicts: seq<Conflict>) | NoInventory | NoEvaluationTime

  // ----- what an evaluation means -----

  /** What rule `r` says about a manifest it matches. */
  ghost function Voice(c: Catalog, r: CompiledRule, now: Time, d: Digest): (o: Opinion) {
    Opinion(r.rule.name, r.rule.priority, r.rule.kind, d in Kept(c, MatchedBy(c, r), r, now))
  }

  ghost function VoicesAbout(c: Catalog, R: set<CompiledRule>, now: Time, d: Digest): (ops: set<Opinion>) {
    set r | r in R && d in MatchedBy(c, r) :: Voice(c, r, now, d)
  }

  ghost function RulingOf(c: Catalog, R: set<CompiledRule>, now: Time, d: Digest): (r: Ruling) {
    Settle(d, VoicesAbout(c, R, now, d))
  }

  type Rulings = map<Digest, Ruling>

  /** Every selectable manifest's ruling. */
  ghost function RulingsOf(c: Catalog, R: set<CompiledRule>, now: Time): (g: Rulings) {
    map d | d in Selectable(c) :: RulingOf(c, R, now, d)
  }

  ghost function Disputed(g: Rulings): (D: set<Digest>) {
    set d | d in g && g[d].Clash?
  }

  ghost function VerdictsIn(g: Rulings): (v: Verdicts) {
    map d | d in g && g[d].Decided? :: g[d].verdict
  }

  ghost function ConflictsFor(g: Rulings, ds: seq<Digest>): (r: seq<Conflict>)
    requires forall d :: d in ds ==> d in Disputed(g)
    ensures |r| == |ds|
    ensures forall i {:trigger r[i]} :: 0 <= i < |ds| ==> ds[i] in Disputed(g) && r[i] == g[ds[i]].conflict
  {
    seq(|ds|, i requires 0 <= i < |ds| => assert ds[i] in Disputed(g); g[ds[i]].conflict)
  }

  ghost function EvaluationOf(repository: string, c: Catalog, R: set<CompiledRule>, now: Time): (e: Evaluated) {
    var g := RulingsOf(c, R, now);
    if Disputed(g) != {} then Conflicting(ConflictsFor(g, SortedSeq(Disputed(g))))
    else Planned(PlanOf(repository, c, VerdictsIn(g), now))
  }

  // ----- gathering opinions -----

  ghost function OpinionsOf(c: Catalog, rules: seq<CompiledRule>, now: Time, d: Digest): (ops: seq<Opinion>) {
    if rules == [] then []
    else
      var last := rules[|rules| - 1];
      OpinionsOf(c, rules[..|rules| - 1], now, d) + (if d in MatchedBy(c, last) then [Voice(c, last, now, d)] else [])
  }

  lemma OpinionsSnoc(c: Catalog, rules: seq<CompiledRule>, r: CompiledRule, now: Time, d: Digest)
    ensures OpinionsOf(c, rules + [r], now, d) ==
          OpinionsOf(c, rules, now, d) + (if d in MatchedBy(c, r) then [Voice(c, r, now, d)] else [])
  {
    assert (rules + [r])[..|rules|] == rules;
  }

  ghost predicate NamedApart(rules: seq<CompiledRule>) {
    forall i, j :: 0 <= i < j < |rules| ==> rules[i].rule.name != rules[j].rule.name
  }

  /** Every opinion is some rule's voice. */
  lemma {:induction false} OpinionFrom(c: Catalog, rules: seq<CompiledRule>, now: Time, d: Digest, o: Opinion)
    returns (k: nat)
    requires o in OpinionsOf(c, rules, now, d)
    ensures k < |rules| && d in MatchedBy(c, rules[k]) && o == Voice(c, rules[k], now, d)
  {
    k := |rules| - 1;
    var front := rules[..|rules| - 1];
    if !(d in MatchedBy(c, rules[k]) && o == Voice(c, rules[k], now, d)) {
      k := OpinionFrom(c, front, now, d, o);
    }
  }

  lemma {:induction false} OpinionOf(c: Catalog, rules: seq<CompiledRule>, now: Time, d: Digest, k: nat)
    requires k < |rules| && d in MatchedBy(c, rules[k])
    ensures Voice(c, rules[k], now, d) in OpinionsOf(c, rules, now, d)
  {
    if k < |rules| - 1 {
      OpinionOf(c, rules[..|rules| - 1], now, d, k);
    }
  }

  /** The gathered list holds exactly the voices, whatever the order of the rules. */
  lemma OpinionsAreVoices(c: Catalog, rules: seq<CompiledRule>, now: Time, d: Digest)
    ensures Elems(OpinionsOf(c, rules, now, d)) == VoicesAbout(c, Elems(rules), now, d)
  {
    var ops, voices := Elems(OpinionsOf(c, rules, now, d)), VoicesAbout(c, Elems(rules), now, d);
    forall o | o in ops
      ensures o in voices
    {
      var k := OpinionFrom(c, rules, now, d, o);
      assert rules[k] in Elems(rules);
    }
    forall o | o in voices
      ensures o in ops
    {
      var r :| r in Elems(rules) && d in MatchedBy(c, r) && o == Voice(c, r, now, d);
      var k :| 0 <= k < |rules| && rules[k] == r;
      OpinionOf(c, rules, now, d, k);
    }
  }

  lemma {:induction false} OpinionsNamedApart(c: Catalog, rules: seq<CompiledRule>, now: Time, d: Digest)
    requires NamedApart(rules)
    ensures DistinctRules(OpinionsOf(c, rules, now, d))
  {
    if rules != [] {
      var front, last := rules[..|rules| - 1], rules[|rules| - 1];
      OpinionsNamedApart(c, front, now, d);
      var ops := OpinionsOf(c, front, now, d);
      forall i | 0 <= i < |ops|
        ensures ops[i].rule != last.rule.name
      {
        var k := OpinionFrom(c, front, now, d, ops[i]);
        assert front[k] == rules[k];
      }
    }
  }

  ghost predicate Matching(r: CompiledRule, rows: seq<Manifest>, c: Catalog, keys: seq<Digest>, S: set<Digest>) {
    && |rows| == |keys| && S <= c.Keys
    && forall i {:trigger rows[i]} ::
         0 <= i < |rows| ==> keys[i] in c && rows[i] == c[keys[i]] && (keys[i] in S <==> Matches(r, rows[i]))
  }

  /** The manifests a rule matches, in the order they come. */
  method MatchAll(r: CompiledRule, rows: seq<Manifest>, ghost c: Catalog, ghost keys: seq<Digest>, ghost S: set<Digest>)
    returns (matched: seq<Manifest>)
    requires Matching(r, rows, c, keys, S)
    ensures matched == Pick(c, Only(keys, S))
  {
    matched := [];
    assert keys[..0] == [];
    for i := 0 to |rows|
      invariant matched == Pick(c, Only(keys[..i], S))
    {
      OnlySnoc(keys[..i], keys[i], S);
      assert keys[..i + 1] == keys[..i] + [keys[i]];
      if Matches(r, rows[i]) { matched := matched + [rows[i]]; }
    }
    assert keys[..|rows|] == keys;
  }

  type Gathered = map<Digest, seq<Opinion>>

  ghost predicate Adds(before: Gathered, after: Gathered, c: Catalog, r: CompiledRule, now: Time, said: seq<Digest>) {
    forall d {:trigger At(after, d)} ::
      At(after, d) == At(before, d) + (if d in said then [Voice(c, r, now, d)] else [])
  }

  lemma AddStep(before: Gathered, after: Gathered, c: Catalog, r: CompiledRule, now: Time, said: seq<Digest>, d: Digest)
    requires Adds(before, after, c, r, now, said) && d !in said
    ensures Adds(before, after[d := At(after, d) + [Voice(c, r, now, d)]], c, r, now, said + [d])
  {
    var next := after[d := At(after, d) + [Voice(c, r, now, d)]];
    forall x ensures At(next, x) == At(before, x) + (if x in said + [d] then [Voice(c, r, now, x)] else []) {
      assert At(after, x) == At(before, x) + (if x in said then [Voice(c, r, now, x)] else []);
    }
  }

  /** Records one rule's opinion about everything it matched. */
  method Speak(c: Catalog, r: CompiledRule, matched: seq<Manifest>, kept: set<Digest>, now: Time, before: Gathered,
               ghost keys: seq<Digest>)
    returns (opinions: Gathered)
    requires
      && |keys| == |matched|
      && Distinct(keys)
      && forall i {:trigger matched[i]} :: 0 <= i < |matched| ==> matched[i].digest == keys[i]
    requires kept == Kept(c, MatchedBy(c, r), r, now)
    ensures Adds(before, opinions, c, r, now, keys)
  {
    opinions := before;
    for i := 0 to |matched|
      invariant Adds(before, opinions, c, r, now, keys[..i])
    {
      var m := matched[i];
      AddStep(before, opinions, c, r, now, keys[..i], keys[i]);
      assert keys[..i + 1] == keys[..i] + [keys[i]];
      var o := Opinion(r.rule.name, r.rule.priority, r.rule.kind, m.digest in kept);
      opinions := opinions[m.digest := At(opinions, m.digest) + [o]];
    }
    assert keys[..|matched|] == keys;
  }

  ghost predicate Heard(c: Catalog, rules: seq<CompiledRule>, now: Time, opinions: Gathered) {
    forall d {:trigger At(opinions, d)} :: At(opinions, d) == OpinionsOf(c, rules, now, d)
  }

  lemma HearStep(c: Catalog, rules: seq<CompiledRule>, r: CompiledRule, now: Time, before: Gathered, after: Gathered)
    requires Heard(c, rules, now, before)
    requires Adds(before, after, c, r, now, SortedSeq(MatchedBy(c, r)))
    ensures Heard(c, rules + [r], now, after)
  {
    forall d ensures At(after, d) == OpinionsOf(c, rules + [r], now, d) {
      OpinionsSnoc(c, rules, r, now, d);
      assert At(before, d) == OpinionsOf(c, rules, now, d);
    }
  }

  /** What one rule matches, in digest order. */
  method Match(c: Catalog, r: CompiledRule, selectable: seq<Manifest>, ghost keys: seq<Digest>)
    returns (matched: seq<Manifest>)
    requires RowsAre(c, keys, selectable) && keys == SortedSeq(Selectable(c))
    ensures matched == Pick(c, SortedSeq(MatchedBy(c, r)))
  {
    MatchRows(c, r, selectable, keys);
    MatchesInOrder(c, r);
    matched := MatchAll(r, selectable, c, keys, MatchedBy(c, r));
  }

  lemma MatchRows(c: Catalog, r: CompiledRule, rows: seq<Manifest>, keys: seq<Digest>)
    requires RowsAre(c, keys, rows)
    ensures Matching(r, rows, c, keys, MatchedBy(c, r))
  {
    forall i | 0 <= i < |rows|
      ensures keys[i] in c && rows[i] == c[keys[i]] && (keys[i] in MatchedBy(c, r) <==> Matches(r, rows[i]))
    {
      assert rows[i].digest == keys[i];
      assert keys[i] in Selectable(c);
    }
  }

  lemma MatchesInOrder(c: Catalog, r: CompiledRule)
    ensures Only(SortedSeq(Selectable(c)), MatchedBy(c, r)) == SortedSeq(MatchedBy(c, r))
  {
    OnlyIs(Selectable(c), MatchedBy(c, r));
  }

  lemma MatchedDigests(c: Catalog, X: set<Digest>)
    requires Keyed(c) && X <= c.Keys
    ensures Distinct(SortedSeq(X))
    ensures forall i {:trigger Pick(c, SortedSeq(X))[i]} ::
          0 <= i < |SortedSeq(X)| ==> Pick(c, SortedSeq(X))[i].digest == SortedSeq(X)[i]
  {
    IncreasingDistinct(SortedSeq(X));
    forall i | 0 <= i < |SortedSeq(X)| ensures Pick(c, SortedSeq(X))[i].digest == SortedSeq(X)[i] { PickRow(c, X, i); }
  }

  /** One rule: what it matches, what it keeps, what it says. */
  method Hear(c: Catalog, r: CompiledRule, selectable: seq<Manifest>, now: Time, before: Gathered,
              ghost keys: seq<Digest>, ghost heard: seq<CompiledRule>)
    returns (opinions: Gathered)
    requires Keyed(c) && RowsAre(c, keys, selectable) && keys == SortedSeq(Selectable(c))
    requires Heard(c, heard, now, before)
    ensures Heard(c, heard + [r], now, opinions)
  {
    var matched := Match(c, r, selectable, keys);
    var kept := Keeps(r, matched, now, c, MatchedBy(c, r));
    MatchedDigests(c, MatchedBy(c, r));
    opinions := Speak(c, r, matched, kept, now, before, SortedSeq(MatchedBy(c, r)));
    HearStep(c, heard, r, now, before, opinions);
  }

  method HearAll(c: Catalog, rules: seq<CompiledRule>, selectable: seq<Manifest>, now: Time, ghost keys: seq<Digest>)
    returns (opinions: Gathered)
    requires Keyed(c) && RowsAre(c, keys, selectable) && keys == SortedSeq(Selectable(c))
    ensures Heard(c, rules, now, opinions)
  {
    opinions := map[];
    assert rules[..0] == [];
    for i := 0 to |rules|
      invariant Heard(c, rules[..i], now, opinions)
    {
      opinions := Hear(c, rules[i], selectable, now, opinions, keys, rules[..i]);
      assert rules[..i + 1] == rules[..i] + [rules[i]];
    }
    assert rules[..|rules|] == rules;
  }

  // ----- settling -----

  ghost function VerdictsAmong(g: Rulings, visited: seq<Digest>): (v: Verdicts) {
    map d | d in visited && d in g && g[d].Decided? :: g[d].verdict
  }

  lemma ConflictsSnoc(g: Rulings, ds: seq<Digest>, d: Digest)
    requires forall x :: x in ds ==> x in Disputed(g)
    requires d in Disputed(g)
    ensures ConflictsFor(g, ds + [d]) == ConflictsFor(g, ds) + [g[d].conflict]
  {
  }

  lemma VerdictsSnoc(g: Rulings, visited: seq<Digest>, d: Digest)
    requires d in g
    ensures VerdictsAmong(g, visited + [d]) ==
          if g[d].Decided? then VerdictsAmong(g, visited)[d := g[d].verdict] else VerdictsAmong(g, visited)
  {
    assert forall x :: x in visited + [d] <==> x in visited || x == d;
  }

  lemma DisputesSnoc(g: Rulings, visited: seq<Digest>, d: Digest)
    requires d in g
    ensures ConflictsFor(g, Only(visited + [d], Disputed(g))) ==
          ConflictsFor(g, Only(visited, Disputed(g))) + (if g[d].Clash? then [g[d].conflict] else [])
  {
    OnlySnoc(visited, d, Disputed(g));
    if d in Disputed(g) { ConflictsSnoc(g, Only(visited, Disputed(g)), d); }
  }

  lemma SettleSnoc(g: Rulings, keys: seq<Digest>, i: nat)
    requires i < |keys| && keys[i] in g
    ensures VerdictsAmong(g, keys[..i + 1]) ==
          if g[keys[i]].Decided? then VerdictsAmong(g, keys[..i])[keys[i] := g[keys[i]].verdict]
          else VerdictsAmong(g, keys[..i])
    ensures ConflictsFor(g, Only(keys[..i + 1], Disputed(g))) ==
          ConflictsFor(g, Only(keys[..i], Disputed(g))) + (if g[keys[i]].Clash? then [g[keys[i]].conflict] else [])
  {
    assert keys[..i + 1] == keys[..i] + [keys[i]];
    VerdictsSnoc(g, keys[..i], keys[i]);
    DisputesSnoc(g, keys[..i], keys[i]);
  }

  /** Resolve each listed manifest's opinions to its ruling. */
  ghost predicate Resolvable(g: Rulings, keys: seq<Digest>, opinions: Gathered) {
    forall i {:trigger keys[i]} ::
      0 <= i < |keys| ==>
        && keys[i] in g
        && DistinctRules(At(opinions, keys[i]))
        && g[keys[i]] == Settle(keys[i], Elems(At(opinions, keys[i])))
  }

  /** Settles every selectable manifest. */
  method SettleAll(keys: seq<Digest>, opinions: Gathered, ghost g: Rulings)
    returns (verdicts: Verdicts, conflicts: seq<Conflict>)
    requires Resolvable(g, keys, opinions)
    ensures verdicts == VerdictsAmong(g, keys)
    ensures conflicts == ConflictsFor(g, Only(keys, Disputed(g)))
  {
    verdicts, conflicts := map[], [];
    assert keys[..0] == [];
    for i := 0 to |keys|
      invariant verdicts == VerdictsAmong(g, keys[..i])
      invariant conflicts == ConflictsFor(g, Only(keys[..i], Disputed(g)))
    {
      var d := keys[i];
      var r := Resolve(d, At(opinions, d));
      SettleSnoc(g, keys, i);
      if r.Clash? {
        conflicts := conflicts + [r.conflict];
      } else {
        verdicts := verdicts[d := r.verdict];
      }
    }
    assert keys[..|keys|] == keys;
  }

  lemma HeardResolvable(c: Catalog, rules: seq<CompiledRule>, now: Time, opinions: Gathered, keys: seq<Digest>)
    requires NamedApart(rules) && Heard(c, rules, now, opinions)
    requires forall d :: d in keys ==> d in Selectable(c)
    ensures Resolvable(RulingsOf(c, Elems(rules), now), keys, opinions)
  {
    forall i | 0 <= i < |keys|
      ensures keys[i] in Selectable(c)
      ensures
        && DistinctRules(At(opinions, keys[i]))
        && RulingOf(c, Elems(rules), now, keys[i]) == Settle(keys[i], Elems(At(opinions, keys[i])))
    {
      assert keys[i] in keys;
      OpinionsNamedApart(c, rules, now, keys[i]);
      OpinionsAreVoices(c, rules, now, keys[i]);
      assert At(opinions, keys[i]) == OpinionsOf(c, rules, now, keys[i]);
    }
  }

  lemma SettledMeaning(g: Rulings)
    ensures VerdictsAmong(g, SortedSeq(g.Keys)) == VerdictsIn(g)
    ensures Only(SortedSeq(g.Keys), Disputed(g)) == SortedSeq(Disputed(g))
  {
    OnlyIs(g.Keys, Disputed(g));
  }

  lemma KeysOfRows(c: Catalog, rows: seq<Manifest>, keys: seq<Digest>)
    requires RowsAre(c, SortedSeq(Selectable(c)), rows)
    requires |keys| == |rows| && forall i {:trigger keys[i]} :: 0 <= i < |keys| ==> keys[i] == rows[i].digest
    ensures keys == SortedSeq(Selectable(c))
  {
    var ks := SortedSeq(Selectable(c));
    forall i | 0 <= i < |keys| ensures keys[i] == ks[i] { assert rows[i].digest == ks[i]; }
  }

  /** The verdicts and the conflicts, as the source's two loops leave them. */
  method Rule(c: Catalog, rules: seq<CompiledRule>, now: Time, selectable: seq<Manifest>)
    returns (verdicts: Verdicts, conflicts: seq<Conflict>)
    requires Keyed(c) && NamedApart(rules) && selectable == Pick(c, SortedSeq(Selectable(c)))
    ensures var g := RulingsOf(c, Elems(rules), now);
            verdicts == VerdictsIn(g) && conflicts == ConflictsFor(g, SortedSeq(Disputed(g)))
  {
    SelectableRows(c);
    var keys := seq(|selectable|, i requires 0 <= i < |selectable| => selectable[i].digest);
    KeysOfRows(c, selectable, keys);
    verdicts, conflicts := RuleOn(c, rules, now, selectable, keys, RulingsOf(c, Elems(rules), now));
  }

  method RuleOn(c: Catalog, rules: seq<CompiledRule>, now: Time, selectable: seq<Manifest>, keys: seq<Digest>,
                ghost g: Rulings)
    returns (verdicts: Verdicts, conflicts: seq<Conflict>)
    requires Keyed(c) && NamedApart(rules) && RowsAre(c, keys, selectable) && keys == SortedSeq(Selectable(c))
    requires g == RulingsOf(c, Elems(rules), now)
    ensures verdicts == VerdictsIn(g) && conflicts == ConflictsFor(g, SortedSeq(Disputed(g)))
  {
    var opinions := HearAll(c, rules, selectable, now, keys);
    HeardResolvable(c, rules, now, opinions, keys);
    verdicts, conflicts := SettleAll(keys, opinions, g);
    assert g.Keys == Selectable(c);
    SettledMeaning(g);
  }

  /** A pure function of the inventory, the rules and the time: the plan, or every
      manifest in dispute, or the argument that is missing. */
  method Evaluate(inv: Inventory?, rules: seq<CompiledRule>, now: Time) returns (r: Evaluated)
    requires inv != null ==> inv.Valid()
    requires NamedApart(rules)
    ensures inv == null ==> r == NoInventory
    ensures inv != null && now == 0 ==> r == NoEvaluationTime
    ensures inv != null && now != 0 ==> r == EvaluationOf(inv.repository, inv.byDigest, Elems(rules), now)
  {
    if inv == null { return NoInventory; }
    if now == 0 { return NoEvaluationTime; }
    var verdicts, conflicts := Rule(inv.byDigest, rules, now, inv.selectable);
    if |conflicts| > 0 { return Conflicting(conflicts); }
    var plan := BuildPlan(inv, verdicts, now);
    r := Planned(plan);
  }
}
