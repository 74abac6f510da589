/**
 The laws of retention, over every catalog, rule set and time:
 a plan partitions the snapshot, deletes nothing that is shielded or still
 listed, strands no survivor, never deletes more when more is protected, and
 does not depend on the order anything was written in.
 */
module RetentionLaws {
  import opened Order
  import opened SubjectGraph
  import opened Snapshots
  import opened Retention
  import opened Plans
  import opened Evaluation

  /** Everything a plan deletes: its entries and their cascades. */
  ghost function Doomed(c: Catalog, v: Verdicts): (r: set<Digest>) {
    Chosen(c, v) + Cascade(c, v)
  }

  // ----- partition -----

  /** A selectable manifest is the top of its own subtree. */
  lemma SelectableIsTop(c: Catalog, d: Digest)
    requires d in Selectable(c)
    ensures d !in LiveSubjects(c)
  {
    SelectableMeaning(c, d);
  }

  lemma AttachedNotSelectable(c: Catalog, x: Digest, root: Digest)
    requires x in Subtree(c, root)
    ensures x in c && x !in Selectable(c)
  {
    AttachedUnfold(LiveSubjects(c), x, root);
    SelectableMeaning(c, x);
  }

  /** No attachment dies under two entries. */
  lemma OneEntryEach(c: Catalog, v: Verdicts, x: Digest, a: Digest, b: Digest)
    requires a in Chosen(c, v) && b in Chosen(c, v)
    requires x in Subtree(c, a) && x in Subtree(c, b)
    ensures a == b
  {
    SelectableIsTop(c, a);
    SelectableIsTop(c, b);
    OneTop(LiveSubjects(c), x, a, b);
  }

  /** Every manifest is exactly one of selected, cascaded under exactly one entry,
      refused, or kept. */
  lemma PlanPartitions(c: Catalog, v: Verdicts)
    ensures Chosen(c, v) + Cascade(c, v) + Refused(c, v) + Survivors(c, v) == c.Keys
    ensures Chosen(c, v) !! Cascade(c, v)
    ensures (Chosen(c, v) + Cascade(c, v)) !! Refused(c, v)
    ensures (Chosen(c, v) + Cascade(c, v) + Refused(c, v)) !! Survivors(c, v)
    ensures forall x ::
          x in Cascade(c, v) ==>
            exists d ::
              d in Chosen(c, v) && x in Subtree(c, d) && forall e :: e in Chosen(c, v) && x in Subtree(c, e) ==> e == d
  {
    forall x | x in Cascade(c, v)
      ensures x !in Selectable(c)
      ensures exists d ::
            d in Chosen(c, v) && x in Subtree(c, d) && forall e :: e in Chosen(c, v) && x in Subtree(c, e) ==> e == d
    {
      var d :| d in Chosen(c, v) && x in Subtree(c, d);
      AttachedNotSelectable(c, x, d);
      forall e | e in Chosen(c, v) && x in Subtree(c, e) ensures e == d { OneEntryEach(c, v, x, d, e); }
    }
  }

  lemma PartitionSize(c: Catalog, v: Verdicts)
    ensures |Chosen(c, v)| + |Cascade(c, v)| + |Refused(c, v)| + |Survivors(c, v)| == |c|
  {
    PlanPartitions(c, v);
    assert |Chosen(c, v) + Cascade(c, v)| == |Chosen(c, v)| + |Cascade(c, v)|;
    assert |Chosen(c, v) + Cascade(c, v) + Refused(c, v)| == |Chosen(c, v) + Cascade(c, v)| + |Refused(c, v)|;
    assert |c.Keys| == |Chosen(c, v) + Cascade(c, v) + Refused(c, v)| + |Survivors(c, v)|;
  }

  // ----- safety -----

  lemma DoomedCases(c: Catalog, v: Verdicts, d: Digest) returns (root: Digest)
    requires d in Doomed(c, v)
    ensures root in Chosen(c, v) && (d == root || d in Subtree(c, root))
  {
    root := d;
    if d !in Chosen(c, v) {
      root :| root in Chosen(c, v) && d in Subtree(c, root);
    }
  }

  /** Nothing deleted carries a protected or immutable tag, or is listed as a
      child by any manifest of the snapshot. */
  lemma DeletesNothingPinned(c: Catalog, v: Verdicts, d: Digest)
    requires d in Doomed(c, v)
    ensures d in c && !Shielded(c[d])
    ensures forall p :: p in c ==> d !in c[p].children
  {
    var root := DoomedCases(c, v, d);
    SelectableMeaning(c, root);
    assert !Pinned(c, d) by {
      if d != root { assert d !in PinnedUnder(c, root); }
    }
    forall p | p in c
      ensures d !in c[p].children
    {
      assert p !in ParentsOf(c, d);
    }
  }

  /** What is attached to something deleted is deleted with it. */
  lemma DeletionClosed(c: Catalog, v: Verdicts, y: Digest)
    requires y in c && c[y].subject in c && c[y].subject in Doomed(c, v)
    ensures y in Doomed(c, v)
  {
    var f := LiveSubjects(c);
    var root := DoomedCases(c, v, c[y].subject);
    assert y in f && f[y] == c[y].subject;
    AttachedStep(f, y, root);
    assert y in Subtree(c, root);
  }

  /** No survivor loses a live subject or a child. */
  lemma SurvivorsKeepTheirEdges(c: Catalog, v: Verdicts, y: Digest)
    requires y in c && y !in Doomed(c, v)
    ensures c[y].subject !in Doomed(c, v)
    ensures forall x :: x in c[y].children ==> x !in Doomed(c, v)
  {
    if c[y].subject in Doomed(c, v) {
      var root := DoomedCases(c, v, c[y].subject);
      DeletionClosed(c, v, y);
    }
    forall x | x in c[y].children
      ensures x !in Doomed(c, v)
    {
      if x in Doomed(c, v) { DeletesNothingPinned(c, v, x); }
    }
  }

  // ----- conflicts -----

  /** `a` and `b` share the strongest precedence about `d`; `a` keeps it and `b` selects it. */
  ghost predicate Disagree(c: Catalog, R: set<CompiledRule>, now: Time, d: Digest, a: CompiledRule, b: CompiledRule) {
    && a in R && b in R
    && d in MatchedBy(c, a) && d in MatchedBy(c, b)
    && a.rule.priority == b.rule.priority
    && (forall r :: r in R && d in MatchedBy(c, r) ==> a.rule.priority <= r.rule.priority)
    && d in Kept(c, MatchedBy(c, a), a, now)
    && d !in Kept(c, MatchedBy(c, b), b, now)
  }

  lemma VoiceOf(c: Catalog, R: set<CompiledRule>, now: Time, d: Digest, p: int, keep: bool) returns (r: CompiledRule)
    requires Voices(VoicesAbout(c, R, now, d), p, keep) != {}
    ensures r in R && d in MatchedBy(c, r) && r.rule.priority == p && (d in Kept(c, MatchedBy(c, r), r, now)) == keep
  {
    var ops := VoicesAbout(c, R, now, d);
    var n :| n in Voices(ops, p, keep);
    var o :| o in ops && o.priority == p && o.keep == keep;
    r :| r in R && d in MatchedBy(c, r) && o == Voice(c, r, now, d);
  }

  lemma VoiceHeard(c: Catalog, R: set<CompiledRule>, now: Time, d: Digest, r: CompiledRule)
    requires r in R && d in MatchedBy(c, r)
    ensures r.rule.name in Voices(VoicesAbout(c, R, now, d), r.rule.priority, d in Kept(c, MatchedBy(c, r), r, now))
    ensures VoicesAbout(c, R, now, d) != {} && Tier(VoicesAbout(c, R, now, d)) <= r.rule.priority
  {
    assert Voice(c, r, now, d) in VoicesAbout(c, R, now, d);
  }

  lemma TierOf(c: Catalog, R: set<CompiledRule>, now: Time, d: Digest) returns (r: CompiledRule)
    requires VoicesAbout(c, R, now, d) != {}
    ensures r in R && d in MatchedBy(c, r) && r.rule.priority == Tier(VoicesAbout(c, R, now, d))
  {
    var ops := VoicesAbout(c, R, now, d);
    var o :| o in ops && o.priority == Tier(ops);
    r :| r in R && d in MatchedBy(c, r) && o == Voice(c, r, now, d);
  }

  lemma ClashMeansBoth(d: Digest, ops: set<Opinion>)
    ensures Settle(d, ops).Clash? <==>
        ops != {} && Voices(ops, Tier(ops), true) != {} && Voices(ops, Tier(ops), false) != {}
  {
  }

  /** A conflict arises exactly when the lowest-numbered priority with an opinion
      about the manifest both keeps and selects it. */
  lemma ConflictMeaning(c: Catalog, R: set<CompiledRule>, now: Time, d: Digest)
    requires d in Selectable(c)
    ensures d in Disputed(RulingsOf(c, R, now)) <==> exists a, b :: Disagree(c, R, now, d, a, b)
  {
    var ops := VoicesAbout(c, R, now, d);
    ClashMeansBoth(d, ops);
    if RulingOf(c, R, now, d).Clash? {
      var a := VoiceOf(c, R, now, d, Tier(ops), true);
      var b := VoiceOf(c, R, now, d, Tier(ops), false);
      forall r | r in R && d in MatchedBy(c, r)
        ensures a.rule.priority <= r.rule.priority
      {
        VoiceHeard(c, R, now, d, r);
      }
      assert Disagree(c, R, now, d, a, b);
    }
    if a, b :| Disagree(c, R, now, d, a, b) {
      VoiceHeard(c, R, now, d, a);
      VoiceHeard(c, R, now, d, b);
      var r := TierOf(c, R, now, d);
    }
  }

  // ----- order does not matter -----

  /** Permuting the rules, the rows, and the tags and children inside the rows
      changes neither the plan nor the conflict list. */
  lemma OrderIrrelevant(repository: string, s: seq<Manifest>, t: seq<Manifest>, p: seq<nat>, q: seq<nat>,
                        rules: seq<CompiledRule>, rules': seq<CompiledRule>, now: Time)
    requires Accepted(s) && Shuffled(s, t, p, q)
    requires multiset(rules) == multiset(rules')
    ensures Accepted(t)
    ensures EvaluationOf(repository, CatalogOf(s), Elems(rules), now) ==
          EvaluationOf(repository, CatalogOf(t), Elems(rules'), now)
  {
    SnapshotOrderIrrelevant(s, t, p, q);
    SameElems(rules, rules');
  }
}
