/**
 Protection is monotone: marking tags protected or immutable never makes a plan
 delete something it did not delete before.  The re-ranking of keep-last-N over a
 smaller selectable set, the priority tiers, and newly refused cascades all
 move the same way.
 */
module ProtectionLaws {
  import opened Order
  import opened Snapshots
  import opened Inventories
  import opened Retention
  import opened Plans
  import opened Evaluation
  import opened RetentionLaws

  // ----- snapshots -----

  /** The same tag, at least as protected. */
  ghost predicate Hardened(a: Tag, b: Tag) {
    a.name == b.name && (a.isProtected ==> b.isProtected) && (a.isImmutable ==> b.isImmutable)
  }

  ghost predicate HardenedTags(a: seq<Tag>, b: seq<Tag>) {
    |a| == |b| && forall i {:trigger a[i]} {:trigger b[i]} :: 0 <= i < |a| ==> Hardened(a[i], b[i])
  }

  ghost predicate HardenedRow(a: Manifest, b: Manifest) {
    b == a.(tags := b.tags) && HardenedTags(a.tags, b.tags)
  }

  /** `t` is `s` with any number of its tags marked protected or immutable. */
  ghost predicate HardenedSnapshot(s: seq<Manifest>, t: seq<Manifest>) {
    |s| == |t| && forall i {:trigger s[i]} {:trigger t[i]} :: 0 <= i < |s| ==> HardenedRow(s[i], t[i])
  }

  // ----- catalogs -----

  ghost predicate HardenedEntry(a: Manifest, b: Manifest) {
    && b == a.(tags := b.tags)
    && NamesOf(a.tags) == NamesOf(b.tags)
    && (Shielded(a) ==> Shielded(b))
  }

  ghost predicate HardenedCatalog(c: Catalog, h: Catalog) {
    c.Keys == h.Keys && forall d {:trigger c[d]} {:trigger h[d]} :: d in c ==> HardenedEntry(c[d], h[d])
  }

  lemma HardenedNames(a: seq<Tag>, b: seq<Tag>)
    requires HardenedTags(a, b)
    ensures NamesOf(a) == NamesOf(b)
  {
    assert forall i :: 0 <= i < |a| ==> Hardened(a[i], b[i]);
  }

  lemma SortedNamesUnique(a: seq<Tag>, b: seq<Tag>)
    requires NamesOf(a) == NamesOf(b) && Distinct(NamesOf(a))
    ensures NamesOf(SortTags(a)) == NamesOf(SortTags(b))
  {
    SortedNames(a);
    SortedNames(b);
    NamesIncrease(a);
    NamesIncrease(b);
    IncreasingUnique(NamesOf(SortTags(a)), NamesOf(SortTags(b)));
  }

  lemma NamesIncrease(a: seq<Tag>)
    requires Distinct(NamesOf(a))
    ensures Increasing(NamesOf(SortTags(a)))
  {
    SortedNames(a);
    var s := SortTags(a);
    var names := NamesOf(s);
    forall i, j | 0 <= i < j < |names|
      ensures LexLt(names[i], names[j])
    {
      assert ByName(s[i], s[j]);
      assert names[i] != names[j];
    }
  }

  lemma ShieldedSorted(m: Manifest)
    ensures Shielded(Normal(m)) <==> Shielded(m)
  {
    var s := SortTags(m.tags);
    SameElems(m.tags, s);
    if Shielded(m) {
      var i :| 0 <= i < |m.tags| && (m.tags[i].isProtected || m.tags[i].isImmutable);
      assert m.tags[i] in s;
      var k :| 0 <= k < |s| && s[k] == m.tags[i];
      assert Normal(m).tags[k].isProtected || Normal(m).tags[k].isImmutable;
    }
    if Shielded(Normal(m)) {
      var k :| 0 <= k < |s| && (s[k].isProtected || s[k].isImmutable);
      assert s[k] in m.tags;
    }
  }

  lemma HardenedNormal(a: Manifest, b: Manifest)
    requires HardenedRow(a, b) && Distinct(NamesOf(a.tags))
    ensures HardenedEntry(Normal(a), Normal(b))
  {
    HardenedNames(a.tags, b.tags);
    SortedNamesUnique(a.tags, b.tags);
    ShieldedSorted(a);
    ShieldedSorted(b);
    if Shielded(a) {
      var i :| 0 <= i < |a.tags| && (a.tags[i].isProtected || a.tags[i].isImmutable);
      assert Hardened(a.tags[i], b.tags[i]);
    }
  }

  lemma HardenedRowsAccepted(s: seq<Manifest>, t: seq<Manifest>)
    requires HardenedSnapshot(s, t) && RowsAccepted(s)
    ensures RowsAccepted(t)
  {
    forall i | 0 <= i < |t|
      ensures ManifestOk(t[i]) && NamesOf(t[i].tags) == NamesOf(s[i].tags)
    {
      assert HardenedRow(s[i], t[i]) && ManifestOk(s[i]);
      HardenedNames(s[i].tags, t[i].tags);
    }
    assert forall i :: 0 <= i < |t| ==> t[i].digest == s[i].digest;
  }

  lemma HardenedCatalogOf(s: seq<Manifest>, t: seq<Manifest>)
    requires HardenedSnapshot(s, t) && RowsAccepted(s)
    ensures HardenedCatalog(CatalogOf(s), CatalogOf(t))
  {
    HardenedRowsAccepted(s, t);
    var c, h := CatalogOf(s), CatalogOf(t);
    forall d | d in c
      ensures d in h && HardenedEntry(c[d], h[d])
    {
      var i := CatalogRow(s, d);
      CatalogAt(t, i);
      assert ManifestOk(s[i]) && HardenedRow(s[i], t[i]);
      HardenedNormal(s[i], t[i]);
    }
    forall d | d in h
      ensures d in c
    {
      var i := CatalogRow(t, d);
      CatalogAt(s, i);
      assert HardenedRow(s[i], t[i]);
    }
  }

  // ----- edges do not move, exclusions only grow -----

  lemma SameEdges(c: Catalog, h: Catalog)
    requires HardenedCatalog(c, h)
    ensures LiveSubjects(h) == LiveSubjects(c) && Subjects(h) == Subjects(c)
    ensures forall d {:trigger Subtree(h, d)} :: Subtree(h, d) == Subtree(c, d)
    ensures forall d {:trigger ParentsOf(h, d)} :: ParentsOf(h, d) == ParentsOf(c, d)
  {
    assert forall d :: d in c ==> c[d].subject == h[d].subject && c[d].children == h[d].children;
  }

  lemma PinnedGrows(c: Catalog, h: Catalog, d: Digest)
    requires HardenedCatalog(c, h) && d in c && Pinned(c, d)
    ensures Pinned(h, d)
  {
    SameEdges(c, h);
    assert HardenedEntry(c[d], h[d]);
  }

  lemma SelectableShrinks(c: Catalog, h: Catalog, d: Digest)
    requires HardenedCatalog(c, h) && d in Selectable(h)
    ensures d in Selectable(c)
  {
    SelectableMeaning(h, d);
    SelectableMeaning(c, d);
    assert HardenedEntry(c[d], h[d]);
    if Pinned(c, d) { PinnedGrows(c, h, d); }
  }

  lemma MatchesByName(r: CompiledRule, a: Manifest, b: Manifest)
    requires HardenedEntry(a, b)
    ensures Matches(r, a) == Matches(r, b)
  {
    assert forall i ::
          0 <= i < |a.tags| ==> NamesOf(a.tags)[i] == a.tags[i].name && NamesOf(b.tags)[i] == b.tags[i].name;
    assert |a.tags| == |NamesOf(a.tags)| == |b.tags|;
    assert forall i :: 0 <= i < |a.tags| ==> a.tags[i].name == b.tags[i].name;
  }

  lemma MatchedShrinks(c: Catalog, h: Catalog, r: CompiledRule)
    requires HardenedCatalog(c, h)
    ensures MatchedBy(h, r) <= MatchedBy(c, r)
    ensures forall d :: d in Selectable(h) ==> (d in MatchedBy(h, r) <==> d in MatchedBy(c, r))
  {
    forall d | d in Selectable(h)
      ensures d in Selectable(c) && Matches(r, c[d]) == Matches(r, h[d])
    {
      SelectableShrinks(c, h, d);
      MatchesByName(r, c[d], h[d]);
    }
  }

  lemma AheadShrinks(c: Catalog, h: Catalog, X: set<Digest>, Y: set<Digest>, d: Digest)
    requires HardenedCatalog(c, h) && Y <= X <= c.Keys && d in Y
    ensures |Ahead(h, Y, d)| <= |Ahead(c, X, d)|
  {
    var a, b := Ahead(c, X, d), Ahead(h, Y, d);
    assert forall x :: x in X ==> HardenedEntry(c[x], h[x]);
    assert b <= a;
    assert a == b + (a - b);
  }

  lemma SavesWithFewer(c: Catalog, h: Catalog, X: set<Digest>, Y: set<Digest>, r: CompiledRule, now: Time, d: Digest)
    requires HardenedCatalog(c, h) && Y <= X <= c.Keys && d in Y
    requires Saves(c, X, r, now, d)
    ensures Saves(h, Y, r, now, d)
  {
    assert HardenedEntry(c[d], h[d]);
    AheadShrinks(c, h, X, Y, d);
  }

  /** A rule that saves a manifest still saves it out of a smaller matched set. */
  lemma SavesGrows(c: Catalog, h: Catalog, r: CompiledRule, now: Time, d: Digest)
    requires HardenedCatalog(c, h) && d in MatchedBy(h, r)
    requires d in Kept(c, MatchedBy(c, r), r, now)
    ensures d in Kept(h, MatchedBy(h, r), r, now)
  {
    MatchedShrinks(c, h, r);
    SavesWithFewer(c, h, MatchedBy(c, r), MatchedBy(h, r), r, now, d);
  }

  // ----- rulings -----

  /** Selected under more protection means selected under less, unless it was in dispute. */
  lemma TargetWas(c: Catalog, h: Catalog, R: set<CompiledRule>, now: Time, d: Digest)
    requires HardenedCatalog(c, h) && d in Selectable(h)
    requires var w := RulingOf(h, R, now, d); w.Decided? && w.verdict.applicable && !w.verdict.keep
    requires RulingOf(c, R, now, d).Decided?
    ensures var w := RulingOf(c, R, now, d); w.verdict.applicable && !w.verdict.keep
  {
    var ops, ops' := VoicesAbout(c, R, now, d), VoicesAbout(h, R, now, d);
    var r := TierOf(h, R, now, d);
    MatchedShrinks(c, h, r);
    VoiceHeard(c, R, now, d, r);
    if Voices(ops, Tier(ops), true) != {} {
      var k := VoiceOf(c, R, now, d, Tier(ops), true);
      MatchedShrinks(c, h, k);
      SavesGrows(c, h, k, now, d);
      VoiceHeard(h, R, now, d, k);
      SameTier(c, h, R, now, d);
    }
  }

  lemma SameTier(c: Catalog, h: Catalog, R: set<CompiledRule>, now: Time, d: Digest)
    requires HardenedCatalog(c, h) && d in Selectable(h)
    requires VoicesAbout(c, R, now, d) != {} && VoicesAbout(h, R, now, d) != {}
    ensures Tier(VoicesAbout(c, R, now, d)) == Tier(VoicesAbout(h, R, now, d))
  {
    var a := TierOf(c, R, now, d);
    var b := TierOf(h, R, now, d);
    MatchedShrinks(c, h, a);
    MatchedShrinks(c, h, b);
    VoiceHeard(h, R, now, d, a);
    VoiceHeard(c, R, now, d, b);
  }

  lemma TargetsShrink(c: Catalog, h: Catalog, R: set<CompiledRule>, now: Time, d: Digest)
    requires HardenedCatalog(c, h)
    requires Disputed(RulingsOf(c, R, now)) == {}
    requires d in Targets(h, VerdictsIn(RulingsOf(h, R, now)))
    ensures d in Targets(c, VerdictsIn(RulingsOf(c, R, now)))
  {
    SelectableShrinks(c, h, d);
    var g := RulingsOf(c, R, now);
    assert d in g && d !in Disputed(g);
    TargetWas(c, h, R, now, d);
  }

  lemma ChosenShrinks(c: Catalog, h: Catalog, R: set<CompiledRule>, now: Time, d: Digest)
    requires HardenedCatalog(c, h)
    requires Disputed(RulingsOf(c, R, now)) == {}
    requires d in Chosen(h, VerdictsIn(RulingsOf(h, R, now)))
    ensures d in Chosen(c, VerdictsIn(RulingsOf(c, R, now)))
  {
    TargetsShrink(c, h, R, now, d);
    SameEdges(c, h);
    forall x | x in Subtree(c, d)
      ensures !Pinned(c, x)
    {
      assert x in Subtree(h, d) && x !in PinnedUnder(h, d);
      if Pinned(c, x) { PinnedGrows(c, h, x); }
    }
  }

  lemma DoomedShrinks(c: Catalog, h: Catalog, R: set<CompiledRule>, now: Time)
    requires HardenedCatalog(c, h)
    requires Disputed(RulingsOf(c, R, now)) == {}
    ensures Doomed(h, VerdictsIn(RulingsOf(h, R, now))) <= Doomed(c, VerdictsIn(RulingsOf(c, R, now)))
  {
    var v, w := VerdictsIn(RulingsOf(c, R, now)), VerdictsIn(RulingsOf(h, R, now));
    forall x | x in Doomed(h, w)
      ensures x in Doomed(c, v)
    {
      var root := DoomedCases(h, w, x);
      ChosenShrinks(c, h, R, now, root);
      SameEdges(c, h);
      if x != root { assert Cascades(c, v, x); }
    }
  }

  /** Protection is monotone: if a snapshot evaluates to a plan, the same snapshot
      with more tags protected or immutable is still accepted, and evaluates to a
      conflict or to a plan whose deletions are a subset. */
  lemma ProtectionMonotone(repository: string, s: seq<Manifest>, t: seq<Manifest>, R: set<CompiledRule>, now: Time)
    requires Accepted(s) && HardenedSnapshot(s, t)
    requires EvaluationOf(repository, CatalogOf(s), R, now).Planned?
    ensures Accepted(t)
    ensures
      || EvaluationOf(repository, CatalogOf(t), R, now).Planned?
      || EvaluationOf(repository, CatalogOf(t), R, now).Conflicting?
    ensures Doomed(CatalogOf(t), VerdictsIn(RulingsOf(CatalogOf(t), R, now))) <=
            Doomed(CatalogOf(s), VerdictsIn(RulingsOf(CatalogOf(s), R, now)))
  {
    HardenedRowsAccepted(s, t);
    HardenedCatalogOf(s, t);
    SameEdges(CatalogOf(s), CatalogOf(t));
    DoomedShrinks(CatalogOf(s), CatalogOf(t), R, now);
  }
}
