/**
 What is read off a plan: its digests and its summary.
 Models `Plan.Digests`, `Plan.Summary` and `Entry.TotalSize` of
 internal/policy/plan.go, and proves what they say of an evaluated snapshot.
 */
module PlanReports {
  import opened Order
  import opened Snapshots
  import opened Retention
  import opened Plans
  import opened Evaluation
  import opened RetentionLaws
  import opened ProtectionLaws

  // ----- digests -----

  ghost function EntryDigests(e: Entry): (r: seq<Digest>) {
    [e.digest] + seq(|e.referrers|, i requires 0 <= i < |e.referrers| => e.referrers[i].digest)
  }

  /** Entries and their cascades, in listing order. */
  ghost function AllDigests(es: seq<Entry>): (r: seq<Digest>) {
    if es == [] then [] else AllDigests(es[..|es| - 1]) + EntryDigests(es[|es| - 1])
  }

  method CollectEntry(e: Entry) returns (out: seq<Digest>)
    ensures out == EntryDigests(e)
  {
    out := [e.digest];
    for j := 0 to |e.referrers|
      invariant out == EntryDigests(e)[..j + 1]
    {
      out := out + [e.referrers[j].digest];
    }
  }

  method CollectEntries(es: seq<Entry>) returns (out: seq<Digest>)
    ensures out == AllDigests(es)
  {
    out := [];
    assert es[..0] == [];
    for i := 0 to |es|
      invariant out == AllDigests(es[..i])
    {
      assert es[..i + 1][..i] == es[..i];
      var mine := CollectEntry(es[i]);
      out := out + mine;
    }
    assert es[..|es|] == es;
  }

  /** Everything the plan would delete, sorted: for an evaluated snapshot, exactly
      the doomed manifests, each once. */
  method Digests(p: Plan) returns (out: seq<Digest>)
    ensures out == SortStrings(AllDigests(p.selected))
  {
    out := CollectEntries(p.selected);
    out := SortStrings(out);
  }

  lemma EntryDigestsOf(c: Catalog, v: Verdicts, d: Digest)
    requires d in c
    ensures EntryDigests(EntryFor(c, v, d)) == [d] + SortedSeq(Subtree(c, d))
  {
    DigestsOfReferrers(c, EntryFor(c, v, d), SortedSeq(Subtree(c, d)));
  }

  lemma DigestsOfReferrers(c: Catalog, e: Entry, xs: seq<Digest>)
    requires (forall x :: x in xs ==> x in c) && e.referrers == ReferrersFor(c, xs)
    ensures EntryDigests(e) == [e.digest] + xs
  {
  }

  /** `xs` names a chosen manifest or something under one, among `ds`. */
  ghost predicate Under(c: Catalog, ds: seq<Digest>, x: Digest) {
    exists d :: d in ds && (x == d || x in Subtree(c, d))
  }

  lemma {:induction false} AllDigestsOf(c: Catalog, v: Verdicts, ds: seq<Digest>)
    requires forall d :: d in ds ==> d in c && d in Chosen(c, v)
    requires Distinct(ds)
    ensures Distinct(AllDigests(EntriesFor(c, v, ds)))
    ensures forall x :: x in AllDigests(EntriesFor(c, v, ds)) <==> Under(c, ds, x)
  {
    if ds != [] {
      var front, last := ds[..|ds| - 1], ds[|ds| - 1];
      assert last in ds && forall d :: d in front ==> d in ds;
      AllDigestsOf(c, v, front);
      var xs, ys := AllDigests(EntriesFor(c, v, front)), [last] + SortedSeq(Subtree(c, last));
      AllDigestsSnoc(c, v, ds);
      OwnDigests(c, v, last);
      forall x | x in xs
        ensures x !in ys
      {
        UnderApart(c, v, front, last, x);
      }
      DistinctConcat(xs, ys);
      forall x ensures x in xs + ys <==> Under(c, ds, x) { UnderSnoc(c, ds, x); }
    }
  }

  lemma AllDigestsSnoc(c: Catalog, v: Verdicts, ds: seq<Digest>)
    requires ds != [] && (forall d :: d in ds ==> d in c) && (forall d :: d in ds[..|ds| - 1] ==> d in c)
    ensures AllDigests(EntriesFor(c, v, ds)) ==
          AllDigests(EntriesFor(c, v, ds[..|ds| - 1])) + ([ds[|ds| - 1]] + SortedSeq(Subtree(c, ds[|ds| - 1])))
  {
    assert ds[|ds| - 1] in ds;
    EntryDigestsOf(c, v, ds[|ds| - 1]);
    assert EntriesFor(c, v, ds)[..|ds| - 1] == EntriesFor(c, v, ds[..|ds| - 1]);
  }

  lemma OwnDigests(c: Catalog, v: Verdicts, d: Digest)
    requires d in Chosen(c, v)
    ensures Distinct([d] + SortedSeq(Subtree(c, d)))
    ensures forall x :: x in [d] + SortedSeq(Subtree(c, d)) <==> x == d || x in Subtree(c, d)
  {
    IncreasingDistinct(SortedSeq(Subtree(c, d)));
    if d in Subtree(c, d) { AttachedNotSelectable(c, d, d); }
  }

  lemma DistinctConcat(xs: seq<Digest>, ys: seq<Digest>)
    requires Distinct(xs) && Distinct(ys) && forall x :: x in xs ==> x !in ys
    ensures Distinct(xs + ys)
  {
    var zs := xs + ys;
    forall i, j | 0 <= i < j < |zs|
      ensures zs[i] != zs[j]
    {
      if i < |xs| <= j {
        assert zs[i] in xs && zs[j] in ys;
      }
    }
  }

  lemma UnderSnoc(c: Catalog, ds: seq<Digest>, x: Digest)
    requires ds != []
    ensures Under(c, ds, x) <==> Under(c, ds[..|ds| - 1], x) || x == ds[|ds| - 1] || x in Subtree(c, ds[|ds| - 1])
  {
    var front, last := ds[..|ds| - 1], ds[|ds| - 1];
    assert ds == front + [last];
    if Under(c, front, x) {
      var d :| d in front && (x == d || x in Subtree(c, d));
      assert d in ds;
    }
    if x == last || x in Subtree(c, last) { assert last in ds; }
  }

  lemma UnderApart(c: Catalog, v: Verdicts, front: seq<Digest>, last: Digest, x: Digest)
    requires (forall d :: d in front ==> d in Chosen(c, v)) && last in Chosen(c, v) && last !in front
    requires Under(c, front, x)
    ensures x != last && x !in Subtree(c, last)
  {
    var d :| d in front && (x == d || x in Subtree(c, d));
    if x == d {
      if x in Subtree(c, last) { AttachedNotSelectable(c, x, last); }
    } else {
      AttachedNotSelectable(c, x, d);
      if x in Subtree(c, last) { OneEntryEach(c, v, x, d, last); }
    }
  }

  /** The digests of an evaluated plan: sorted, without repeats, and exactly what it dooms. */
  lemma DigestsOfPlan(repository: string, c: Catalog, v: Verdicts, now: Time)
    ensures SortStrings(AllDigests(PlanOf(repository, c, v, now).selected)) == SortedSeq(Doomed(c, v))
    ensures Distinct(AllDigests(PlanOf(repository, c, v, now).selected))
  {
    var ds := SortedSeq(Chosen(c, v));
    IncreasingDistinct(ds);
    AllDigestsOf(c, v, ds);
    var all := AllDigests(EntriesFor(c, v, ds));
    SortStringsDistinct(all);
    forall x ensures x in Elems(all) <==> x in Doomed(c, v) {
      assert x in all <==> Under(c, ds, x);
      UnderChosen(c, v, x);
    }
    assert Elems(all) == Doomed(c, v);
  }

  lemma UnderChosen(c: Catalog, v: Verdicts, x: Digest)
    ensures Under(c, SortedSeq(Chosen(c, v)), x) <==> x in Doomed(c, v)
  {
    var ds := SortedSeq(Chosen(c, v));
    if x in Doomed(c, v) {
      var root := DoomedCases(c, v, x);
      assert root in ds;
    }
    if Under(c, ds, x) {
      var d :| d in ds && (x == d || x in Subtree(c, d));
      if x != d { assert Cascades(c, v, x); }
    }
  }

  // ----- summary -----

  datatype Summary = Summary(
    manifests: int, selected: int, cascaded: int, blocked: int, kept: int, bytes: int,
    keptBecause: seq<(KeptReason, int)>)

  ghost function SumSizes(rs: seq<Referrer>): (r: int) {
    if rs == [] then 0 else SumSizes(rs[..|rs| - 1]) + rs[|rs| - 1].size
  }

  /** The manifest and its whole cascade. */
  method TotalSize(e: Entry) returns (total: int)
    ensures total == e.size + SumSizes(e.referrers)
  {
    total := e.size;
    assert e.referrers[..0] == [];
    for i := 0 to |e.referrers|
      invariant total == e.size + SumSizes(e.referrers[..i])
    {
      assert e.referrers[..i + 1][..i] == e.referrers[..i];
      total := total + e.referrers[i].size;
    }
    assert e.referrers[..|e.referrers|] == e.referrers;
  }

  ghost function SumCascades(es: seq<Entry>): (r: int) {
    if es == [] then 0 else SumCascades(es[..|es| - 1]) + |es[|es| - 1].referrers|
  }

  ghost function SumBytes(es: seq<Entry>): (r: int) {
    if es == [] then 0 else SumBytes(es[..|es| - 1]) + es[|es| - 1].size + SumSizes(es[|es| - 1].referrers)
  }

  ghost function CountReason(ks: seq<KeptEntry>, reason: KeptReason): (r: int) {
    if ks == [] then 0 else CountReason(ks[..|ks| - 1], reason) + (if ks[|ks| - 1].reason == reason then 1 else 0)
  }

  ghost function Breakdown(counts: seq<(KeptReason, int)>): (r: seq<(KeptReason, int)>) {
    if counts == [] then []
    else Breakdown(counts[..|counts| - 1]) + (if counts[|counts| - 1].1 > 0 then [counts[|counts| - 1]] else [])
  }

  /** A Go map read: a reason never counted reads as zero. */
  function CountAt(counts: map<KeptReason, int>, reason: KeptReason): (n: int) {
    if reason in counts then counts[reason] else 0
  }

  method CountKept(ks: seq<KeptEntry>) returns (counts: map<KeptReason, int>)
    ensures forall r {:trigger CountAt(counts, r)} :: CountAt(counts, r) == CountReason(ks, r)
  {
    counts := map[];
    assert ks[..0] == [];
    for i := 0 to |ks|
      invariant forall r {:trigger CountAt(counts, r)} :: CountAt(counts, r) == CountReason(ks[..i], r)
    {
      assert ks[..i + 1][..i] == ks[..i];
      var was := counts;
      counts := counts[ks[i].reason := CountAt(counts, ks[i].reason) + 1];
      forall r ensures CountAt(counts, r) == CountReason(ks[..i + 1], r) {
        assert CountAt(was, r) == CountReason(ks[..i], r);
      }
    }
    assert ks[..|ks|] == ks;
  }

  method SumEntries(es: seq<Entry>) returns (cascaded: int, bytes: int)
    ensures cascaded == SumCascades(es) && bytes == SumBytes(es)
  {
    cascaded, bytes := 0, 0;
    assert es[..0] == [];
    for i := 0 to |es|
      invariant cascaded == SumCascades(es[..i]) && bytes == SumBytes(es[..i])
    {
      assert es[..i + 1][..i] == es[..i];
      var size := TotalSize(es[i]);
      cascaded, bytes := cascaded + |es[i].referrers|, bytes + size;
    }
    assert es[..|es|] == es;
  }

  method Summarize(p: Plan) returns (s: Summary)
    ensures s.selected == |p.selected| && s.blocked == |p.blocked| && s.kept == |p.kept|
    ensures s.cascaded == SumCascades(p.selected) && s.bytes == SumBytes(p.selected)
    ensures s.manifests == s.selected + s.cascaded + s.blocked + s.kept
    ensures s.keptBecause ==
            Breakdown([(KeptByRule, CountReason(p.kept, KeptByRule)),
                       (KeptNoRuleApplies, CountReason(p.kept, KeptNoRuleApplies)),
                       (KeptNotSelectable, CountReason(p.kept, KeptNotSelectable))])
  {
    var cascaded, bytes := SumEntries(p.selected);
    var counts := CountKept(p.kept);
    var a, b, c := CountAt(counts, KeptByRule), CountAt(counts, KeptNoRuleApplies), CountAt(counts, KeptNotSelectable);
    var because: seq<(KeptReason, int)> := [];
    if a > 0 { because := because + [(KeptByRule, a)]; }
    if b > 0 { because := because + [(KeptNoRuleApplies, b)]; }
    if c > 0 { because := because + [(KeptNotSelectable, c)]; }
    BreakdownThree((KeptByRule, a), (KeptNoRuleApplies, b), (KeptNotSelectable, c));
    s := Summary(|p.selected| + cascaded + |p.blocked| + |p.kept|, |p.selected|, cascaded, |p.blocked|, |p.kept|, bytes,
        because);
  }

  lemma BreakdownThree(x: (KeptReason, int), y: (KeptReason, int), z: (KeptReason, int))
    ensures Breakdown([x, y, z]) ==
          (if x.1 > 0 then [x] else []) + (if y.1 > 0 then [y] else []) + (if z.1 > 0 then [z] else [])
  {
    assert [x][..0] == [];
    assert Breakdown([x]) == (if x.1 > 0 then [x] else []);
    assert [x, y][..1] == [x];
    assert Breakdown([x, y]) == Breakdown([x]) + (if y.1 > 0 then [y] else []);
    assert [x, y, z][..2] == [x, y];
  }

  lemma {:induction false} DigestCount(es: seq<Entry>)
    ensures |AllDigests(es)| == |es| + SumCascades(es)
  {
    if es != [] {
      DigestCount(es[..|es| - 1]);
    }
  }

  /** `Summary().Manifests` is the number of manifests the snapshot held. */
  lemma SummaryCountsInventory(repository: string, c: Catalog, v: Verdicts, now: Time)
    ensures var p := PlanOf(repository, c, v, now);
            |p.selected| + SumCascades(p.selected) + |p.blocked| + |p.kept| == |c|
  {
    var p := PlanOf(repository, c, v, now);
    DigestsOfPlan(repository, c, v, now);
    DigestCount(p.selected);
    PartitionSize(c, v);
    PlanPartitions(c, v);
    assert |Doomed(c, v)| == |Chosen(c, v)| + |Cascade(c, v)|;
  }

  /** Sizes of listed manifests. */
  ghost function Weigh(c: Catalog, ds: seq<Digest>): (r: int)
    requires forall d :: d in ds ==> d in c
  {
    if ds == [] then 0
    else
      assert ds[|ds| - 1] in ds && forall d :: d in ds[..|ds| - 1] ==> d in ds;
      Weigh(c, ds[..|ds| - 1]) + c[ds[|ds| - 1]].size
  }

  lemma {:induction false} WeighConcat(c: Catalog, xs: seq<Digest>, ys: seq<Digest>)
    requires forall d :: d in xs + ys ==> d in c
    requires (forall d :: d in xs ==> d in c) && (forall d :: d in ys ==> d in c)
    ensures Weigh(c, xs + ys) == Weigh(c, xs) + Weigh(c, ys)
  {
    if ys == [] {
      assert xs + ys == xs;
    } else {
      var front := ys[..|ys| - 1];
      assert forall d :: d in front ==> d in ys;
      assert (xs + ys)[..|xs + ys| - 1] == xs + front;
      assert forall d :: d in xs + front ==> d in xs + ys;
      WeighConcat(c, xs, front);
    }
  }

  /** The weight of a list does not depend on its order. */
  lemma {:induction false} WeighPermutation(c: Catalog, xs: seq<Digest>, ys: seq<Digest>)
    requires multiset(xs) == multiset(ys)
    requires (forall d :: d in xs ==> d in c) && (forall d :: d in ys ==> d in c)
    ensures Weigh(c, xs) == Weigh(c, ys)
    decreases |xs|
  {
    if xs == [] {
      assert |multiset(ys)| == 0;
    } else {
      var last, front := xs[|xs| - 1], xs[..|xs| - 1];
      var k := TakeOut(xs, ys);
      var a, b := ys[..k], ys[k + 1..];
      assert ys == a + [last] + b;
      assert forall d :: d in front ==> d in xs;
      assert forall d :: d in a + b ==> d in ys;
      WeighPermutation(c, front, a + b);
      WeighAround(c, a, last, b);
    }
  }

  lemma WeighAround(c: Catalog, a: seq<Digest>, x: Digest, b: seq<Digest>)
    requires forall d :: d in a + [x] + b ==> d in c
    ensures (forall d :: d in a + b ==> d in c) && x in c
    ensures Weigh(c, a + [x] + b) == Weigh(c, a + b) + c[x].size
  {
    assert forall d :: d in a || d == x || d in b ==> d in a + [x] + b;
    WeighConcat(c, a + [x], b);
    WeighConcat(c, a, b);
    assert (a + [x])[..|a|] == a;
  }

  lemma {:induction false} ReferrerSizes(c: Catalog, xs: seq<Digest>)
    requires forall x :: x in xs ==> x in c
    ensures SumSizes(ReferrersFor(c, xs)) == Weigh(c, xs)
  {
    if xs != [] {
      var front := xs[..|xs| - 1];
      assert forall x :: x in front ==> x in xs;
      assert xs[|xs| - 1] in xs;
      ReferrerSizes(c, front);
      assert ReferrersFor(c, xs)[..|xs| - 1] == ReferrersFor(c, front);
    }
  }

  /** The entry accounts for the sizes of the manifests it deletes. */
  ghost predicate Accounts(c: Catalog, e: Entry) {
    (forall x :: x in EntryDigests(e) ==> x in c) && e.size + SumSizes(e.referrers) == Weigh(c, EntryDigests(e))
  }

  lemma EntryAccounts(c: Catalog, v: Verdicts, d: Digest)
    requires d in c
    ensures Accounts(c, EntryFor(c, v, d))
  {
    EntryDigestsOf(c, v, d);
    var xs := SortedSeq(Subtree(c, d));
    ReferrerSizes(c, xs);
    WeighConcat(c, [d], xs);
    assert [d][..0] == [];
  }

  lemma {:induction false} EntriesAccount(c: Catalog, es: seq<Entry>)
    requires forall e :: e in es ==> Accounts(c, e)
    ensures forall x :: x in AllDigests(es) ==> x in c
    ensures SumBytes(es) == Weigh(c, AllDigests(es))
  {
    if es != [] {
      var front, last := es[..|es| - 1], es[|es| - 1];
      assert last in es && forall e :: e in front ==> e in es;
      EntriesAccount(c, front);
      assert Accounts(c, last);
      WeighConcat(c, AllDigests(front), EntryDigests(last));
    }
  }

  lemma PlanAccounts(c: Catalog, v: Verdicts, ds: seq<Digest>)
    requires forall d :: d in ds ==> d in c
    ensures forall x :: x in AllDigests(EntriesFor(c, v, ds)) ==> x in c
    ensures SumBytes(EntriesFor(c, v, ds)) == Weigh(c, AllDigests(EntriesFor(c, v, ds)))
  {
    var es := EntriesFor(c, v, ds);
    forall e | e in es ensures Accounts(c, e) {
      var i :| 0 <= i < |es| && es[i] == e;
      EntryAccounts(c, v, ds[i]);
    }
    EntriesAccount(c, es);
  }

  lemma SortKeeps(xs: seq<Digest>)
    ensures multiset(SortStrings(xs)) == multiset(xs)
    ensures forall x :: x in SortStrings(xs) <==> x in xs
  {
    forall x ensures x in SortStrings(xs) <==> x in xs {
      assert x in multiset(SortStrings(xs)) <==> x in multiset(xs);
    }
  }

  /** `Summary().Bytes` is the size of what the plan deletes, each manifest counted once. */
  lemma SummaryBytes(repository: string, c: Catalog, v: Verdicts, now: Time)
    ensures SumBytes(PlanOf(repository, c, v, now).selected) == Weigh(c, SortedSeq(Doomed(c, v)))
  {
    DigestsOfPlan(repository, c, v, now);
    var ds := SortedSeq(Chosen(c, v));
    PlanAccounts(c, v, ds);
    var all := AllDigests(EntriesFor(c, v, ds));
    SortKeeps(all);
    WeighPermutation(c, all, SortStrings(all));
  }

  // ----- the laws, said of the digests a plan lists -----

  lemma ListedIsDoomed(repository: string, c: Catalog, v: Verdicts, now: Time, x: Digest)
    ensures x in AllDigests(PlanOf(repository, c, v, now).selected) <==> x in Doomed(c, v)
  {
    DigestsOfPlan(repository, c, v, now);
    SortKeeps(AllDigests(PlanOf(repository, c, v, now).selected));
  }

  /** No digest a plan lists carries a protected or immutable tag or is a child of any
      manifest, and nothing attached to one survives it. */
  lemma PlannedDigestsAreSafe(repository: string, c: Catalog, R: set<CompiledRule>, now: Time, x: Digest)
    requires EvaluationOf(repository, c, R, now).Planned?
    requires x in AllDigests(EvaluationOf(repository, c, R, now).plan.selected)
    ensures x in c && !Shielded(c[x]) && forall p :: p in c ==> x !in c[p].children
    ensures forall y {:trigger c[y]} ::
          y in c && c[y].subject == x ==> y in AllDigests(EvaluationOf(repository, c, R, now).plan.selected)
  {
    var v := VerdictsIn(RulingsOf(c, R, now));
    ListedIsDoomed(repository, c, v, now, x);
    DeletesNothingPinned(c, v, x);
    forall y | y in c && c[y].subject == x ensures y in AllDigests(PlanOf(repository, c, v, now).selected) {
      DeletionClosed(c, v, y);
      ListedIsDoomed(repository, c, v, now, y);
    }
  }

  /** Marking tags protected or immutable and evaluating again gives a conflict, or a plan
      that lists no digest the first plan did not. */
  lemma ProtectionDeletesNoMore(repository: string, s: seq<Manifest>, t: seq<Manifest>, R: set<CompiledRule>, now: Time,
                                x: Digest)
    requires Accepted(s) && HardenedSnapshot(s, t)
    requires
      && EvaluationOf(repository, CatalogOf(s), R, now).Planned?
      && EvaluationOf(repository, CatalogOf(t), R, now).Planned?
    requires x in AllDigests(EvaluationOf(repository, CatalogOf(t), R, now).plan.selected)
    ensures x in AllDigests(EvaluationOf(repository, CatalogOf(s), R, now).plan.selected)
  {
    ProtectionMonotone(repository, s, t, R, now);
    ListedIsDoomed(repository, CatalogOf(t), VerdictsIn(RulingsOf(CatalogOf(t), R, now)), now, x);
    ListedIsDoomed(repository, CatalogOf(s), VerdictsIn(RulingsOf(CatalogOf(s), R, now)), now, x);
  }
}
