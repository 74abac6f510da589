/**
 The plan: what each selection cascades to, which selections are refused, and
 what survives and why. Models internal/policy/plan.go.
 */
module Plans {
  import opened Wrappers
  import opened Order
  import opened SubjectGraph
  import opened Snapshots
  import opened Inventories
  import opened Retention

  datatype Referrer = Referrer(digest: Digest, subject: Digest, size: int, artifactTags: seq<string>)

  datatype Entry = Entry(
    digest: Digest, tags: seq<string>, size: int,
    rule: string, kind: RuleKind, priority: int, alsoSelectedBy: seq<string>,
    referrers: seq<Referrer>)

  datatype BlockedEntry = BlockedEntry(
    digest: Digest, tags: seq<string>,
    rule: string, kind: RuleKind, priority: int,
    referrer: Digest, blocker: Exclusion)

  datatype KeptReason = KeptByRule | KeptNoRuleApplies | KeptNotSelectable

  datatype KeptEntry = KeptEntry(
    digest: Digest, tags: seq<string>, reason: KeptReason,
    rule: string, kind: RuleKind, priority: int, alsoKeptBy: seq<string>,
    exclusions: seq<Exclusion>)

  datatype Plan = Plan(
    repository: string, evaluatedAt: Time, selected: seq<Entry>, blocked: seq<BlockedEntry>, kept: seq<KeptEntry>)

  type Verdicts = map<Digest, Verdict>

  function TagNames(m: Manifest): (r: seq<string>) { SortStrings(NamesOf(m.tags)) }

  /** A Go map read: a missing verdict is the zero verdict. */
  function VerdictAt(v: Verdicts, d: Digest): (r: Verdict) { if d in v then v[d] else SILENT }

  // ----- the plan a catalog and its verdicts mean -----

  /** What the rules would delete. */
  ghost function Targets(c: Catalog, v: Verdicts): (r: set<Digest>) {
    set d | d in Selectable(c) && VerdictAt(v, d).applicable && !VerdictAt(v, d).keep
  }

  /** The cascade members that may not be deleted. */
  ghost function PinnedUnder(c: Catalog, d: Digest): (r: set<Digest>) {
    set x | x in Subtree(c, d) && Pinned(c, x)
  }

  ghost function Chosen(c: Catalog, v: Verdicts): (r: set<Digest>) {
    set d | d in Targets(c, v) && PinnedUnder(c, d) == {}
  }

  ghost function Refused(c: Catalog, v: Verdicts): (r: set<Digest>) {
    set d | d in Targets(c, v) && PinnedUnder(c, d) != {}
  }

  /** `x` dies as an attachment of a chosen manifest. */
  ghost predicate Cascades(c: Catalog, v: Verdicts, x: Digest) {
    exists d :: d in Chosen(c, v) && x in Subtree(c, d)
  }

  ghost function Cascade(c: Catalog, v: Verdicts): (r: set<Digest>) {
    set x | x in c && Cascades(c, v, x)
  }

  ghost function Survivors(c: Catalog, v: Verdicts): (r: set<Digest>) {
    set d | d in c && d !in Chosen(c, v) && d !in Refused(c, v) && d !in Cascade(c, v)
  }

  ghost function FirstBlocking(xs: seq<Exclusion>): (x: Exclusion)
    requires exists x :: x in xs && Blocking(x)
    ensures x in xs && Blocking(x)
  {
    if Blocking(xs[0]) then xs[0]
    else
      assert xs == [xs[0]] + xs[1..];
      FirstBlocking(xs[1..])
  }

  function ReferrerFor(c: Catalog, x: Digest): (r: Referrer)
    requires x in c
  {
    Referrer(x, c[x].subject, c[x].size, TagNames(c[x]))
  }

  function ReferrersFor(c: Catalog, xs: seq<Digest>): (r: seq<Referrer>)
    requires forall x :: x in xs ==> x in c
    ensures |r| == |xs|
    ensures forall i {:trigger r[i]} :: 0 <= i < |xs| ==> r[i] == ReferrerFor(c, xs[i])
  {
    seq(|xs|, i requires 0 <= i < |xs| => ReferrerFor(c, xs[i]))
  }

  ghost function EntryFor(c: Catalog, v: Verdicts, d: Digest): (e: Entry)
    requires d in c
  {
    var w := VerdictAt(v, d);
    Entry(d, TagNames(c[d]), c[d].size, w.rule, w.kind, w.priority, w.agreeing,
      ReferrersFor(c, SortedSeq(Subtree(c, d))))
  }

  ghost function BlockedFor(c: Catalog, v: Verdicts, d: Digest): (e: BlockedEntry)
    requires d in c && PinnedUnder(c, d) != {}
  {
    var w := VerdictAt(v, d);
    var x := Least(PinnedUnder(c, d));
    PinnedMeaning(c, x);
    BlockedEntry(d, TagNames(c[d]), w.rule, w.kind, w.priority, x, FirstBlocking(ExclusionsOf(c, x)))
  }

  ghost function KeptFor(c: Catalog, v: Verdicts, d: Digest): (e: KeptEntry)
    requires d in c
  {
    var w := VerdictAt(v, d);
    if ExclusionsOf(c, d) != [] then
      KeptEntry(d, TagNames(c[d]), KeptNotSelectable, "", UnknownKind(""), 0, [], ExclusionsOf(c, d))
    else if !w.applicable then
      KeptEntry(d, TagNames(c[d]), KeptNoRuleApplies, "", UnknownKind(""), 0, [], [])
    else
      KeptEntry(d, TagNames(c[d]), KeptByRule, w.rule, w.kind, w.priority, w.agreeing, [])
  }

  ghost function EntriesFor(c: Catalog, v: Verdicts, ds: seq<Digest>): (r: seq<Entry>)
    requires forall d :: d in ds ==> d in c
    ensures |r| == |ds|
    ensures forall i {:trigger r[i]} :: 0 <= i < |ds| ==> r[i] == EntryFor(c, v, ds[i])
  {
    seq(|ds|, i requires 0 <= i < |ds| => EntryFor(c, v, ds[i]))
  }

  ghost function BlocksFor(c: Catalog, v: Verdicts, ds: seq<Digest>): (r: seq<BlockedEntry>)
    requires forall d :: d in ds ==> d in c && PinnedUnder(c, d) != {}
    ensures |r| == |ds|
    ensures forall i {:trigger r[i]} :: 0 <= i < |ds| ==> r[i] == BlockedFor(c, v, ds[i])
  {
    seq(|ds|, i requires 0 <= i < |ds| => BlockedFor(c, v, ds[i]))
  }

  ghost function KeepsFor(c: Catalog, v: Verdicts, ds: seq<Digest>): (r: seq<KeptEntry>)
    requires forall d :: d in ds ==> d in c
    ensures |r| == |ds|
    ensures forall i {:trigger r[i]} :: 0 <= i < |ds| ==> r[i] == KeptFor(c, v, ds[i])
  {
    seq(|ds|, i requires 0 <= i < |ds| => KeptFor(c, v, ds[i]))
  }

  /** The plan, with every list in digest order. */
  ghost function PlanOf(repository: string, c: Catalog, v: Verdicts, now: Time): (p: Plan) {
    Plan(repository, now,
         EntriesFor(c, v, SortedSeq(Chosen(c, v))),
         BlocksFor(c, v, SortedSeq(Refused(c, v))),
         KeepsFor(c, v, SortedSeq(Survivors(c, v))))
  }

  // ----- listing part of a listing -----

  /** The members of `ds` that are in `S`, in order. */
  ghost function Only(ds: seq<Digest>, S: set<Digest>): (r: seq<Digest>)
    ensures forall d :: d in r ==> d in S && d in ds
  {
    if ds == [] then []
    else
      var last := ds[|ds| - 1];
      assert last in ds && forall d :: d in ds[..|ds| - 1] ==> d in ds;
      Only(ds[..|ds| - 1], S) + (if last in S then [last] else [])
  }

  lemma OnlySnoc(ds: seq<Digest>, d: Digest, S: set<Digest>)
    ensures Only(ds + [d], S) == Only(ds, S) + (if d in S then [d] else [])
  {
    assert (ds + [d])[..|ds|] == ds;
  }

  lemma FrontIncreasing(ds: seq<Digest>)
    requires Increasing(ds) && ds != []
    ensures Increasing(ds[..|ds| - 1])
    ensures forall i :: 0 <= i < |ds| - 1 ==> LexLt(ds[i], ds[|ds| - 1])
  {
    var front := ds[..|ds| - 1];
    forall i, j | 0 <= i < j < |front|
      ensures LexLt(front[i], front[j])
    {
      assert LexLt(ds[i], ds[j]);
    }
  }

  lemma {:induction false} OnlyListing(ds: seq<Digest>, S: set<Digest>)
    requires Increasing(ds)
    ensures Increasing(Only(ds, S))
    ensures forall d :: d in Only(ds, S) <==> d in S && d in ds
  {
    if ds != [] {
      var front, last := ds[..|ds| - 1], ds[|ds| - 1];
      FrontIncreasing(ds);
      OnlyListing(front, S);
      assert ds == front + [last];
      var kept := Only(front, S);
      forall i | 0 <= i < |kept|
        ensures LexLt(kept[i], last)
      {
        assert kept[i] in front;
        var k :| 0 <= k < |front| && front[k] == kept[i];
        assert LexLt(ds[k], ds[|ds| - 1]);
      }
      assert forall i :: 0 <= i < |kept| ==> Only(ds, S)[i] == kept[i];
      forall i, j | 0 <= i < j < |Only(ds, S)|
        ensures LexLt(Only(ds, S)[i], Only(ds, S)[j])
      {
        if j < |kept| { assert LexLt(kept[i], kept[j]); }
      }
    }
  }

  lemma OnlyIs(X: set<Digest>, S: set<Digest>)
    requires S <= X
    ensures Only(SortedSeq(X), S) == SortedSeq(S)
  {
    OnlyListing(SortedSeq(X), S);
    SortedSeqOf(S, Only(SortedSeq(X), S));
  }

  // ----- building it -----

  /** What the value-level builders read of an inventory. */
  ghost predicate Reads(c: Catalog, referrers: map<Digest, seq<Digest>>, excludedBy: map<Digest, seq<Exclusion>>) {
    && Keyed(c)
    && ListsReferrers(c, referrers)
    && !HasCycle(Subjects(c))
    && forall d {:trigger At(excludedBy, d)} :: d in c ==> At(excludedBy, d) == ExclusionsOf(c, d)
  }

  /** The first exclusion a cascade may not walk through. */
  method FindBlocking(xs: seq<Exclusion>) returns (r: Option<Exclusion>)
    ensures r.Some? <==> exists x :: x in xs && Blocking(x)
    ensures r.Some? ==> r.value == FirstBlocking(xs)
  {
    for i := 0 to |xs|
      invariant forall k {:trigger xs[k]} :: 0 <= k < i ==> !Blocking(xs[k])
    {
      if xs[i].reason == ExcludedLiveSubject { continue; }
      FirstBlockingAt(xs, i);
      return Some(xs[i]);
    }
    r := None;
  }

  lemma {:induction false} FirstBlockingAt(xs: seq<Exclusion>, i: nat)
    requires i < |xs| && Blocking(xs[i]) && forall k {:trigger xs[k]} :: 0 <= k < i ==> !Blocking(xs[k])
    ensures xs[i] in xs && FirstBlocking(xs) == xs[i]
  {
    assert xs[i] in xs;
    if i > 0 {
      assert !Blocking(xs[0]);
      assert forall k :: 0 <= k < i - 1 ==> xs[1..][k] == xs[k + 1];
      FirstBlockingAt(xs[1..], i - 1);
    }
  }

  /** The first cascade member, in digest order, that cannot be deleted, and why. */
  method FirstProtectedReferrer(c: Catalog, excludedBy: map<Digest, seq<Exclusion>>, root: Digest, subtree: seq<Digest>)
      returns (r: Option<(Digest, Exclusion)>)
    requires forall d {:trigger At(excludedBy, d)} :: d in c ==> At(excludedBy, d) == ExclusionsOf(c, d)
    requires subtree == SortedSeq(Subtree(c, root))
    ensures r.Some? <==> PinnedUnder(c, root) != {}
    ensures r.Some? ==>
          && r.value.0 == Least(PinnedUnder(c, root))
          && r.value.0 in c
          && At(excludedBy, r.value.0) == ExclusionsOf(c, r.value.0)
    ensures r.Some? ==>
          && (exists x :: x in ExclusionsOf(c, r.value.0) && Blocking(x))
          && r.value.1 == FirstBlocking(ExclusionsOf(c, r.value.0))
  {
    for i := 0 to |subtree|
      invariant forall k {:trigger subtree[k]} :: 0 <= k < i ==> subtree[k] in c && !Pinned(c, subtree[k])
    {
      assert subtree[i] in Subtree(c, root);
      PinnedMeaning(c, subtree[i]);
      var found := FindBlocking(At(excludedBy, subtree[i]));
      if found.Some? {
        LeastPinned(c, root, subtree, i);
        return Some((subtree[i], found.value));
      }
    }
    assert forall x :: x in Subtree(c, root) ==> x in subtree;
    r := None;
  }

  lemma LeastPinned(c: Catalog, root: Digest, subtree: seq<Digest>, i: nat)
    requires subtree == SortedSeq(Subtree(c, root)) && i < |subtree|
    requires subtree[i] in c && Pinned(c, subtree[i])
    requires forall k {:trigger subtree[k]} :: 0 <= k < i ==> subtree[k] in c && !Pinned(c, subtree[k])
    ensures PinnedUnder(c, root) != {} && Least(PinnedUnder(c, root)) == subtree[i]
  {
    var P := PinnedUnder(c, root);
    assert subtree[i] in P;
    var m := Least(P);
    assert m in subtree;
    var k :| 0 <= k < |subtree| && subtree[k] == m;
    if i < k {
      assert LexLt(subtree[i], subtree[k]);
      LexAntisymmetric(subtree[i], m);
    }
  }

  datatype Selections = Selections(
    entries: seq<Entry>, blocks: seq<BlockedEntry>,
    selected: set<Digest>, blocked: set<Digest>, cascading: set<Digest>)

  /** The selections among the manifests visited so far. */
  ghost function SoFar(c: Catalog, v: Verdicts, visited: seq<Digest>): (s: Selections) {
    Selections(
      EntriesFor(c, v, Only(visited, Chosen(c, v))),
      BlocksFor(c, v, Only(visited, Refused(c, v))),
      Among(visited, Chosen(c, v)),
      Among(visited, Refused(c, v)),
      DyingFrom(c, v, visited))
  }

  ghost function Among(visited: seq<Digest>, S: set<Digest>): (r: set<Digest>) {
    set d | d in visited && d in S
  }

  ghost function DyingFrom(c: Catalog, v: Verdicts, visited: seq<Digest>): (r: set<Digest>) {
    set x | x in c && CascadesFrom(c, v, visited, x)
  }

  lemma AmongSnoc(visited: seq<Digest>, d: Digest, S: set<Digest>)
    ensures Among(visited + [d], S) == Among(visited, S) + (if d in S then {d} else {})
  {
  }

  lemma DyingSnoc(c: Catalog, v: Verdicts, visited: seq<Digest>, d: Digest)
    ensures DyingFrom(c, v, visited + [d]) ==
          DyingFrom(c, v, visited) + (if d in Chosen(c, v) then Subtree(c, d) else {})
  {
    forall x
      ensures CascadesFrom(c, v, visited + [d], x) <==>
              CascadesFrom(c, v, visited, x) || (d in Chosen(c, v) && x in Subtree(c, d))
    {
      CascadesSnoc(c, v, visited, d, x);
    }
  }

  lemma SoFarSnoc(c: Catalog, v: Verdicts, visited: seq<Digest>, d: Digest)
    ensures SoFar(c, v, visited + [d]).selected ==
          SoFar(c, v, visited).selected + (if d in Chosen(c, v) then {d} else {})
    ensures SoFar(c, v, visited + [d]).blocked ==
          SoFar(c, v, visited).blocked + (if d in Refused(c, v) then {d} else {})
    ensures SoFar(c, v, visited + [d]).cascading ==
          SoFar(c, v, visited).cascading + (if d in Chosen(c, v) then Subtree(c, d) else {})
  {
    AmongSnoc(visited, d, Chosen(c, v));
    AmongSnoc(visited, d, Refused(c, v));
    DyingSnoc(c, v, visited, d);
  }

  ghost predicate CascadesFrom(c: Catalog, v: Verdicts, visited: seq<Digest>, x: Digest) {
    exists d :: d in visited && d in Chosen(c, v) && x in Subtree(c, d)
  }

  lemma CascadesSnoc(c: Catalog, v: Verdicts, visited: seq<Digest>, d: Digest, x: Digest)
    ensures CascadesFrom(c, v, visited + [d], x) <==>
        CascadesFrom(c, v, visited, x) || (d in Chosen(c, v) && x in Subtree(c, d))
  {
    if CascadesFrom(c, v, visited + [d], x) {
      var r :| r in visited + [d] && r in Chosen(c, v) && x in Subtree(c, r);
      assert r == d || r in visited;
    }
    if CascadesFrom(c, v, visited, x) {
      var r :| r in visited && r in Chosen(c, v) && x in Subtree(c, r);
      assert r in visited + [d];
    }
    if d in Chosen(c, v) && x in Subtree(c, d) { assert d in visited + [d]; }
  }

  lemma SoFarEntries(c: Catalog, v: Verdicts, visited: seq<Digest>, d: Digest)
    ensures SoFar(c, v, visited + [d]).entries ==
          SoFar(c, v, visited).entries + (if d in Chosen(c, v) then [EntryFor(c, v, d)] else [])
  {
    OnlySnoc(visited, d, Chosen(c, v));
    if d in Chosen(c, v) { EntriesSnoc(c, v, Only(visited, Chosen(c, v)), d); }
  }

  lemma SoFarBlocks(c: Catalog, v: Verdicts, visited: seq<Digest>, d: Digest)
    ensures SoFar(c, v, visited + [d]).blocks ==
          SoFar(c, v, visited).blocks + (if d in Refused(c, v) then [BlockedFor(c, v, d)] else [])
  {
    OnlySnoc(visited, d, Refused(c, v));
    if d in Refused(c, v) { BlocksSnoc(c, v, Only(visited, Refused(c, v)), d); }
  }

  lemma EntriesSnoc(c: Catalog, v: Verdicts, ds: seq<Digest>, d: Digest)
    requires d in c && forall x :: x in ds ==> x in c
    ensures EntriesFor(c, v, ds + [d]) == EntriesFor(c, v, ds) + [EntryFor(c, v, d)]
  {
  }

  lemma BlocksSnoc(c: Catalog, v: Verdicts, ds: seq<Digest>, d: Digest)
    requires d in c && PinnedUnder(c, d) != {} && forall x :: x in ds ==> x in c && PinnedUnder(c, x) != {}
    ensures BlocksFor(c, v, ds + [d]) == BlocksFor(c, v, ds) + [BlockedFor(c, v, d)]
  {
  }


  /** The cascade's rows, and the digests that die with the entry. */
  method BuildReferrers(c: Catalog, subtree: seq<Digest>) returns (attached: seq<Referrer>, dying: set<Digest>)
    requires forall x :: x in subtree ==> x in c
    ensures attached == ReferrersFor(c, subtree) && dying == Elems(subtree)
  {
    attached, dying := [], {};
    for i := 0 to |subtree|
      invariant
        && |attached| == i
        && forall k {:trigger attached[k]} :: 0 <= k < i ==> attached[k] == ReferrerFor(c, subtree[k])
      invariant dying == Elems(subtree[..i])
    {
      assert subtree[..i + 1] == subtree[..i] + [subtree[i]];
      attached := attached + [ReferrerFor(c, subtree[i])];
      dying := dying + {subtree[i]};
    }
    assert subtree[..|subtree|] == subtree;
  }

  datatype Judgement = Passed | Barred(block: BlockedEntry) | Taken(entry: Entry, dying: set<Digest>)

  ghost predicate Judged(c: Catalog, v: Verdicts, d: Digest, j: Judgement)
    requires d in Selectable(c)
  {
    match j
    case Passed => d !in Chosen(c, v) && d !in Refused(c, v)
    case Barred(b) => d in Refused(c, v) && b == BlockedFor(c, v, d)
    case Taken(e, dying) => d in Chosen(c, v) && e == EntryFor(c, v, d) && dying == Subtree(c, d)
  }

  /** Decides one selectable manifest: passed over, refused, or taken with its cascade. */
  method Judge(c: Catalog, referrers: map<Digest, seq<Digest>>, excludedBy: map<Digest, seq<Exclusion>>, m: Manifest,
               verdicts: Verdicts)
    returns (j: Judgement)
    requires Reads(c, referrers, excludedBy)
    requires m.digest in Selectable(c) && c[m.digest] == m
    ensures Judged(c, verdicts, m.digest, j)
  {
    var decided := VerdictAt(verdicts, m.digest);
    if !decided.applicable || decided.keep { return Passed; }
    var subtree := CollectSubtree(c, referrers, m.digest);
    var pinned := FirstProtectedReferrer(c, excludedBy, m.digest, subtree);
    if pinned.Some? {
      return Barred(BlockedEntry(m.digest, TagNames(m), decided.rule, decided.kind, decided.priority, pinned.value.0,
        pinned.value.1));
    }
    var attached, dying := BuildReferrers(c, subtree);
    j := Taken(Entry(m.digest, TagNames(m), m.size, decided.rule, decided.kind, decided.priority, decided.agreeing,
        attached), dying);
  }

  function Record(s: Selections, d: Digest, j: Judgement): (r: Selections) {
    match j
    case Passed => s
    case Barred(b) => s.(blocks := s.blocks + [b], blocked := s.blocked + {d})
    case Taken(e, dying) =>
      s.(entries := s.entries + [e], selected := s.selected + {d}, cascading := s.cascading + dying)
  }

  lemma RecordStep(c: Catalog, v: Verdicts, visited: seq<Digest>, d: Digest, next: seq<Digest>, j: Judgement)
    requires d in Selectable(c) && Judged(c, v, d, j) && next == visited + [d]
    ensures SoFar(c, v, next) == Record(SoFar(c, v, visited), d, j)
  {
    assert d in Chosen(c, v) ==> d !in Refused(c, v);
    Recorded(c, v, visited, d, j, d in Chosen(c, v), d in Refused(c, v));
  }

  lemma Recorded(c: Catalog, v: Verdicts, visited: seq<Digest>, d: Digest, j: Judgement, chosen: bool, refused: bool)
    requires d in Selectable(c) && Judged(c, v, d, j)
    requires chosen == (d in Chosen(c, v)) && refused == (d in Refused(c, v)) && !(chosen && refused)
    ensures SoFar(c, v, visited + [d]) == Record(SoFar(c, v, visited), d, j)
  {
    SoFarEntries(c, v, visited, d);
    SoFarBlocks(c, v, visited, d);
    SoFarSnoc(c, v, visited, d);
    SameRecord(SoFar(c, v, visited), SoFar(c, v, visited + [d]), d, j);
  }

  lemma SameRecord(s: Selections, n: Selections, d: Digest, j: Judgement)
    requires
      && n.entries == s.entries + (if j.Taken? then [j.entry] else [])
      && n.blocks == s.blocks + (if j.Barred? then [j.block] else [])
    requires
      && n.selected == s.selected + (if j.Taken? then {d} else {})
      && n.blocked == s.blocked + (if j.Barred? then {d} else {})
    requires n.cascading == s.cascading + (if j.Taken? then j.dying else {})
    ensures n == Record(s, d, j)
  {
    assert n == Selections(n.entries, n.blocks, n.selected, n.blocked, n.cascading);
  }

  ghost predicate RowsAre(c: Catalog, keys: seq<Digest>, rows: seq<Manifest>) {
    && |rows| == |keys|
    && forall i {:trigger rows[i]} ::
         0 <= i < |rows| ==> keys[i] in Selectable(c) && rows[i] == c[keys[i]] && rows[i].digest == keys[i]
  }

  method SelectAll(c: Catalog, referrers: map<Digest, seq<Digest>>, excludedBy: map<Digest, seq<Exclusion>>,
                   selectable: seq<Manifest>, verdicts: Verdicts, ghost keys: seq<Digest>)
      returns (s: Selections)
    requires Reads(c, referrers, excludedBy) && RowsAre(c, keys, selectable)
    ensures s == SoFar(c, verdicts, keys)
  {
    s := Selections([], [], {}, {}, {});
    assert keys[..0] == [];
    for i := 0 to |selectable|
      invariant s == SoFar(c, verdicts, keys[..i])
    {
      assert keys[..i + 1] == keys[..i] + [keys[i]];
      s := SelectNext(c, referrers, excludedBy, selectable[i], verdicts, s, keys[..i], keys[..i + 1]);
    }
    assert keys[..|selectable|] == keys;
  }

  method SelectNext(c: Catalog, referrers: map<Digest, seq<Digest>>, excludedBy: map<Digest, seq<Exclusion>>,
                    m: Manifest, verdicts: Verdicts,
                    s0: Selections, ghost visited: seq<Digest>, ghost next: seq<Digest>) returns (s: Selections)
    requires Reads(c, referrers, excludedBy) && m.digest in Selectable(c) && c[m.digest] == m
    requires next == visited + [m.digest] && s0 == SoFar(c, verdicts, visited)
    ensures s == SoFar(c, verdicts, next)
  {
    var j := Judge(c, referrers, excludedBy, m, verdicts);
    RecordStep(c, verdicts, visited, m.digest, next, j);
    s := Record(s0, m.digest, j);
  }

  lemma PickRow(c: Catalog, X: set<Digest>, i: nat)
    requires Keyed(c) && X <= c.Keys && i < |SortedSeq(X)|
    ensures SortedSeq(X)[i] in X
    ensures Pick(c, SortedSeq(X))[i] == c[SortedSeq(X)[i]] && c[SortedSeq(X)[i]].digest == SortedSeq(X)[i]
  {
    assert SortedSeq(X)[i] in SortedSeq(X);
  }

  lemma SelectableRows(c: Catalog)
    requires Keyed(c)
    ensures RowsAre(c, SortedSeq(Selectable(c)), Pick(c, SortedSeq(Selectable(c))))
  {
    forall i | 0 <= i < |SortedSeq(Selectable(c))|
      ensures SortedSeq(Selectable(c))[i] in Selectable(c)
    {
      PickRow(c, Selectable(c), i);
    }
  }

  /** Explains one survivor. */
  method ExplainKept(c: Catalog, excludedBy: map<Digest, seq<Exclusion>>, m: Manifest, w: Verdict, ghost v: Verdicts)
    returns (e: KeptEntry)
    requires m.digest in c && c[m.digest] == m && w == VerdictAt(v, m.digest)
    requires At(excludedBy, m.digest) == ExclusionsOf(c, m.digest)
    ensures e == KeptFor(c, v, m.digest)
  {
    var exclusions := At(excludedBy, m.digest);
    if |exclusions| > 0 {
      return KeptEntry(m.digest, TagNames(m), KeptNotSelectable, "", UnknownKind(""), 0, [], exclusions);
    }
    if !w.applicable {
      return KeptEntry(m.digest, TagNames(m), KeptNoRuleApplies, "", UnknownKind(""), 0, [], []);
    }
    e := KeptEntry(m.digest, TagNames(m), KeptByRule, w.rule, w.kind, w.priority, w.agreeing, []);
  }

  lemma KeepsSnoc(c: Catalog, v: Verdicts, ds: seq<Digest>, d: Digest)
    requires d in c && forall x :: x in ds ==> x in c
    ensures KeepsFor(c, v, ds + [d]) == KeepsFor(c, v, ds) + [KeptFor(c, v, d)]
  {
  }

  lemma KeptStep(c: Catalog, v: Verdicts, visited: seq<Digest>, d: Digest, S: set<Digest>)
    requires d in c && S <= c.Keys
    ensures KeepsFor(c, v, Only(visited + [d], S)) ==
          KeepsFor(c, v, Only(visited, S)) + (if d in S then [KeptFor(c, v, d)] else [])
  {
    OnlySnoc(visited, d, S);
    KeepsSnoc(c, v, Only(visited, S), d);
  }

  method KeepRest(c: Catalog, excludedBy: map<Digest, seq<Exclusion>>, manifests: seq<Manifest>, verdicts: Verdicts,
                  s: Selections, ghost S: set<Digest>)
      returns (kept: seq<KeptEntry>)
    requires Keyed(c) && manifests == Listing(c)
    requires forall d {:trigger At(excludedBy, d)} :: d in c ==> At(excludedBy, d) == ExclusionsOf(c, d)
    requires S == c.Keys - s.selected - s.blocked - s.cascading
    ensures kept == KeepsFor(c, verdicts, Only(SortedSeq(c.Keys), S))
  {
    ghost var keys := SortedSeq(c.Keys);
    kept := [];
    assert keys[..0] == [];
    for i := 0 to |manifests|
      invariant kept == KeepsFor(c, verdicts, Only(keys[..i], S))
    {
      PickRow(c, c.Keys, i);
      assert keys[..i + 1] == keys[..i] + [keys[i]];
      KeptStep(c, verdicts, keys[..i], keys[i], S);
      var more := KeepNext(c, excludedBy, manifests[i], verdicts, s, S);
      kept := kept + more;
    }
    assert keys[..|manifests|] == keys;
  }

  method KeepNext(c: Catalog, excludedBy: map<Digest, seq<Exclusion>>, m: Manifest, verdicts: Verdicts, s: Selections,
                  ghost S: set<Digest>)
      returns (kept: seq<KeptEntry>)
    requires m.digest in c && c[m.digest] == m && At(excludedBy, m.digest) == ExclusionsOf(c, m.digest)
    requires S == c.Keys - s.selected - s.blocked - s.cascading
    ensures kept == if m.digest in S then [KeptFor(c, verdicts, m.digest)] else []
  {
    if m.digest in s.selected || m.digest in s.cascading || m.digest in s.blocked { return []; }
    var e := ExplainKept(c, excludedBy, m, VerdictAt(verdicts, m.digest), verdicts);
    kept := [e];
  }

  lemma SelectionsComplete(c: Catalog, v: Verdicts, s: Selections)
    requires s == SoFar(c, v, SortedSeq(Selectable(c)))
    ensures s.selected == Chosen(c, v) && s.blocked == Refused(c, v) && s.cascading == Cascade(c, v)
    ensures s.entries == EntriesFor(c, v, SortedSeq(Chosen(c, v)))
    ensures s.blocks == BlocksFor(c, v, SortedSeq(Refused(c, v)))
  {
    OnlyIs(Selectable(c), Chosen(c, v));
    OnlyIs(Selectable(c), Refused(c, v));
    CascadeComplete(c, v);
  }

  lemma CascadeComplete(c: Catalog, v: Verdicts)
    ensures DyingFrom(c, v, SortedSeq(Selectable(c))) == Cascade(c, v)
  {
    var keys := SortedSeq(Selectable(c));
    forall x ensures x in DyingFrom(c, v, keys) <==> x in Cascade(c, v) {
      if x in Cascade(c, v) {
        var d :| d in Chosen(c, v) && x in Subtree(c, d);
        assert d in Selectable(c) && d in keys;
      }
      if CascadesFrom(c, v, keys, x) { assert Cascades(c, v, x); }
    }
  }

  /** Turns resolved verdicts into the plan. */
  method BuildPlan(inv: Inventory, verdicts: Verdicts, now: Time) returns (plan: Plan)
    requires inv.Valid()
    ensures plan == PlanOf(inv.repository, inv.byDigest, verdicts, now)
  {
    SelectableRows(inv.byDigest);
    var s := SelectAll(inv.byDigest, inv.referrers, inv.excludedBy, inv.selectable, verdicts,
        SortedSeq(Selectable(inv.byDigest)));
    SelectionsComplete(inv.byDigest, verdicts, s);
    assert Survivors(inv.byDigest, verdicts) == inv.byDigest.Keys - s.selected - s.blocked - s.cascading;
    var kept := KeepRest(inv.byDigest, inv.excludedBy, inv.manifests, verdicts, s, Survivors(inv.byDigest, verdicts));
    OnlyIs(inv.byDigest.Keys, Survivors(inv.byDigest, verdicts));
    plan := Plan(inv.repository, now, s.entries, s.blocks, kept);
  }
}
