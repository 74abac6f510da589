/**
 A repository snapshot as retention reads it, and the order-free meaning of it:
 the catalog (`byDigest`), the edges between its manifests, and the exclusions
 that keep a manifest out of every rule's reach.
 Models internal/policy/inventory.go.
 */
module Snapshots {
  import opened Order
  import opened SubjectGraph

  type Digest = string

  /** Nanoseconds since Go's zero time; `0` is the zero `time.Time`. */
  type Time = int

  datatype Tag = Tag(name: string, isProtected: bool, isImmutable: bool)

  datatype Manifest = Manifest(
    digest: Digest,
    tags: seq<Tag>,
    pushedAt: Time,
    lastPulledAt: Time,
    pullCount: int,
    size: int,
    children: seq<Digest>,
    subject: Digest)

  datatype ExclusionReason = ExcludedProtectedTag | ExcludedImmutableTag | ExcludedIndexChild | ExcludedLiveSubject

  datatype Exclusion = Exclusion(digest: Digest, reason: ExclusionReason, detail: string)

  /** A Go map read of a slice-valued map: a missing key reads as the empty slice. */
  function At<V>(m: map<Digest, seq<V>>, k: Digest): (r: seq<V>) {
    if k in m then m[k] else []
  }

  // ----- normal form -----

  predicate ByName(a: Tag, b: Tag) { LexLe(a.name, b.name) }

  predicate ByDigest(a: Manifest, b: Manifest) { LexLe(a.digest, b.digest) }

  lemma KeyOrders()
    ensures TotalPreorder(ByName)
    ensures TotalPreorder(ByDigest)
  {
    LexOrder();
  }

  function SortTags(tags: seq<Tag>): (r: seq<Tag>)
    ensures multiset(r) == multiset(tags)
    ensures |r| == |tags|
    ensures SortedBy(ByName, r)
  {
    KeyOrders();
    SortBy(ByName, tags)
  }

  function NamesOf(tags: seq<Tag>): (names: seq<string>)
    ensures |names| == |tags|
    ensures forall i :: 0 <= i < |tags| ==> names[i] == tags[i].name
  {
    seq(|tags|, i requires 0 <= i < |tags| => tags[i].name)
  }

  /** The defensive copy the inventory keeps: tags by name, children sorted and compacted. */
  ghost function Normal(m: Manifest): (r: Manifest) {
    m.(tags := SortTags(m.tags), children := SortedSeq(Elems(m.children)))
  }

  // ----- the catalog and its edges -----

  type Catalog = map<Digest, Manifest>

  ghost predicate Keyed(c: Catalog) {
    forall d :: d in c ==> d != "" && c[d].digest == d
  }

  /** Every named subject, in the snapshot or not. */
  ghost function Subjects(c: Catalog): (g: map<Digest, Digest>) {
    map d | d in c && c[d].subject != "" :: c[d].subject
  }

  /** The subjects that are still here. */
  ghost function LiveSubjects(c: Catalog): (f: map<Digest, Digest>) {
    map d | d in c && c[d].subject in c :: c[d].subject
  }

  lemma SubjectCycles(c: Catalog)
    requires Keyed(c)
    ensures HasCycle(Subjects(c)) <==> HasCycle(LiveSubjects(c))
  {
    CyclesAreLive(Subjects(c), LiveSubjects(c));
  }

  ghost function ReferrersOf(c: Catalog, s: Digest): (r: set<Digest>) {
    set d | d in c && c[d].subject == s && s in c
  }

  ghost function ParentsOf(c: Catalog, x: Digest): (r: set<Digest>) {
    set p | p in c && x in c[p].children && x in c
  }

  /** Everything that dies with `root`. */
  ghost function Subtree(c: Catalog, root: Digest): (r: set<Digest>) {
    set d | d in c && Attached(LiveSubjects(c), d, root)
  }

  // ----- exclusions -----

  function TagExclusions(d: Digest, tags: seq<Tag>): (r: seq<Exclusion>) {
    if tags == [] then []
    else
      var last := tags[|tags| - 1];
      TagExclusions(d, tags[..|tags| - 1])
      + (if last.isProtected then [Exclusion(d, ExcludedProtectedTag, last.name)] else [])
      + (if last.isImmutable then [Exclusion(d, ExcludedImmutableTag, last.name)] else [])
  }

  function Join(parts: seq<string>): (r: string) {
    if parts == [] then ""
    else if |parts| == 1 then parts[0]
    else Join(parts[..|parts| - 1]) + ", " + parts[|parts| - 1]
  }

  /** Every reason that applies to `d`, in the order they are checked. */
  ghost function ExclusionsOf(c: Catalog, d: Digest): (r: seq<Exclusion>)
    requires d in c
  {
    TagExclusions(d, c[d].tags)
    + (if ParentsOf(c, d) != {} then [Exclusion(d, ExcludedIndexChild, Join(SortedSeq(ParentsOf(c, d))))] else [])
    + (if c[d].subject in c then [Exclusion(d, ExcludedLiveSubject, c[d].subject)] else [])
  }

  ghost predicate Shielded(m: Manifest) {
    exists i :: 0 <= i < |m.tags| && (m.tags[i].isProtected || m.tags[i].isImmutable)
  }

  /** Undeletable in its own right: a protected or immutable tag, or an index that lists it. */
  ghost predicate Pinned(c: Catalog, d: Digest)
    requires d in c
  {
    Shielded(c[d]) || ParentsOf(c, d) != {}
  }

  ghost function Selectable(c: Catalog): (r: set<Digest>) {
    set d | d in c && ExclusionsOf(c, d) == []
  }

  lemma {:induction false} TagExclusionsMeaning(d: Digest, tags: seq<Tag>)
    ensures TagExclusions(d, tags) == [] <==>
        forall i :: 0 <= i < |tags| ==> !tags[i].isProtected && !tags[i].isImmutable
    ensures forall x ::
          x in TagExclusions(d, tags) ==> x.digest == d && x.reason in {ExcludedProtectedTag, ExcludedImmutableTag}
  {
    if tags != [] {
      TagExclusionsMeaning(d, tags[..|tags| - 1]);
    }
  }

  /** What the selectable set is: unshielded, listed by no index, attached to nothing. */
  lemma SelectableMeaning(c: Catalog, d: Digest)
    requires d in c
    ensures d in Selectable(c) <==> !Pinned(c, d) && c[d].subject !in c
  {
    TagExclusionsMeaning(d, c[d].tags);
  }

  /** Whether an exclusion is one a cascade may not walk through. */
  ghost predicate Blocking(x: Exclusion) { x.reason != ExcludedLiveSubject }

  lemma PinnedMeaning(c: Catalog, d: Digest)
    requires d in c
    ensures Pinned(c, d) <==> exists x :: x in ExclusionsOf(c, d) && Blocking(x)
  {
    TagExclusionsMeaning(d, c[d].tags);
    var tagged := TagExclusions(d, c[d].tags);
    var all := ExclusionsOf(c, d);
    if Shielded(c[d]) {
      assert tagged[0] in tagged && all[0] == tagged[0] && all[0] in all;
    } else {
      assert tagged == [];
      if ParentsOf(c, d) != {} {
        assert all[0].reason == ExcludedIndexChild && all[0] in all;
      }
    }
  }

  // ----- listings -----

  ghost function DigestsOf(ms: seq<Manifest>): (ds: seq<Digest>)
    ensures |ds| == |ms|
    ensures forall i {:trigger ds[i]} :: 0 <= i < |ms| ==> ds[i] == ms[i].digest
  {
    seq(|ms|, i requires 0 <= i < |ms| => ms[i].digest)
  }

  ghost function Pick(c: Catalog, ds: seq<Digest>): (r: seq<Manifest>)
    requires forall d :: d in ds ==> d in c
    ensures |r| == |ds|
    ensures forall i :: 0 <= i < |ds| ==> r[i] == c[ds[i]]
  {
    seq(|ds|, i requires 0 <= i < |ds| => c[ds[i]])
  }

  ghost function Listing(c: Catalog): (r: seq<Manifest>) {
    Pick(c, SortedSeq(c.Keys))
  }

  /** Digests of the manifests of a list that satisfy `p`, in list order. */
  ghost function Filter(ms: seq<Manifest>, p: Manifest -> bool): (r: seq<Digest>) {
    if ms == [] then []
    else
      var last := ms[|ms| - 1];
      Filter(ms[..|ms| - 1], p) + (if p(last) then [last.digest] else [])
  }

  function HasSubject(s: Digest): (p: Manifest -> bool) { (m: Manifest) => m.subject == s }

  function HasChild(x: Digest): (p: Manifest -> bool) { (m: Manifest) => x in m.children }

  ghost predicate IncreasingDigests(ms: seq<Manifest>) {
    forall i, j {:trigger LexLt(ms[i].digest, ms[j].digest)} :: 0 <= i < j < |ms| ==> LexLt(ms[i].digest, ms[j].digest)
  }

  lemma {:induction false} FilterMeaning(ms: seq<Manifest>, p: Manifest -> bool)
    requires IncreasingDigests(ms)
    ensures Increasing(Filter(ms, p))
    ensures forall d :: d in Filter(ms, p) <==> Listed(ms, p, d)
  {
    if ms != [] {
      var init := ms[..|ms| - 1];
      FilterMeaning(init, p);
      forall d ensures Listed(ms, p, d) <==> Listed(init, p, d) || (p(ms[|ms| - 1]) && ms[|ms| - 1].digest == d) {
        if Listed(ms, p, d) {
          var i :| 0 <= i < |ms| && p(ms[i]) && ms[i].digest == d;
          assert i < |init| ==> init[i] == ms[i];
        }
        if Listed(init, p, d) {
          var i :| 0 <= i < |init| && p(init[i]) && init[i].digest == d;
          assert ms[i] == init[i];
        }
      }
      var front := Filter(init, p);
      forall i | 0 <= i < |front|
        ensures LexLt(front[i], ms[|ms| - 1].digest)
      {
        assert front[i] in front && Listed(init, p, front[i]);
      }
      var back := if p(ms[|ms| - 1]) then [ms[|ms| - 1].digest] else [];
      assert Filter(ms, p) == front + back;
      assert forall d :: d in front + back <==> d in front || d in back;
    }
  }

  ghost predicate Listed(ms: seq<Manifest>, p: Manifest -> bool, d: Digest) {
    exists i :: 0 <= i < |ms| && p(ms[i]) && ms[i].digest == d
  }

  lemma ListingMeaning(c: Catalog, p: Manifest -> bool, d: Digest)
    requires Keyed(c)
    ensures Listed(Listing(c), p, d) <==> d in c && p(c[d])
  {
    var keys := SortedSeq(c.Keys);
    if d in c && p(c[d]) {
      var i :| 0 <= i < |keys| && keys[i] == d;
      assert Listing(c)[i].digest == d && p(Listing(c)[i]);
    }
    if Listed(Listing(c), p, d) {
      var i :| 0 <= i < |keys| && p(Listing(c)[i]) && Listing(c)[i].digest == d;
      assert keys[i] in c.Keys;
    }
  }

  lemma ListingIncreasing(c: Catalog)
    requires Keyed(c)
    ensures IncreasingDigests(Listing(c))
  {
    var keys := SortedSeq(c.Keys);
    assert forall i :: 0 <= i < |keys| ==> keys[i] in c.Keys && Listing(c)[i].digest == keys[i];
  }

  /** Filtering the listing lists the set. */
  lemma FilterListing(c: Catalog, p: Manifest -> bool, X: set<Digest>)
    requires Keyed(c)
    requires forall d :: d in X <==> d in c && p(c[d])
    ensures Filter(Listing(c), p) == SortedSeq(X)
  {
    ListingIncreasing(c);
    FilterMeaning(Listing(c), p);
    var r := Filter(Listing(c), p);
    forall d ensures d in Elems(r) <==> d in X {
      assert d in r <==> Listed(Listing(c), p, d);
      ListingMeaning(c, p, d);
    }
    SortedSeqOf(X, r);
  }

  // ----- accepted snapshots -----

  ghost predicate ScalarsOk(m: Manifest) {
    && m.digest != ""
    && m.pushedAt != 0
    && m.size >= 0
    && m.pullCount >= 0
    && m.subject != m.digest
  }

  ghost predicate TagsOk(m: Manifest) {
    "" !in NamesOf(m.tags) && Distinct(NamesOf(m.tags))
  }

  ghost predicate ChildrenOk(m: Manifest) {
    "" !in m.children && m.digest !in m.children
  }

  ghost predicate ManifestOk(m: Manifest) {
    ScalarsOk(m) && TagsOk(m) && ChildrenOk(m)
  }

  ghost predicate DistinctDigests(s: seq<Manifest>) {
    forall i, j :: 0 <= i < j < |s| ==> s[i].digest != s[j].digest
  }

  ghost predicate OneOwner(s: seq<Manifest>) {
    forall i, j, n :: 0 <= i < j < |s| && n in NamesOf(s[i].tags) ==> n !in NamesOf(s[j].tags)
  }

  ghost function CatalogOf(s: seq<Manifest>): (c: Catalog) {
    if s == [] then map[]
    else
      var last := s[|s| - 1];
      CatalogOf(s[..|s| - 1])[last.digest := Normal(last)]
  }

  ghost predicate RowsAccepted(s: seq<Manifest>) {
    && (forall i :: 0 <= i < |s| ==> ManifestOk(s[i]))
    && DistinctDigests(s)
    && OneOwner(s)
  }

  /** A snapshot that can be reasoned about, whatever order it arrives in. */
  ghost predicate Accepted(s: seq<Manifest>) {
    RowsAccepted(s) && !HasCycle(Subjects(CatalogOf(s)))
  }

  lemma {:induction false} CatalogAt(s: seq<Manifest>, i: nat)
    requires i < |s| && DistinctDigests(s)
    ensures s[i].digest in CatalogOf(s) && CatalogOf(s)[s[i].digest] == Normal(s[i])
  {
    if i < |s| - 1 {
      var init := s[..|s| - 1];
      CatalogAt(init, i);
      assert init[i] == s[i] && s[i].digest != s[|s| - 1].digest;
    }
  }

  lemma {:induction false} CatalogRow(s: seq<Manifest>, d: Digest) returns (i: nat)
    requires d in CatalogOf(s)
    ensures i < |s| && s[i].digest == d && CatalogOf(s)[d] == Normal(s[i])
  {
    i := |s| - 1;
    if s[i].digest != d {
      var init := s[..|s| - 1];
      i := CatalogRow(init, d);
    }
  }

  lemma CatalogKeyed(s: seq<Manifest>)
    requires forall i :: 0 <= i < |s| ==> s[i].digest != ""
    ensures Keyed(CatalogOf(s))
  {
    forall d | d in CatalogOf(s)
      ensures d != "" && CatalogOf(s)[d].digest == d
    {
      var i := CatalogRow(s, d);
    }
  }

  // ----- the order a snapshot arrives in does not matter -----

  /** The same row, its tags and children in some other order. */
  ghost predicate SameRow(a: Manifest, b: Manifest) {
    && multiset(a.tags) == multiset(b.tags)
    && multiset(a.children) == multiset(b.children)
    && a == b.(tags := a.tags, children := a.children)
  }

  /** `p` is a permutation of the first `n` indices and `q` undoes it. */
  ghost predicate Permutation(p: seq<nat>, q: seq<nat>, n: nat) {
    && |p| == |q| == n
    && (forall i :: 0 <= i < n ==> p[i] < n && q[i] < n)
    && (forall i {:trigger p[i]} :: 0 <= i < n ==> q[p[i]] == i)
    && (forall j {:trigger q[j]} :: 0 <= j < n ==> p[q[j]] == j)
  }

  /** `t` is `s` with its rows, and the tags and children of each row, permuted. */
  ghost predicate Shuffled(s: seq<Manifest>, t: seq<Manifest>, p: seq<nat>, q: seq<nat>) {
    && |s| == |t|
    && Permutation(p, q, |s|)
    && forall j :: 0 <= j < |t| ==> SameRow(s[q[j]], t[j])
  }

  lemma SameRowNames(a: Manifest, b: Manifest)
    requires SameRow(a, b) && Distinct(NamesOf(a.tags))
    ensures Distinct(NamesOf(b.tags))
    ensures forall n :: n in NamesOf(a.tags) <==> n in NamesOf(b.tags)
    ensures SortTags(a.tags) == SortTags(b.tags)
  {
    SameElems(a.tags, b.tags);
    assert Distinct(a.tags) by {
      forall i, j | 0 <= i < j < |a.tags|
        ensures a.tags[i] != a.tags[j]
      {
        assert NamesOf(a.tags)[i] != NamesOf(a.tags)[j];
      }
    }
    PermutationDistinct(a.tags, b.tags);
    forall n ensures n in NamesOf(a.tags) <==> n in NamesOf(b.tags) {
      NameIn(a.tags, n);
      NameIn(b.tags, n);
    }
    NamesDistinct(a.tags, b.tags);
    var x, y := SortTags(a.tags), SortTags(b.tags);
    forall u, v | u in x && v in x && ByName(u, v) && ByName(v, u)
      ensures u == v
    {
      LexAntisymmetric(u.name, v.name);
      assert u in multiset(a.tags) && v in multiset(a.tags);
      OneNamed(a.tags, u, v);
    }
    SortedUnique(ByName, x, y);
  }

  lemma NameIn(tags: seq<Tag>, n: string)
    ensures n in NamesOf(tags) <==> exists t :: t in tags && t.name == n
  {
    if n in NamesOf(tags) {
      var i :| 0 <= i < |tags| && NamesOf(tags)[i] == n;
      assert tags[i] in tags;
    }
    if t :| t in tags && t.name == n {
      var i :| 0 <= i < |tags| && tags[i] == t;
      assert NamesOf(tags)[i] == n;
    }
  }

  lemma OneNamed(tags: seq<Tag>, u: Tag, v: Tag)
    requires Distinct(NamesOf(tags)) && u in tags && v in tags && u.name == v.name
    ensures u == v
  {
    var i :| 0 <= i < |tags| && tags[i] == u;
    var j :| 0 <= j < |tags| && tags[j] == v;
    assert NamesOf(tags)[i] == NamesOf(tags)[j];
    assert i == j;
  }

  lemma NamesDistinct(a: seq<Tag>, b: seq<Tag>)
    requires Distinct(NamesOf(a)) && Distinct(b) && Elems(a) == Elems(b)
    ensures Distinct(NamesOf(b))
  {
    forall i, j | 0 <= i < j < |b|
      ensures NamesOf(b)[i] != NamesOf(b)[j]
    {
      assert b[i] in Elems(b) && b[j] in Elems(b) && b[i] != b[j];
      if b[i].name == b[j].name { OneNamed(a, b[i], b[j]); }
    }
  }

  lemma SameRowOk(a: Manifest, b: Manifest)
    requires SameRow(a, b) && ManifestOk(a)
    ensures ManifestOk(b)
    ensures Normal(a) == Normal(b)
    ensures forall n :: n in NamesOf(a.tags) <==> n in NamesOf(b.tags)
  {
    SameRowNames(a, b);
    SameElems(a.children, b.children);
  }

  /** A snapshot's acceptance and its catalog do not depend on the order of its
      rows, or of the tags and children inside them. */
  lemma SnapshotOrderIrrelevant(s: seq<Manifest>, t: seq<Manifest>, p: seq<nat>, q: seq<nat>)
    requires Shuffled(s, t, p, q)
    requires Accepted(s)
    ensures Accepted(t)
    ensures CatalogOf(t) == CatalogOf(s)
  {
    forall j | 0 <= j < |t|
      ensures ManifestOk(t[j])
    {
      SameRowOk(s[q[j]], t[j]);
    }
    ShuffledDistinct(s, t, p, q);
    ShuffledOwners(s, t, p, q);
    ShuffledCatalog(s, t, p, q);
  }

  lemma ShuffledDistinct(s: seq<Manifest>, t: seq<Manifest>, p: seq<nat>, q: seq<nat>)
    requires Shuffled(s, t, p, q) && DistinctDigests(s)
    ensures DistinctDigests(t)
  {
    forall j, k | 0 <= j < k < |t|
      ensures t[j].digest != t[k].digest
    {
      assert SameRow(s[q[j]], t[j]) && SameRow(s[q[k]], t[k]);
      assert q[j] < q[k] || q[k] < q[j];
    }
  }

  lemma ShuffledOwners(s: seq<Manifest>, t: seq<Manifest>, p: seq<nat>, q: seq<nat>)
    requires Shuffled(s, t, p, q) && OneOwner(s) && forall i :: 0 <= i < |s| ==> Distinct(NamesOf(s[i].tags))
    ensures OneOwner(t)
  {
    forall j, k, n | 0 <= j < k < |t| && n in NamesOf(t[j].tags)
      ensures n !in NamesOf(t[k].tags)
    {
      SameRowNames(s[q[j]], t[j]);
      SameRowNames(s[q[k]], t[k]);
      assert q[j] != q[k];
      assert n in NamesOf(s[q[j]].tags);
    }
  }

  lemma ShuffledCatalog(s: seq<Manifest>, t: seq<Manifest>, p: seq<nat>, q: seq<nat>)
    requires Shuffled(s, t, p, q) && DistinctDigests(s) && DistinctDigests(t)
    requires forall i :: 0 <= i < |s| ==> ManifestOk(s[i])
    ensures CatalogOf(t) == CatalogOf(s)
  {
    var a, b := CatalogOf(s), CatalogOf(t);
    forall d | d in a
      ensures d in b
    {
      var i := CatalogRow(s, d);
      var j := p[i];
      assert SameRow(s[q[j]], t[j]);
      CatalogAt(t, j);
    }
    forall d | d in b
      ensures d in a && a[d] == b[d]
    {
      var j := CatalogRow(t, d);
      SameRowOk(s[q[j]], t[j]);
      CatalogAt(s, q[j]);
    }
  }
}
