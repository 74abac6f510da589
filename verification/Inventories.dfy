/**
 Building the retention inventory from a snapshot, and reading cascades out of it.
 Models internal/policy/inventory.go: the loops fill the inventory's fields in
 place, and `Valid` ties every field to the order-free catalog.
 */
module Inventories {
  import opened Order
  import opened SubjectGraph
  import opened Snapshots

  datatype Reason =
    | NoRepository
    | NoDigest
    | ListedTwice
    | NoPushTime
    | NegativeSize
    | NegativePullCount
    | OwnSubject
    | EmptyTagName
    | TagListedTwice(name: string)
    | TagTaken(name: string, owner: Digest)
    | EmptyChild
    | OwnChild
    | SubjectCycle(path: seq<Digest>)

  datatype InventoryError = InventoryError(digest: Digest, reason: Reason)

  datatype Result<T> = Ok(value: T) | Err(error: InventoryError)

  /** `slices.Compact`: drop elements equal to the one before them. */
  function Compact(s: seq<string>): (r: seq<string>) {
    if |s| < 2 then s
    else if s[|s| - 1] == s[|s| - 2] then Compact(s[..|s| - 1])
    else Compact(s[..|s| - 1]) + [s[|s| - 1]]
  }

  lemma {:induction false} CompactSorted(s: seq<string>)
    requires SortedBy(LexLe, s)
    ensures Increasing(Compact(s))
    ensures forall x :: x in Compact(s) <==> x in s
  {
    if |s| >= 2 {
      var init, last := s[..|s| - 1], s[|s| - 1];
      CompactSorted(init);
      assert s == init + [last];
      var c := Compact(init);
      if last != s[|s| - 2] {
        forall i | 0 <= i < |c|
          ensures LexLt(c[i], last)
        {
          assert c[i] in c && c[i] in init;
          var k :| 0 <= k < |init| && init[k] == c[i];
          if c[i] == last {
            assert k < |s| - 2;
            assert LexLe(s[k], s[|s| - 2]) && LexLe(s[|s| - 2], last);
            LexAntisymmetric(s[|s| - 2], last);
          }
        }
      } else {
        assert last == init[|init| - 1];
      }
    }
  }

  lemma CompactChildren(children: seq<Digest>)
    ensures Compact(SortStrings(children)) == SortedSeq(Elems(children))
  {
    var sorted := SortStrings(children);
    CompactSorted(sorted);
    SameElems(sorted, children);
    SortedSeqOf(Elems(children), Compact(sorted));
  }

  // ----- one row -----

  ghost predicate FreshNames(m: Manifest, owners: map<string, Digest>) {
    forall n :: n in NamesOf(m.tags) ==> n !in owners
  }

  ghost predicate ScalarBlame(m: Manifest, seen: Catalog, e: InventoryError) {
    && e.digest == m.digest
    && match e.reason
       case NoDigest => m.digest == ""
       case ListedTwice => m.digest in seen
       case NoPushTime => m.pushedAt == 0
       case NegativeSize => m.size < 0
       case NegativePullCount => m.pullCount < 0
       case OwnSubject => m.subject == m.digest
       case _ => false
  }

  ghost predicate TagBlame(m: Manifest, owners: map<string, Digest>, e: InventoryError) {
    && e.digest == m.digest
    && match e.reason
       case EmptyTagName => "" in NamesOf(m.tags)
       case TagListedTwice(n) => n in NamesOf(m.tags) && !Distinct(NamesOf(m.tags))
       case TagTaken(n, owner) => n in NamesOf(m.tags) && n in owners && owners[n] == owner
       case _ => false
  }

  ghost predicate ChildBlame(m: Manifest, e: InventoryError) {
    && e.digest == m.digest
    && match e.reason
       case EmptyChild => "" in m.children
       case OwnChild => m.digest in m.children
       case _ => false
  }

  /** What is wrong with a row, given the rows before it. */
  ghost predicate RowBlame(m: Manifest, seen: Catalog, owners: map<string, Digest>, e: InventoryError) {
    ScalarBlame(m, seen, e) || TagBlame(m, owners, e) || ChildBlame(m, e)
  }

  /** `after` is `before` with every name in `names` claimed by `d`. */
  ghost predicate Claimed(before: map<string, Digest>, names: set<string>, d: Digest, after: map<string, Digest>) {
    && after.Keys == before.Keys + names
    && forall n :: n in after ==> after[n] == if n in names then d else before[n]
  }

  lemma SortedNames(tags: seq<Tag>)
    ensures forall n :: n in NamesOf(SortTags(tags)) <==> n in NamesOf(tags)
    ensures Distinct(NamesOf(SortTags(tags))) <==> Distinct(NamesOf(tags))
  {
    var a, b := tags, SortTags(tags);
    SameElems(a, b);
    forall n ensures n in NamesOf(b) <==> n in NamesOf(a) {
      NameIn(a, n);
      NameIn(b, n);
    }
    if Distinct(NamesOf(a)) { DistinctTags(a); PermutationDistinct(a, b); NamesDistinct(a, b); }
    if Distinct(NamesOf(b)) { DistinctTags(b); PermutationDistinct(b, a); NamesDistinct(b, a); }
  }

  lemma DistinctTags(a: seq<Tag>)
    requires Distinct(NamesOf(a))
    ensures Distinct(a)
  {
    forall i, j | 0 <= i < j < |a|
      ensures a[i] != a[j]
    {
      assert NamesOf(a)[i] != NamesOf(a)[j];
    }
  }

  /** The scalar half of the row check, in the order the fields are looked at. */
  function CheckScalars(m: Manifest, seen: Catalog): (r: Result<()>)
    ensures r.Ok? <==> ScalarsOk(m) && m.digest !in seen
    ensures r.Err? ==> ScalarBlame(m, seen, r.error)
  {
    if m.digest == "" then Err(InventoryError("", NoDigest))
    else if m.digest in seen then Err(InventoryError(m.digest, ListedTwice))
    else if m.pushedAt == 0 then Err(InventoryError(m.digest, NoPushTime))
    else if m.size < 0 then Err(InventoryError(m.digest, NegativeSize))
    else if m.pullCount < 0 then Err(InventoryError(m.digest, NegativePullCount))
    else if m.subject == m.digest then Err(InventoryError(m.digest, OwnSubject))
    else Ok(())
  }

  /** The tag half: names present, distinct, and unclaimed. */
  method CheckTags(m: Manifest, names: seq<string>, tagOwner: map<string, Digest>)
      returns (r: Result<()>, owners: map<string, Digest>)
    requires names == NamesOf(SortTags(m.tags))
    ensures r.Ok? <==> TagsOk(m) && FreshNames(m, tagOwner)
    ensures r.Ok? ==> Claimed(tagOwner, Elems(NamesOf(m.tags)), m.digest, owners)
    ensures r.Err? ==> TagBlame(m, tagOwner, r.error)
  {
    SortedNames(m.tags);
    r, owners := ClaimNames(names, m.digest, tagOwner);
    assert Elems(names) == Elems(NamesOf(m.tags));
  }

  ghost predicate NameBlame(names: seq<string>, owners: map<string, Digest>, d: Digest, e: InventoryError) {
    && e.digest == d
    && match e.reason
       case EmptyTagName => "" in names
       case TagListedTwice(n) => n in names && !Distinct(names)
       case TagTaken(n, owner) => n in names && n in owners && owners[n] == owner
       case _ => false
  }

  /** Claims the names one by one, up to the first that cannot be. */
  method ClaimNames(names: seq<string>, d: Digest, tagOwner: map<string, Digest>)
    returns (r: Result<()>, owners: map<string, Digest>)
    ensures r.Ok? <==>
        "" !in names && Distinct(names) && forall n {:trigger n in tagOwner} :: n in names ==> n !in tagOwner
    ensures r.Ok? ==> Claimed(tagOwner, Elems(names), d, owners)
    ensures r.Err? ==> NameBlame(names, tagOwner, d, r.error)
  {
    owners := tagOwner;
    var tagsHere: set<string> := {};
    for i := 0 to |names|
      invariant Claiming(tagOwner, names[..i], tagsHere, d, owners)
    {
      var name := names[i];
      if name == "" { return Err(InventoryError(d, EmptyTagName)), owners; }
      if name in tagsHere {
        assert name in names[..i];
        return Err(InventoryError(d, TagListedTwice(name))), owners;
      }
      if name in owners { return Err(InventoryError(d, TagTaken(name, owners[name]))), owners; }
      ClaimStep(tagOwner, names[..i], tagsHere, d, owners, name);
      tagsHere := tagsHere + {name};
      owners := owners[name := d];
      assert names[..i + 1] == names[..i] + [name];
    }
    assert names[..|names|] == names;
    assert tagsHere == Elems(names);
    r := Ok(());
  }

  ghost predicate Claiming(before: map<string, Digest>, names: seq<string>, here: set<string>, d: Digest,
                           owners: map<string, Digest>)
  {
    && (forall n {:trigger n in here} :: n in here <==> n in names)
    && Claimed(before, here, d, owners)
    && "" !in here
    && here !! before.Keys
    && Distinct(names)
  }

  lemma ClaimStep(before: map<string, Digest>, names: seq<string>, here: set<string>, d: Digest,
                  owners: map<string, Digest>, name: string)
    requires Claiming(before, names, here, d, owners)
    requires name != "" && name !in here && name !in owners
    ensures Claiming(before, names + [name], here + {name}, d, owners[name := d])
  {
  }

  /** The child half: sorted, compacted, none empty, none the manifest itself. */
  method CheckChildren(m: Manifest) returns (r: Result<seq<Digest>>)
    ensures r.Ok? <==> ChildrenOk(m)
    ensures r.Ok? ==> r.value == SortedSeq(Elems(m.children))
    ensures r.Err? ==> ChildBlame(m, r.error)
  {
    var children := Compact(SortStrings(m.children));
    CompactChildren(m.children);
    var bad := FindBadChild(children, m.digest);
    assert forall x :: x in children <==> x in Elems(m.children);
    assert "" in children <==> "" in m.children;
    assert m.digest in children <==> m.digest in m.children;
    if bad.Err? { return Err(InventoryError(m.digest, bad.error.reason)); }
    r := Ok(children);
  }

  method FindBadChild(children: seq<Digest>, digest: Digest) returns (r: Result<bool>)
    ensures r.Ok? <==> "" !in children && digest !in children
    ensures r.Err? ==>
          (r.error.reason == EmptyChild && "" in children) || (r.error.reason == OwnChild && digest in children)
  {
    for i := 0 to |children|
      invariant "" !in children[..i] && digest !in children[..i]
    {
      if children[i] == "" { return Err(InventoryError(digest, EmptyChild)); }
      if children[i] == digest { return Err(InventoryError(digest, OwnChild)); }
      assert children[..i + 1] == children[..i] + [children[i]];
    }
    assert children[..|children|] == children;
    r := Ok(true);
  }

  /** Checks one row and returns the copy the inventory keeps. */
  method ValidateManifest(m: Manifest, seen: Catalog, tagOwner: map<string, Digest>)
      returns (r: Result<Manifest>, owners: map<string, Digest>)
    ensures r.Ok? <==> ManifestOk(m) && m.digest !in seen && FreshNames(m, tagOwner)
    ensures r.Ok? ==> r.value == Normal(m) && Claimed(tagOwner, Elems(NamesOf(m.tags)), m.digest, owners)
    ensures r.Err? ==> RowBlame(m, seen, tagOwner, r.error)
  {
    owners := tagOwner;
    var scalars := CheckScalars(m, seen);
    if scalars.Err? { return Err(scalars.error), owners; }
    var tags := SortTags(m.tags);
    var named;
    named, owners := CheckTags(m, NamesOf(tags), tagOwner);
    if named.Err? { return Err(named.error), owners; }
    var children := CheckChildren(m);
    if children.Err? { return Err(children.error), owners; }
    r := Ok(m.(tags := tags, children := children.value));
  }

  // ----- the subject walk -----

  datatype Mark = OnPath | Settled

  /** Everything coloured is settled and ranked. */
  ghost predicate AllSettled(state: map<Digest, Mark>, rank: map<Digest, nat>) {
    && state.Keys == rank.Keys
    && forall d {:trigger state[d]} :: d in state ==> state[d] == Settled
  }

  /** Mid-walk: the path is coloured `OnPath`, everything else coloured is ranked. */
  ghost predicate Colours(state: map<Digest, Mark>, rank: map<Digest, nat>, path: seq<Digest>) {
    && (forall d {:trigger state[d]} :: d in state ==> if state[d] == OnPath then d in path else d in rank)
    && (forall k {:trigger path[k]} :: 0 <= k < |path| ==> path[k] in state && state[path[k]] == OnPath)
    && (forall d {:trigger d in rank} :: d in rank ==> d in state && state[d] == Settled)
    && rank.Keys <= state.Keys
  }

  /** Everything visited is settled, and ranked: nothing visited is on a cycle. */
  ghost predicate Ground(g: map<Digest, Digest>, state: map<Digest, Mark>, rank: map<Digest, nat>) {
    AllSettled(state, rank) && Ranked(g, rank)
  }

  /** Where the walk goes next: a live manifest's named subject, or "" for nowhere. */
  function NextUp(c: Catalog, d: Digest): (r: Digest) {
    if d in c then c[d].subject else ""
  }

  ghost predicate FollowsSubjects(g: map<Digest, Digest>, c: Catalog) {
    forall d {:trigger NextUp(c, d)} :: if d in g then NextUp(c, d) == g[d] != "" else NextUp(c, d) == ""
  }

  /** One pass up from an unvisited manifest: the path to where it ends, or the
      manifest at which it closes a cycle. */
  method WalkFrom(ghost g: map<Digest, Digest>, start: Digest, byDigest: Catalog,
                  visited: map<Digest, Mark>, ghost rank: map<Digest, nat>, ghost universe: set<Digest>)
      returns (cycle: bool, current: Digest, path: seq<Digest>, state: map<Digest, Mark>)
    requires FollowsSubjects(g, byDigest) && g.Values <= universe
    requires start in universe && start !in visited
    requires Ground(g, visited, rank)
    ensures cycle ==> OnCycle(g, current) && current in path
    ensures !cycle ==> WalkEnded(g, start, visited, state, rank, path)
  {
    cycle, current, path, state := false, start, [], visited;
    while true
      invariant current in universe
      invariant Walking(g, start, visited, state, rank, path, current)
      decreases |universe - state.Keys|
    {
      if current in state && state[current] == OnPath {
        FoundCycle(g, start, visited, state, rank, path, current);
        cycle := true;
        return;
      }
      if current in state && state[current] == Settled { return; }
      WalkStep(g, start, visited, state, rank, path, current);
      FewerLeft(universe, state, current);
      state := state[current := OnPath];
      path := path + [current];
      var next := NextUp(byDigest, current);
      if next == "" { return; }
      assert next in g.Values;
      current := next;
    }
  }

  lemma FewerLeft(universe: set<Digest>, state: map<Digest, Mark>, current: Digest)
    requires current in universe && current !in state
    ensures |universe - state[current := OnPath].Keys| < |universe - state.Keys|
  {
    assert universe - state[current := OnPath].Keys == (universe - state.Keys) - {current};
  }

  /** The walk from `start` ran off the graph or into settled ground. */
  ghost predicate WalkEnded(g: map<Digest, Digest>, start: Digest, visited: map<Digest, Mark>,
                            state: map<Digest, Mark>, rank: map<Digest, nat>, path: seq<Digest>) {
    && WalkedTo(g, start, visited, state, rank, path)
    && path != []
    && (path[|path| - 1] in g ==> g[path[|path| - 1]] in rank)
  }

  /** Settles a finished path. */
  method FinishWalk(ghost g: map<Digest, Digest>, ghost start: Digest, ghost visited: map<Digest, Mark>,
                    marked: map<Digest, Mark>, ghost rank: map<Digest, nat>, path: seq<Digest>)
      returns (state: map<Digest, Mark>, ghost ranked: map<Digest, nat>)
    requires WalkEnded(g, start, visited, marked, rank, path) && Ranked(g, rank)
    ensures Ground(g, state, ranked)
    ensures start in state && visited.Keys <= state.Keys
  {
    ranked := CloseWalk(g, marked, rank, path);
    state := SettlePath(marked, path);
  }

  ghost predicate Walking(g: map<Digest, Digest>, start: Digest, visited: map<Digest, Mark>,
                          state: map<Digest, Mark>, rank: map<Digest, nat>, path: seq<Digest>, current: Digest) {
    && WalkedTo(g, start, visited, state, rank, path)
    && if path == [] then current == start && start !in state
       else path[|path| - 1] in g && g[path[|path| - 1]] == current
  }

  ghost predicate WalkedTo(g: map<Digest, Digest>, start: Digest, visited: map<Digest, Mark>,
                           state: map<Digest, Mark>, rank: map<Digest, nat>, path: seq<Digest>) {
    && (path != [] ==> path[0] == start)
    && visited.Keys <= state.Keys
    && Colours(state, rank, path)
    && Linked(g, path)
    && Distinct(path)
  }

  lemma FoundCycle(g: map<Digest, Digest>, start: Digest, visited: map<Digest, Mark>,
                   state: map<Digest, Mark>, rank: map<Digest, nat>, path: seq<Digest>, current: Digest)
    requires Walking(g, start, visited, state, rank, path, current)
    requires current in state && state[current] == OnPath
    ensures OnCycle(g, current) && current in path
  {
    var k :| 0 <= k < |path| && path[k] == current;
    PathChain(g, path, current, k);
  }

  lemma WalkStep(g: map<Digest, Digest>, start: Digest, visited: map<Digest, Mark>,
                 state: map<Digest, Mark>, rank: map<Digest, nat>, path: seq<Digest>, current: Digest)
    requires Walking(g, start, visited, state, rank, path, current)
    requires current !in state
    ensures WalkedTo(g, start, visited, state[current := OnPath], rank, path + [current])
  {
    ColourStep(state, rank, path, current);
    LinkedSnoc(g, path, current);
  }

  lemma ColourStep(state: map<Digest, Mark>, rank: map<Digest, nat>, path: seq<Digest>, x: Digest)
    requires Colours(state, rank, path) && x !in state && Distinct(path)
    ensures Colours(state[x := OnPath], rank, path + [x]) && Distinct(path + [x])
  {
    assert forall k :: 0 <= k < |path| ==> path[k] in state && (path + [x])[k] == path[k];
    assert forall d :: d in path ==> d in path + [x];
    assert (path + [x])[|path|] == x;
  }

  lemma CloseWalk(g: map<Digest, Digest>, state: map<Digest, Mark>, rank: map<Digest, nat>, path: seq<Digest>)
    returns (ranked: map<Digest, nat>)
    requires Colours(state, rank, path) && Ranked(g, rank)
    requires Linked(g, path) && Distinct(path)
    requires path != [] && path[|path| - 1] in g ==> g[path[|path| - 1]] in rank
    ensures Ranked(g, ranked) && ranked.Keys == state.Keys
  {
    assert forall k :: 0 <= k < |path| ==> path[k] !in rank by {
      forall k | 0 <= k < |path| ensures path[k] !in rank {
        assert path[k] in state && state[path[k]] == OnPath;
      }
    }
    ranked := RankPath(g, rank, path);
    forall d ensures d in state <==> d in ranked {
      if d in state { assert state[d] == OnPath || state[d] == Settled; }
      if d in path { var k :| 0 <= k < |path| && path[k] == d; }
    }
  }

  /** The end of a pass: everything on the path is settled. */
  method SettlePath(marked: map<Digest, Mark>, path: seq<Digest>) returns (state: map<Digest, Mark>)
    requires forall k :: 0 <= k < |path| ==> path[k] in marked
    requires forall d {:trigger marked[d]} :: d in marked && marked[d] == OnPath ==> d in path
    ensures state.Keys == marked.Keys
    ensures forall d {:trigger state[d]} :: d in state ==> state[d] == Settled
  {
    state := marked;
    for k := 0 to |path|
      invariant state.Keys == marked.Keys
      invariant forall d {:trigger state[d]} :: d in state && state[d] == OnPath ==> d in path[k..]
    {
      assert path[k..] == [path[k]] + path[k + 1..];
      state := state[path[k] := Settled];
    }
  }

  /** The three-colour walk over the subject edges: reports a manifest exactly
      when the subject graph has a cycle, and then one that is on a cycle. */
  method WalkSubjects(order: seq<Digest>, byDigest: Catalog) returns (r: Result<()>)
    requires forall d :: d in order <==> d in byDigest
    ensures r.Err? <==> HasCycle(Subjects(byDigest))
    ensures r.Err? ==> OnCycle(Subjects(byDigest), r.error.digest)
    ensures r.Err? ==> r.error.reason.SubjectCycle? && r.error.digest in r.error.reason.path
  {
    ghost var g := Subjects(byDigest);
    ghost var universe := byDigest.Keys + g.Values;
    ghost var rank: map<Digest, nat> := map[];
    var state: map<Digest, Mark> := map[];
    for i := 0 to |order|
      invariant Ground(g, state, rank)
      invariant forall k :: 0 <= k < i ==> order[k] in state
    {
      if order[i] in state { continue; }
      var cycle, current, path, marked := WalkFrom(g, order[i], byDigest, state, rank, universe);
      if cycle { return Err(InventoryError(current, SubjectCycle(path))); }
      state, rank := FinishWalk(g, order[i], state, marked, rank, path);
    }
    RankedAcyclic(g, rank);
    r := Ok(());
  }

  // ----- the inventory -----

  ghost function ExclusionListing(c: Catalog, ds: seq<Digest>): (r: seq<Exclusion>)
    requires forall i :: 0 <= i < |ds| ==> ds[i] in c
  {
    if ds == [] then []
    else ExclusionListing(c, ds[..|ds| - 1]) + ExclusionsOf(c, ds[|ds| - 1])
  }

  lemma ListingSnoc(c: Catalog, ds: seq<Digest>, d: Digest)
    requires d in c && forall i :: 0 <= i < |ds| ==> ds[i] in c
    ensures forall i :: 0 <= i < |ds + [d]| ==> (ds + [d])[i] in c
    ensures ExclusionListing(c, ds + [d]) == ExclusionListing(c, ds) + ExclusionsOf(c, d)
  {
    assert (ds + [d])[..|ds|] == ds;
  }

  /** `excludedBy` holds the reasons of the manifests visited so far. */
  ghost predicate Explained(c: Catalog, excludedBy: map<Digest, seq<Exclusion>>, visited: seq<Digest>) {
    forall d {:trigger At(excludedBy, d)} ::
      At(excludedBy, d) == if d in visited && d in c then ExclusionsOf(c, d) else []
  }

  lemma ExplainStep(c: Catalog, excludedBy: map<Digest, seq<Exclusion>>, visited: seq<Digest>, d: Digest)
    requires Explained(c, excludedBy, visited) && d in c && d !in visited
    requires forall i :: 0 <= i < |visited| ==> visited[i] in c
    ensures var after := if ExclusionsOf(c, d) == [] then excludedBy else excludedBy[d := ExclusionsOf(c, d)];
            Explained(c, after, visited + [d])
    ensures ExclusionListing(c, visited + [d]) == ExclusionListing(c, visited) + ExclusionsOf(c, d)
  {
    ListingSnoc(c, visited, d);
    var after := if ExclusionsOf(c, d) == [] then excludedBy else excludedBy[d := ExclusionsOf(c, d)];
    forall x ensures At(after, x) == if x in visited + [d] && x in c then ExclusionsOf(c, x) else [] {
      assert At(excludedBy, x) == if x in visited && x in c then ExclusionsOf(c, x) else [];
    }
  }

  /** The manifests of a list that no exclusion applies to. */
  ghost function FreeOf(c: Catalog, ms: seq<Manifest>): (r: seq<Manifest>)
    requires forall i :: 0 <= i < |ms| ==> ms[i].digest in c
  {
    if ms == [] then []
    else
      var last := ms[|ms| - 1];
      FreeOf(c, ms[..|ms| - 1]) + (if ExclusionsOf(c, last.digest) == [] then [last] else [])
  }

  ghost function Free(c: Catalog): (p: Manifest -> bool) {
    (m: Manifest) => m.digest in c && ExclusionsOf(c, m.digest) == []
  }

  ghost predicate RowsOf(c: Catalog, ms: seq<Manifest>) {
    forall i {:trigger ms[i]} :: 0 <= i < |ms| ==> ms[i].digest in c && c[ms[i].digest] == ms[i]
  }

  lemma FreeSnoc(c: Catalog, ms: seq<Manifest>, m: Manifest)
    requires RowsOf(c, ms + [m]) && RowsOf(c, ms)
    ensures m.digest in c
    ensures FreeOf(c, ms + [m]) == FreeOf(c, ms) + (if ExclusionsOf(c, m.digest) == [] then [m] else [])
  {
    assert (ms + [m])[|ms|] == m;
    assert (ms + [m])[..|ms|] == ms;
  }

  lemma {:induction false} FreeFilter(c: Catalog, ms: seq<Manifest>)
    requires RowsOf(c, ms)
    ensures |FreeOf(c, ms)| == |Filter(ms, Free(c))|
    ensures forall i ::
          0 <= i < |FreeOf(c, ms)| ==> Filter(ms, Free(c))[i] in c && FreeOf(c, ms)[i] == c[Filter(ms, Free(c))[i]]
  {
    if ms != [] {
      var init, last := ms[..|ms| - 1], ms[|ms| - 1];
      FreeFilter(c, init);
      assert last.digest in c && c[last.digest] == last;
    }
  }

  lemma SelectableListed(c: Catalog)
    requires Keyed(c) && RowsOf(c, Listing(c))
    ensures FreeOf(c, Listing(c)) == Pick(c, SortedSeq(Selectable(c)))
  {
    FreeFilter(c, Listing(c));
    FilterListing(c, Free(c), Selectable(c));
  }

  /** The selectable set and the exclusions are those of the catalog. */
  ghost predicate SelectionBuilt(c: Catalog, selectable: seq<Manifest>, exclusions: seq<Exclusion>,
                                 excludedBy: map<Digest, seq<Exclusion>>)
  {
    && selectable == Pick(c, SortedSeq(Selectable(c)))
    && (forall d {:trigger At(excludedBy, d)} :: d in c ==> At(excludedBy, d) == ExclusionsOf(c, d))
    && exclusions == ExclusionListing(c, SortedSeq(c.Keys))
  }

  /** Every reason that applies to one manifest, in checking order. */
  method Reasons(c: Catalog, m: Manifest, parents: seq<Digest>) returns (reasons: seq<Exclusion>)
    requires Keyed(c) && m.digest in c && c[m.digest] == m
    requires parents == SortedSeq(ParentsOf(c, m.digest))
    ensures reasons == ExclusionsOf(c, m.digest)
  {
    reasons := [];
    for i := 0 to |m.tags|
      invariant reasons == TagExclusions(m.digest, m.tags[..i])
    {
      var tag := m.tags[i];
      assert m.tags[..i + 1][..i] == m.tags[..i];
      if tag.isProtected { reasons := reasons + [Exclusion(m.digest, ExcludedProtectedTag, tag.name)]; }
      if tag.isImmutable { reasons := reasons + [Exclusion(m.digest, ExcludedImmutableTag, tag.name)]; }
    }
    assert m.tags[..|m.tags|] == m.tags;
    if |parents| > 0 {
      reasons := reasons + [Exclusion(m.digest, ExcludedIndexChild, Join(parents))];
    }
    if m.subject != "" && m.subject in c {
      reasons := reasons + [Exclusion(m.digest, ExcludedLiveSubject, m.subject)];
    }
  }

  lemma ListedRows(c: Catalog)
    requires Keyed(c)
    ensures RowsOf(c, Listing(c))
    ensures forall i :: 0 <= i < |Listing(c)| ==> Listing(c)[i].digest == SortedSeq(c.Keys)[i]
  {
    assert forall d :: d in SortedSeq(c.Keys) ==> d in c;
  }

  ghost predicate Excluding(c: Catalog, ms: seq<Manifest>, selectable: seq<Manifest>, exclusions: seq<Exclusion>,
                            excludedBy: map<Digest, seq<Exclusion>>)
    requires RowsOf(c, ms)
  {
    && Explained(c, excludedBy, DigestsOf(ms))
    && exclusions == ExclusionListing(c, DigestsOf(ms))
    && selectable == FreeOf(c, ms)
  }

  method Exclude(c: Catalog, manifests: seq<Manifest>, indexParents: map<Digest, seq<Digest>>)
      returns (selectable: seq<Manifest>, exclusions: seq<Exclusion>, excludedBy: map<Digest, seq<Exclusion>>)
    requires Keyed(c) && manifests == Listing(c) && ListsParents(c, indexParents)
    ensures SelectionBuilt(c, selectable, exclusions, excludedBy)
  {
    ListedRows(c);
    selectable, exclusions, excludedBy := [], [], map[];
    for i := 0 to |manifests|
      invariant Excluding(c, manifests[..i], selectable, exclusions, excludedBy)
    {
      var m := manifests[i];
      var reasons := Reasons(c, m, At(indexParents, m.digest));
      ExcludeStep(c, i, selectable, exclusions, excludedBy);
      if |reasons| == 0 {
        selectable := selectable + [m];
      } else {
        excludedBy := excludedBy[m.digest := reasons];
        exclusions := exclusions + reasons;
      }
    }
    assert manifests[..|manifests|] == manifests;
    assert DigestsOf(manifests) == SortedSeq(c.Keys);
    SelectableListed(c);
  }

  lemma ExcludeStep(c: Catalog, i: nat, selectable: seq<Manifest>, exclusions: seq<Exclusion>,
                    excludedBy: map<Digest, seq<Exclusion>>)
    requires Keyed(c) && RowsOf(c, Listing(c)) && i < |Listing(c)|
    requires Excluding(c, Listing(c)[..i], selectable, exclusions, excludedBy)
    ensures Listing(c)[i].digest in c
    ensures var m := Listing(c)[i];
            var reasons := ExclusionsOf(c, m.digest);
            if reasons == []
            then Excluding(c, Listing(c)[..i + 1], selectable + [m], exclusions, excludedBy)
            else Excluding(c, Listing(c)[..i + 1], selectable, exclusions + reasons, excludedBy[m.digest := reasons])
  {
    var ms, m := Listing(c)[..i], Listing(c)[i];
    assert Listing(c)[..i + 1] == ms + [m];
    FreeSnoc(c, ms, m);
    assert DigestsOf(ms + [m]) == DigestsOf(ms) + [m.digest];
    assert m.digest !in DigestsOf(ms) by {
      ListingIncreasing(c);
      forall k | 0 <= k < i
        ensures DigestsOf(ms)[k] != m.digest
      {
        assert LexLt(Listing(c)[k].digest, Listing(c)[i].digest);
      }
    }
    ExplainStep(c, excludedBy, DigestsOf(ms), m.digest);
  }

  // ----- collecting edges -----

  ghost predicate ListsReferrers(c: Catalog, refs: map<Digest, seq<Digest>>) {
    forall s {:trigger At(refs, s)} :: At(refs, s) == SortedSeq(ReferrersOf(c, s))
  }

  ghost predicate ListsParents(c: Catalog, parents: map<Digest, seq<Digest>>) {
    forall x {:trigger At(parents, x)} :: At(parents, x) == SortedSeq(ParentsOf(c, x))
  }

  ghost predicate CollectsReferrers(c: Catalog, refs: map<Digest, seq<Digest>>, ms: seq<Manifest>) {
    forall s {:trigger At(refs, s)} :: At(refs, s) == if s in c then Filter(ms, HasSubject(s)) else []
  }

  ghost predicate CollectsParents(c: Catalog, parents: map<Digest, seq<Digest>>, ms: seq<Manifest>) {
    forall x {:trigger At(parents, x)} :: At(parents, x) == if x in c then Filter(ms, HasChild(x)) else []
  }

  /** `now` is `was` with `m` appended under those of its children already visited. */
  ghost predicate ParentsPartly(c: Catalog, was: map<Digest, seq<Digest>>, now: map<Digest, seq<Digest>>, m: Manifest,
                                visited: seq<Digest>)
  {
    forall x {:trigger At(now, x)} :: At(now, x) == At(was, x) + if x in c && x in visited then [m.digest] else []
  }

  lemma FilterSnoc(ms: seq<Manifest>, m: Manifest, p: Manifest -> bool)
    ensures Filter(ms + [m], p) == Filter(ms, p) + if p(m) then [m.digest] else []
  {
    assert (ms + [m])[..|ms|] == ms;
  }

  ghost function WithReferrer(c: Catalog, refs: map<Digest, seq<Digest>>, m: Manifest): (r: map<Digest, seq<Digest>>) {
    if m.subject != "" && m.subject in c then refs[m.subject := At(refs, m.subject) + [m.digest]] else refs
  }

  lemma ReferrerStep(c: Catalog, refs: map<Digest, seq<Digest>>, ms: seq<Manifest>, m: Manifest)
    requires Keyed(c) && CollectsReferrers(c, refs, ms)
    ensures CollectsReferrers(c, WithReferrer(c, refs, m), ms + [m])
  {
    var after := WithReferrer(c, refs, m);
    forall s ensures At(after, s) == if s in c then Filter(ms + [m], HasSubject(s)) else [] {
      FilterSnoc(ms, m, HasSubject(s));
      assert At(refs, s) == if s in c then Filter(ms, HasSubject(s)) else [];
    }
  }

  lemma ParentStep(c: Catalog, was: map<Digest, seq<Digest>>, now: map<Digest, seq<Digest>>, ms: seq<Manifest>,
                   m: Manifest)
    requires CollectsParents(c, was, ms) && ParentsPartly(c, was, now, m, m.children)
    ensures CollectsParents(c, now, ms + [m])
  {
    forall x ensures At(now, x) == if x in c then Filter(ms + [m], HasChild(x)) else [] {
      FilterSnoc(ms, m, HasChild(x));
      assert At(was, x) == if x in c then Filter(ms, HasChild(x)) else [];
    }
  }

  /** Records one row's subject and child edges. */
  method LinkRow(c: Catalog, refs: map<Digest, seq<Digest>>, parents: map<Digest, seq<Digest>>, m: Manifest,
                 ghost before: seq<Manifest>)
      returns (refs': map<Digest, seq<Digest>>, parents': map<Digest, seq<Digest>>)
    requires Keyed(c) && Distinct(m.children)
    requires CollectsReferrers(c, refs, before) && CollectsParents(c, parents, before)
    ensures CollectsReferrers(c, refs', before + [m]) && CollectsParents(c, parents', before + [m])
  {
    refs' := refs;
    if m.subject != "" && m.subject in c {
      refs' := refs[m.subject := At(refs, m.subject) + [m.digest]];
    }
    ReferrerStep(c, refs, before, m);
    parents' := LinkChildren(c, parents, m);
    ParentStep(c, parents, parents', before, m);
  }

  lemma ChildStep(c: Catalog, was: map<Digest, seq<Digest>>, now: map<Digest, seq<Digest>>, m: Manifest,
                  visited: seq<Digest>, child: Digest)
    requires ParentsPartly(c, was, now, m, visited) && child !in visited
    ensures var after := if child in c then now[child := At(now, child) + [m.digest]] else now;
            ParentsPartly(c, was, after, m, visited + [child])
  {
    var after := if child in c then now[child := At(now, child) + [m.digest]] else now;
    forall x ensures At(after, x) == At(was, x) + if x in c && x in visited + [child] then [m.digest] else [] {
      assert At(now, x) == At(was, x) + if x in c && x in visited then [m.digest] else [];
    }
  }

  method LinkChildren(c: Catalog, parents: map<Digest, seq<Digest>>, m: Manifest)
    returns (parents': map<Digest, seq<Digest>>)
    requires Distinct(m.children)
    ensures ParentsPartly(c, parents, parents', m, m.children)
  {
    parents' := parents;
    for j := 0 to |m.children|
      invariant ParentsPartly(c, parents, parents', m, m.children[..j])
    {
      var child := m.children[j];
      assert m.children[..j + 1] == m.children[..j] + [child];
      ChildStep(c, parents, parents', m, m.children[..j], child);
      if child in c {
        parents' := parents'[child := At(parents', child) + [m.digest]];
      }
    }
    assert m.children[..|m.children|] == m.children;
  }

  method LinkRows(c: Catalog, rows: seq<Manifest>)
    returns (refs: map<Digest, seq<Digest>>, parents: map<Digest, seq<Digest>>)
    requires Keyed(c)
    requires forall i {:trigger rows[i]} :: 0 <= i < |rows| ==> Distinct(rows[i].children)
    ensures CollectsReferrers(c, refs, rows) && CollectsParents(c, parents, rows)
  {
    refs, parents := map[], map[];
    assert rows[..0] == [];
    for i := 0 to |rows|
      invariant CollectsReferrers(c, refs, rows[..i]) && CollectsParents(c, parents, rows[..i])
    {
      assert rows[..i + 1] == rows[..i] + [rows[i]];
      refs, parents := LinkRow(c, refs, parents, rows[i], rows[..i]);
    }
    assert rows[..|rows|] == rows;
  }

  lemma SortedEdges(c: Catalog, refs: map<Digest, seq<Digest>>, parents: map<Digest, seq<Digest>>)
    requires Keyed(c)
    requires CollectsReferrers(c, refs, Listing(c)) && CollectsParents(c, parents, Listing(c))
    ensures ListsReferrers(c, map s | s in refs :: SortStrings(refs[s]))
    ensures ListsParents(c, map x | x in parents :: SortStrings(parents[x]))
  {
    forall s ensures At(map s | s in refs :: SortStrings(refs[s]), s) == SortedSeq(ReferrersOf(c, s)) {
      assert At(refs, s) == SortedSeq(ReferrersOf(c, s)) by {
        if s in c { FilterListing(c, HasSubject(s), ReferrersOf(c, s)); }
      }
      if s in refs { SortIncreasing(refs[s]); }
    }
    forall x ensures At(map x | x in parents :: SortStrings(parents[x]), x) == SortedSeq(ParentsOf(c, x)) {
      assert At(parents, x) == SortedSeq(ParentsOf(c, x)) by {
        if x in c { FilterListing(c, HasChild(x), ParentsOf(c, x)); }
      }
      if x in parents { SortIncreasing(parents[x]); }
    }
  }

  class Inventory {
    var repository: string
    var manifests: seq<Manifest>
    var selectable: seq<Manifest>
    var exclusions: seq<Exclusion>
    var byDigest: Catalog
    var excludedBy: map<Digest, seq<Exclusion>>
    var referrers: map<Digest, seq<Digest>>
    var indexParents: map<Digest, seq<Digest>>

    constructor (repository: string, byDigest: Catalog, manifests: seq<Manifest>)
      requires Keyed(byDigest) && manifests == Listing(byDigest)
      ensures this.repository == repository && this.byDigest == byDigest && Loaded()
      ensures selectable == [] && exclusions == [] && excludedBy == map[] && referrers == map[] && indexParents == map[]
    {
      this.repository, this.byDigest, this.manifests := repository, byDigest, manifests;
      selectable, exclusions := [], [];
      excludedBy, referrers, indexParents := map[], map[], map[];
    }

    /** The rows are in, sorted by digest. */
    ghost predicate Loaded()
      reads this
    {
      Keyed(byDigest) && manifests == Listing(byDigest)
    }

    /** The edge maps list exactly the live edges. */
    ghost predicate EdgesListed()
      reads this
    {
      ListsReferrers(byDigest, referrers) && ListsParents(byDigest, indexParents)
    }

    /** What every built inventory satisfies. */
    ghost predicate Valid()
      reads this
    {
      && Loaded()
      && EdgesListed()
      && !HasCycle(Subjects(byDigest))
      && SelectionBuilt(byDigest, selectable, exclusions, excludedBy)
    }

    method IndexEdges()
      requires Loaded()
      requires forall d :: d in byDigest ==> Distinct(byDigest[d].children)
      requires referrers == map[] && indexParents == map[]
      modifies this`referrers, this`indexParents
      ensures EdgesListed()
    {
      forall i | 0 <= i < |manifests| ensures Distinct(manifests[i].children) { ListingRow(i); }
      referrers, indexParents := LinkRows(byDigest, manifests);
      SortedEdges(byDigest, referrers, indexParents);
      referrers := map s | s in referrers :: SortStrings(referrers[s]);
      indexParents := map x | x in indexParents :: SortStrings(indexParents[x]);
    }

    lemma ListingRow(i: nat)
      requires Loaded() && i < |manifests|
      ensures manifests[i].digest in byDigest && byDigest[manifests[i].digest] == manifests[i]
      ensures manifests[i].digest == SortedSeq(byDigest.Keys)[i]
    {
      assert SortedSeq(byDigest.Keys)[i] in byDigest.Keys;
    }

    /** Index the edges, then refuse a subject cycle. */
    method BuildEdges() returns (r: Result<()>)
      requires Loaded()
      requires forall d :: d in byDigest ==> Distinct(byDigest[d].children)
      requires referrers == map[] && indexParents == map[]
      modifies this`referrers, this`indexParents
      ensures EdgesListed()
      ensures r.Err? <==> HasCycle(Subjects(byDigest))
      ensures r.Err? ==> OnCycle(Subjects(byDigest), r.error.digest) && r.error.reason.SubjectCycle?
    {
      IndexEdges();
      var order := seq(|manifests|, i requires 0 <= i < |manifests| reads this => manifests[i].digest);
      assert order == SortedSeq(byDigest.Keys) by {
        forall i | 0 <= i < |order| ensures order[i] == SortedSeq(byDigest.Keys)[i] { ListingRow(i); }
      }
      r := WalkSubjects(order, byDigest);
    }

    /** Compute the exclusions and the selectable set. */
    method BuildSelectable()
      requires Loaded() && EdgesListed() && !HasCycle(Subjects(byDigest))
      requires selectable == [] && exclusions == [] && excludedBy == map[]
      modifies this`selectable, this`exclusions, this`excludedBy
      ensures Valid()
    {
      selectable, exclusions, excludedBy := Exclude(byDigest, manifests, indexParents);
    }

    /** Edges first, then the selectable set; a subject cycle refuses the whole. */
    method Build() returns (r: Result<()>)
      requires Loaded()
      requires forall d :: d in byDigest ==> Distinct(byDigest[d].children)
      requires
        && selectable == []
        && exclusions == []
        && excludedBy == map[]
        && referrers == map[]
        && indexParents == map[]
      modifies this`referrers, this`indexParents, this`selectable, this`exclusions, this`excludedBy
      ensures r.Ok? ==> Valid()
      ensures r.Err? <==> HasCycle(Subjects(byDigest))
      ensures r.Err? ==> OnCycle(Subjects(byDigest), r.error.digest) && r.error.reason.SubjectCycle?
    {
      r := BuildEdges();
      if r.Ok? { BuildSelectable(); }
    }

    /** Everything that attaches to `digest`, transitively: the strict closure of
        the referrer relation, sorted, without repeats. */
    method ReferrerSubtree(digest: Digest) returns (r: seq<Digest>)
      requires Valid()
      ensures r == SortedSeq(Subtree(byDigest, digest))
    {
      r := CollectSubtree(byDigest, referrers, digest);
    }
  }

  /** Mid-search: what has been seen, and that only queued nodes are unexpanded. */
  ghost predicate Searching(f: map<Digest, Digest>, root: Digest, seen: set<Digest>, queue: seq<Digest>,
                            out: seq<Digest>, open: set<Digest>)
  {
    && seen == {root} + Elems(out) && root !in out && Distinct(out)
    && (forall k {:trigger out[k]} :: 0 <= k < |out| ==> out[k] in f && Attached(f, out[k], root))
    && (forall k {:trigger queue[k]} :: 0 <= k < |queue| ==> queue[k] in seen)
    && (forall y {:trigger f[y]} :: y in f && f[y] in seen && f[y] !in queue && f[y] !in open ==> y in seen)
  }

  /** `lists` holds, for each node, the nodes that `f` sends to it. */
  ghost predicate ListsSources(f: map<Digest, Digest>, lists: map<Digest, seq<Digest>>) {
    forall x, y {:trigger y in At(lists, x)} :: y in At(lists, x) <==> y in f && f[y] == x
  }

  /** Breadth-first over the referrer lists. */
  method Search(ghost f: map<Digest, Digest>, referrers: map<Digest, seq<Digest>>, root: Digest)
    returns (ghost seen: set<Digest>, out: seq<Digest>)
    requires ListsSources(f, referrers)
    ensures Searching(f, root, seen, [], out, {})
  {
    ghost var universe := f.Keys + {root};
    var visited := {root};
    var queue := [root];
    out := [];
    while |queue| > 0
      invariant visited <= universe
      invariant Searching(f, root, visited, queue, out, {})
      decreases |universe - visited|, |queue|
    {
      PopQueue(f, root, visited, queue, out);
      var current := queue[0];
      var next := At(referrers, current);
      assert forall k :: 0 <= k < |next| ==> next[k] in At(referrers, current);
      visited, queue, out := Expand(f, root, universe, current, next, visited, queue[1..], out);
      CloseNode(f, root, visited, queue, out, current, next);
    }
    seen := visited;
  }

  method CollectSubtree(c: Catalog, referrers: map<Digest, seq<Digest>>, digest: Digest) returns (r: seq<Digest>)
    requires Keyed(c) && ListsReferrers(c, referrers) && !HasCycle(Subjects(c))
    ensures r == SortedSeq(Subtree(c, digest))
  {
    ReferrersAt(c, referrers);
    ghost var seen;
    var out;
    seen, out := Search(LiveSubjects(c), referrers, digest);
    SubtreeFound(c, digest, seen, out);
    SortStringsDistinct(out);
    r := SortStrings(out);
  }

  /** Queues the referrers of one node that have not been seen. */
  method Expand(ghost f: map<Digest, Digest>, ghost root: Digest, ghost universe: set<Digest>, ghost current: Digest,
                next: seq<Digest>,
                seen0: set<Digest>, queue0: seq<Digest>, out0: seq<Digest>)
      returns (seen: set<Digest>, queue: seq<Digest>, out: seq<Digest>)
    requires Searching(f, root, seen0, queue0, out0, {current})
    requires seen0 <= universe && f.Keys <= universe && current in seen0
    requires forall k :: 0 <= k < |next| ==> next[k] in f && f[next[k]] == current
    ensures Searching(f, root, seen, queue, out, {current})
    ensures seen <= universe
    ensures |universe - seen| < |universe - seen0| || (|universe - seen| == |universe - seen0| && queue == queue0)
    ensures forall k :: 0 <= k < |next| ==> next[k] in seen
  {
    seen, queue, out := seen0, queue0, out0;
    for j := 0 to |next|
      invariant seen <= universe && current in seen
      invariant |universe - seen| < |universe - seen0| || (|universe - seen| == |universe - seen0| && queue == queue0)
      invariant Searching(f, root, seen, queue, out, {current})
      invariant forall k :: 0 <= k < j ==> next[k] in seen
    {
      var referrer := next[j];
      if referrer in seen { continue; }
      Discover(f, root, seen, queue, out, current, referrer);
      StrictlySmaller(universe - seen, universe - (seen + {referrer}));
      seen := seen + {referrer};
      out := out + [referrer];
      queue := queue + [referrer];
    }
  }

  lemma ReferrersAt(c: Catalog, referrers: map<Digest, seq<Digest>>)
    requires ListsReferrers(c, referrers)
    ensures ListsSources(LiveSubjects(c), referrers)
  {
    forall x, y ensures y in At(referrers, x) <==> y in LiveSubjects(c) && LiveSubjects(c)[y] == x {
      assert y in At(referrers, x) <==> y in ReferrersOf(c, x);
    }
  }

  lemma PopQueue(f: map<Digest, Digest>, root: Digest, seen: set<Digest>, queue: seq<Digest>, out: seq<Digest>)
    requires queue != [] && Searching(f, root, seen, queue, out, {})
    ensures Searching(f, root, seen, queue[1..], out, {queue[0]})
    ensures queue[0] in seen
  {
    var rest := queue[1..];
    assert forall k :: 0 <= k < |rest| ==> rest[k] == queue[k + 1];
    assert forall x :: x in queue <==> x == queue[0] || x in rest by {
      assert queue == [queue[0]] + rest;
    }
  }

  lemma Discover(f: map<Digest, Digest>, root: Digest, seen: set<Digest>, queue: seq<Digest>, out: seq<Digest>,
                 current: Digest, y: Digest)
    requires Searching(f, root, seen, queue, out, {current}) && current in seen
    requires y !in seen && y in f && f[y] == current
    ensures Searching(f, root, seen + {y}, queue + [y], out + [y], {current})
  {
    if current != root {
      assert current in Elems(out);
      var k :| 0 <= k < |out| && out[k] == current;
    }
    AttachedStep(f, y, root);
    assert y !in out by { assert y !in Elems(out); }
    assert forall x :: x in queue + [y] <==> x in queue || x == y;
    assert Elems(out + [y]) == Elems(out) + {y};
  }

  lemma CloseNode(f: map<Digest, Digest>, root: Digest, seen: set<Digest>, queue: seq<Digest>, out: seq<Digest>,
                  current: Digest, next: seq<Digest>)
    requires Searching(f, root, seen, queue, out, {current})
    requires forall y :: y in next <==> y in f && f[y] == current
    requires forall k :: 0 <= k < |next| ==> next[k] in seen
    ensures Searching(f, root, seen, queue, out, {})
  {
    forall y | y in f && f[y] in seen && f[y] !in queue
      ensures y in seen
    {
      if f[y] == current { assert y in next; }
    }
  }

  lemma SubtreeFound(c: Catalog, root: Digest, seen: set<Digest>, out: seq<Digest>)
    requires Keyed(c) && !HasCycle(Subjects(c))
    requires Searching(LiveSubjects(c), root, seen, [], out, {})
    ensures Elems(out) == Subtree(c, root) && Distinct(out)
  {
    var f := LiveSubjects(c);
    SubjectCycles(c);
    forall d | d in Subtree(c, root)
      ensures d in out
    {
      ClosedCovers(f, seen, d, root);
      assert OnCycle(f, d) ==> HasCycle(f);
      assert d != root;
      assert d in Elems(out);
    }
    assert forall k :: 0 <= k < |out| ==> out[k] in f;
  }

  lemma StrictlySmaller(a: set<Digest>, b: set<Digest>)
    requires b <= a && a != b
    ensures |b| < |a|
  {
    assert a == b + (a - b);
  }

  /** A set closed under referrers holds everything attached to its members. */
  lemma ClosedCovers(f: map<Digest, Digest>, seen: set<Digest>, d: Digest, root: Digest)
    requires Attached(f, d, root) && root in seen
    requires forall y {:trigger f[y]} :: y in f && f[y] in seen ==> y in seen
    ensures d in seen
  {
    var n: nat :| n > 0 && Chain(f, d, n, root);
    ClosedCoversChain(f, seen, d, n, root);
  }

  lemma {:induction false} ClosedCoversChain(f: map<Digest, Digest>, seen: set<Digest>, d: Digest, n: nat, root: Digest)
    requires Chain(f, d, n, root) && root in seen
    requires forall y {:trigger f[y]} :: y in f && f[y] in seen ==> y in seen
    ensures d in seen
    decreases n
  {
    if n > 0 {
      ClosedCoversChain(f, seen, f[d], n - 1, root);
    }
  }

  // ----- the whole build -----

  /** What a refusal says is true of the snapshot. */
  ghost predicate Blames(repository: string, s: seq<Manifest>, e: InventoryError) {
    || (repository == "" && e == InventoryError("", NoRepository))
    || (exists i :: 0 <= i < |s| && BlamesRow(s, i, e))
    || (e.reason.SubjectCycle? && OnCycle(Subjects(CatalogOf(s)), e.digest))
  }

  ghost predicate BlamesRow(s: seq<Manifest>, i: nat, e: InventoryError)
    requires i < |s|
  {
    exists owners :: OwnersOf(s[..i], owners) && RowBlame(s[i], CatalogOf(s[..i]), owners, e)
  }

  /** `owners` maps each tag name of the rows to the digest of a row that carries it. */
  ghost predicate OwnersOf(s: seq<Manifest>, owners: map<string, Digest>) {
    && (forall n {:trigger n in owners} ::
          n in owners ==> exists k :: 0 <= k < |s| && n in NamesOf(s[k].tags) && s[k].digest == owners[n])
    && (forall k, n {:trigger n in NamesOf(s[k].tags)} :: 0 <= k < |s| && n in NamesOf(s[k].tags) ==> n in owners)
  }

  /** The rows read so far are acceptable and indexed. */
  ghost predicate Reading(s: seq<Manifest>, byDigest: Catalog, owners: map<string, Digest>, rows: seq<Manifest>) {
    && (forall k {:trigger s[k]} :: 0 <= k < |s| ==> ManifestOk(s[k]))
    && DistinctDigests(s) && OneOwner(s)
    && byDigest == CatalogOf(s)
    && OwnersOf(s, owners)
    && |rows| == |s| && forall k {:trigger rows[k]} :: 0 <= k < |s| ==> rows[k] == Normal(s[k])
  }

  lemma CatalogSnoc(s: seq<Manifest>, m: Manifest)
    ensures CatalogOf(s + [m]) == CatalogOf(s)[m.digest := Normal(m)]
  {
    assert (s + [m])[..|s|] == s;
  }

  lemma OwnersStep(s: seq<Manifest>, owners: map<string, Digest>, m: Manifest, after: map<string, Digest>)
    requires OwnersOf(s, owners) && Claimed(owners, Elems(NamesOf(m.tags)), m.digest, after)
    ensures OwnersOf(s + [m], after)
  {
    var t := s + [m];
    forall n | n in after
      ensures exists k :: 0 <= k < |t| && n in NamesOf(t[k].tags) && t[k].digest == after[n]
    {
      if n in Elems(NamesOf(m.tags)) {
        assert t[|s|] == m;
      } else {
        assert n in owners;
        var k :| 0 <= k < |s| && n in NamesOf(s[k].tags) && s[k].digest == owners[n];
        assert t[k] == s[k];
      }
    }
    forall k, n | 0 <= k < |t| && n in NamesOf(t[k].tags)
      ensures n in after
    {
      if k < |s| { assert n in NamesOf(s[k].tags); } else { assert n in Elems(NamesOf(m.tags)); }
    }
  }

  lemma ReadStep(s: seq<Manifest>, byDigest: Catalog, owners: map<string, Digest>, rows: seq<Manifest>, m: Manifest,
                 after: map<string, Digest>)
    requires Reading(s, byDigest, owners, rows)
    requires ManifestOk(m) && m.digest !in byDigest && FreshNames(m, owners)
    requires Claimed(owners, Elems(NamesOf(m.tags)), m.digest, after)
    ensures Reading(s + [m], byDigest[m.digest := Normal(m)], after, rows + [Normal(m)])
  {
    CatalogSnoc(s, m);
    OwnersStep(s, owners, m, after);
    DistinctStep(s, m);
    OneOwnerStep(s, owners, m);
  }

  lemma DistinctStep(s: seq<Manifest>, m: Manifest)
    requires DistinctDigests(s) && m.digest !in CatalogOf(s)
    ensures DistinctDigests(s + [m])
  {
    var t := s + [m];
    forall i, j | 0 <= i < j < |t|
      ensures t[i].digest != t[j].digest
    {
      if j == |s| { CatalogAt(s, i); }
    }
  }

  lemma OneOwnerStep(s: seq<Manifest>, owners: map<string, Digest>, m: Manifest)
    requires OneOwner(s) && OwnersOf(s, owners) && FreshNames(m, owners)
    ensures OneOwner(s + [m])
  {
    var t := s + [m];
    forall i, j, n | 0 <= i < j < |t| && n in NamesOf(t[i].tags)
      ensures n !in NamesOf(t[j].tags)
    {
      if j == |s| { assert n in NamesOf(s[i].tags) && n in owners; }
    }
  }

  /** A row refused on the way makes the snapshot unacceptable. */
  lemma RefusedRow(s: seq<Manifest>, i: nat, byDigest: Catalog, owners: map<string, Digest>, rows: seq<Manifest>)
    requires i < |s| && Reading(s[..i], byDigest, owners, rows)
    requires !(ManifestOk(s[i]) && s[i].digest !in byDigest && FreshNames(s[i], owners))
    ensures !RowsAccepted(s)
  {
    if s[i].digest in byDigest {
      var k := CatalogRow(s[..i], s[i].digest);
      assert s[..i][k] == s[k];
    } else if !FreshNames(s[i], owners) {
      var n :| n in NamesOf(s[i].tags) && n in owners;
      var k :| 0 <= k < i && n in NamesOf(s[..i][k].tags);
      assert s[..i][k] == s[k];
    }
  }

  /** The rows, sorted by digest, are the listing of the catalog. */
  lemma SortedRows(s: seq<Manifest>, rows: seq<Manifest>, sorted: seq<Manifest>)
    requires DistinctDigests(s) && (forall i :: 0 <= i < |s| ==> s[i].digest != "")
    requires |rows| == |s| && forall i {:trigger rows[i]} :: 0 <= i < |s| ==> rows[i] == Normal(s[i])
    requires multiset(sorted) == multiset(rows) && SortedBy(ByDigest, sorted)
    ensures sorted == Listing(CatalogOf(s))
  {
    var c := CatalogOf(s);
    SortedRowsOf(s, rows, sorted);
    var ds := DigestsOf(sorted);
    SortedRowsIncreasing(s, rows, sorted);
    forall d ensures d in c.Keys <==> d in ds { SortedRowsKeys(s, rows, sorted, d); }
    SortedSeqOf(c.Keys, ds);
    forall k | 0 <= k < |sorted|
      ensures sorted[k] == Listing(c)[k]
    {
      assert ds[k] == sorted[k].digest;
    }
  }

  lemma SortedRowsKeys(s: seq<Manifest>, rows: seq<Manifest>, sorted: seq<Manifest>, d: Digest)
    requires |rows| == |s| && forall i {:trigger rows[i]} :: 0 <= i < |s| ==> rows[i] == Normal(s[i])
    requires multiset(sorted) == multiset(rows) && RowsOf(CatalogOf(s), sorted)
    ensures d in CatalogOf(s) <==> d in DigestsOf(sorted)
  {
    var ds := DigestsOf(sorted);
    if d in CatalogOf(s) {
      var i := CatalogRow(s, d);
      assert rows[i] in multiset(rows) && rows[i] in multiset(sorted);
      var k :| 0 <= k < |sorted| && sorted[k] == rows[i];
      assert ds[k] == d;
    }
    if d in ds {
      var k :| 0 <= k < |ds| && ds[k] == d;
      assert sorted[k].digest in CatalogOf(s);
    }
  }

  lemma SortedRowsOf(s: seq<Manifest>, rows: seq<Manifest>, sorted: seq<Manifest>)
    requires DistinctDigests(s)
    requires |rows| == |s| && forall i {:trigger rows[i]} :: 0 <= i < |s| ==> rows[i] == Normal(s[i])
    requires multiset(sorted) == multiset(rows)
    ensures RowsOf(CatalogOf(s), sorted)
  {
    forall k | 0 <= k < |sorted|
      ensures sorted[k].digest in CatalogOf(s) && CatalogOf(s)[sorted[k].digest] == sorted[k]
    {
      assert sorted[k] in multiset(sorted) && sorted[k] in rows;
      var i :| 0 <= i < |rows| && rows[i] == sorted[k];
      CatalogAt(s, i);
    }
  }

  lemma SortedRowsIncreasing(s: seq<Manifest>, rows: seq<Manifest>, sorted: seq<Manifest>)
    requires DistinctDigests(s)
    requires |rows| == |s| && forall i {:trigger rows[i]} :: 0 <= i < |s| ==> rows[i] == Normal(s[i])
    requires multiset(sorted) == multiset(rows) && SortedBy(ByDigest, sorted)
    ensures Increasing(DigestsOf(sorted))
  {
    SortedRowsOf(s, rows, sorted);
    assert Distinct(rows) by {
      forall i, j | 0 <= i < j < |rows| ensures rows[i] != rows[j] { assert s[i].digest != s[j].digest; }
    }
    PermutationDistinct(rows, sorted);
    var ds := DigestsOf(sorted);
    forall i, j | 0 <= i < j < |ds|
      ensures LexLt(ds[i], ds[j])
    {
      assert ByDigest(sorted[i], sorted[j]);
      assert sorted[i] != sorted[j];
    }
  }

  lemma RefusedAt(s: seq<Manifest>, i: nat, byDigest: Catalog, owners: map<string, Digest>, rows: seq<Manifest>,
                  e: InventoryError)
    requires i < |s| && Reading(s[..i], byDigest, owners, rows)
    requires
      && !(ManifestOk(s[i]) && s[i].digest !in byDigest && FreshNames(s[i], owners))
      && RowBlame(s[i], byDigest, owners, e)
    ensures !RowsAccepted(s) && exists k :: 0 <= k < |s| && BlamesRow(s, k, e)
  {
    RefusedRow(s, i, byDigest, owners, rows);
    assert BlamesRow(s, i, e);
  }

  lemma ReadNext(s: seq<Manifest>, i: nat, byDigest: Catalog, owners: map<string, Digest>, rows: seq<Manifest>,
                 after: map<string, Digest>)
    requires i < |s| && Reading(s[..i], byDigest, owners, rows)
    requires ManifestOk(s[i]) && s[i].digest !in byDigest && FreshNames(s[i], owners)
    requires Claimed(owners, Elems(NamesOf(s[i].tags)), s[i].digest, after)
    ensures Reading(s[..i + 1], byDigest[s[i].digest := Normal(s[i])], after, rows + [Normal(s[i])])
  {
    assert s[..i + 1] == s[..i] + [s[i]];
    ReadStep(s[..i], byDigest, owners, rows, s[i], after);
  }

  /** Reads and indexes every row, or stops at the first unusable one. */
  method ReadRows(s: seq<Manifest>)
    returns (r: Result<seq<Manifest>>, byDigest: Catalog, ghost owners: map<string, Digest>)
    ensures r.Ok? ==> Reading(s, byDigest, owners, r.value)
    ensures r.Err? ==> !RowsAccepted(s) && exists i :: 0 <= i < |s| && BlamesRow(s, i, r.error)
  {
    byDigest := map[];
    var rows: seq<Manifest> := [];
    var tagOwner: map<string, Digest> := map[];
    owners := tagOwner;
    for i := 0 to |s|
      invariant Reading(s[..i], byDigest, tagOwner, rows)
    {
      var clone, after := ValidateManifest(s[i], byDigest, tagOwner);
      if clone.Err? {
        RefusedAt(s, i, byDigest, tagOwner, rows, clone.error);
        return Err(clone.error), byDigest, owners;
      }
      ReadNext(s, i, byDigest, tagOwner, rows, after);
      byDigest := byDigest[clone.value.digest := clone.value];
      rows := rows + [clone.value];
      tagOwner := after;
    }
    assert s[..|s|] == s;
    owners := tagOwner;
    r := Ok(rows);
  }

  /** The sorted rows and their index, or the first unusable row. */
  method LoadRows(s: seq<Manifest>) returns (r: Result<seq<Manifest>>, byDigest: Catalog)
    ensures r.Ok? <==> RowsAccepted(s)
    ensures r.Ok? ==> byDigest == CatalogOf(s) && Keyed(byDigest) && r.value == Listing(byDigest)
    ensures r.Err? ==> exists i :: 0 <= i < |s| && BlamesRow(s, i, r.error)
  {
    ghost var owners;
    r, byDigest, owners := ReadRows(s);
    if r.Err? { return; }
    CatalogKeyed(s);
    KeyOrders();
    var sorted := SortBy(ByDigest, r.value);
    SortedRows(s, r.value, sorted);
    r := Ok(sorted);
  }

  /** Builds the inventory of an acceptable snapshot and refuses every other. */
  method NewInventory(repository: string, s: seq<Manifest>) returns (r: Result<Inventory>)
    ensures r.Ok? <==> repository != "" && Accepted(s)
    ensures r.Ok? ==>
          fresh(r.value) && r.value.Valid() && r.value.repository == repository && r.value.byDigest == CatalogOf(s)
    ensures r.Err? ==> Blames(repository, s, r.error)
  {
    if repository == "" { return Err(InventoryError("", NoRepository)); }
    var rows, byDigest := LoadRows(s);
    if rows.Err? { return Err(rows.error); }
    CatalogChildren(s);
    var inv := new Inventory(repository, byDigest, rows.value);
    var built := inv.Build();
    if built.Err? { return Err(built.error); }
    r := Ok(inv);
  }

  lemma CatalogChildren(s: seq<Manifest>)
    ensures forall d :: d in CatalogOf(s) ==> Distinct(CatalogOf(s)[d].children)
  {
    forall d | d in CatalogOf(s)
      ensures Distinct(CatalogOf(s)[d].children)
    {
      var i := CatalogRow(s, d);
      IncreasingDistinct(SortedSeq(Elems(s[i].children)));
    }
  }
}
