/**
 Import boundaries: breadth-first search for a forbidden package and the chain
 that is reported for it. Models internal/archtest/archtest.go.
 */
module ImportGraphs {
  import opened Wrappers
  import opened Order

  type Graph = map<string, seq<string>>

  datatype Mode = Direct | Transitive

  datatype Rule = Rule(
    name: string, reason: string, from: seq<string>, except_: seq<string>, forbidden: seq<string>, mode: Mode)

  datatype Violation = Violation(rule: string, reason: string, chain: seq<string>)

  // ----- patterns -----

  predicate HasSuffix(s: string, suffix: string) { |s| >= |suffix| && s[|s| - |suffix|..] == suffix }

  /** A `/...` pattern selects a package and everything below it; any other, itself. */
  predicate MatchPattern(pattern: string, pkg: string) {
    if HasSuffix(pattern, "/...") then
      var subtree := pattern[..|pattern| - 4];
      pkg == subtree || subtree + "/" <= pkg
    else pattern == pkg
  }

  predicate MatchAny(patterns: seq<string>, pkg: string) {
    exists i :: 0 <= i < |patterns| && MatchPattern(patterns[i], pkg)
  }

  predicate AppliesTo(r: Rule, pkg: string) { MatchAny(r.from, pkg) && !MatchAny(r.except_, pkg) }

  // ----- paths -----

  function Out(g: Graph, u: string): (r: seq<string>) { if u in g then g[u] else [] }

  predicate Hop(g: Graph, p: seq<string>, i: int)
    requires 0 <= i < |p| - 1
  {
    p[i + 1] in Out(g, p[i])
  }

  ghost predicate IsPath(g: Graph, start: string, p: seq<string>) {
    p != [] && p[0] == start && forall i {:trigger Hop(g, p, i)} :: 0 <= i < |p| - 1 ==> Hop(g, p, i)
  }

  ghost predicate Hits(g: Graph, start: string, forbidden: seq<string>, p: seq<string>) {
    IsPath(g, start, p) && p[|p| - 1] != start && MatchAny(forbidden, p[|p| - 1])
  }

  /** No import path to any forbidden package is shorter. */
  ghost predicate Shortest(g: Graph, start: string, forbidden: seq<string>, p: seq<string>) {
    && Hits(g, start, forbidden, p)
    && forall q {:trigger Hits(g, start, forbidden, q)} :: Hits(g, start, forbidden, q) ==> |p| <= |q|
  }

  // ----- the search -----

  ghost predicate Child(g: Graph, parent: map<string, string>, dist: map<string, nat>, v: string) {
    && v in parent && v in dist && parent[v] in dist
    && v in Out(g, parent[v]) && dist[v] == dist[parent[v]] + 1
  }

  /** The parent map is a tree of imports with depths `dist`. */
  ghost predicate Tree(g: Graph, start: string, parent: map<string, string>, dist: map<string, nat>) {
    && parent.Keys == dist.Keys && start in dist && dist[start] == 0
    && forall v {:trigger Child(g, parent, dist, v)} :: v in dist && v != start ==> Child(g, parent, dist, v)
  }

  ghost predicate Clean(start: string, forbidden: seq<string>, dist: map<string, nat>) {
    forall v {:trigger v in dist} :: v in dist && v != start ==> !MatchAny(forbidden, v)
  }

  ghost predicate Done(g: Graph, dist: map<string, nat>, u: string)
    requires u in dist
  {
    forall v {:trigger v in Out(g, u)} :: v in Out(g, u) ==> v in dist && dist[v] <= dist[u] + 1
  }

  /** Everything found and not waiting has had its imports looked at. */
  ghost predicate Closed(g: Graph, dist: map<string, nat>, waiting: set<string>) {
    forall u {:trigger Done(g, dist, u)} :: u in dist && u !in waiting ==> Done(g, dist, u)
  }

  /** The queue holds what was found at depth `d` and then at depth `d + 1`. */
  ghost predicate Queued(dist: map<string, nat>, queue: seq<string>, d: nat) {
    && (forall i {:trigger queue[i]} :: 0 <= i < |queue| ==> queue[i] in dist && d <= dist[queue[i]] <= d + 1)
    && (forall i, j {:trigger queue[i], queue[j]} :: 0 <= i < j < |queue| ==> dist[queue[i]] <= dist[queue[j]])
  }

  /** Whatever `n` imports away lies within the searched depth has been found. */
  lemma {:induction false} FoundWithin(g: Graph, start: string, dist: map<string, nat>, waiting: set<string>, d: nat,
                                       p: seq<string>)
    requires start in dist && dist[start] == 0 && Closed(g, dist, waiting)
    requires forall u {:trigger u in waiting} :: u in waiting && u in dist ==> dist[u] >= d
    requires IsPath(g, start, p) && |p| - 1 <= d
    ensures p[|p| - 1] in dist && dist[p[|p| - 1]] <= |p| - 1
    decreases |p|
  {
    if |p| > 1 {
      var front := p[..|p| - 1];
      ShorterPath(g, start, p);
      FoundWithin(g, start, dist, waiting, d, front);
      var u := front[|front| - 1];
      assert Hop(g, p, |p| - 2);
      assert u !in waiting;
      assert Done(g, dist, u);
    }
  }

  lemma ShorterPath(g: Graph, start: string, p: seq<string>)
    requires IsPath(g, start, p) && |p| > 1
    ensures IsPath(g, start, p[..|p| - 1])
  {
    var front := p[..|p| - 1];
    forall i | 0 <= i < |front| - 1 ensures Hop(g, front, i) { assert Hop(g, p, i); }
  }

  /** Nothing forbidden lies within the searched depth. */
  lemma NothingWithin(g: Graph, start: string, forbidden: seq<string>, dist: map<string, nat>, waiting: set<string>,
                      d: nat, p: seq<string>)
    requires start in dist && dist[start] == 0 && Closed(g, dist, waiting) && Clean(start, forbidden, dist)
    requires forall u {:trigger u in waiting} :: u in waiting && u in dist ==> dist[u] >= d
    requires Hits(g, start, forbidden, p)
    ensures |p| - 1 > d
  {
    if |p| - 1 <= d { FoundWithin(g, start, dist, waiting, d, p); }
  }

  /** Adds a package found from `current`. */
  lemma Discover(g: Graph, start: string, parent: map<string, string>, dist: map<string, nat>, current: string,
                 v: string)
    requires Tree(g, start, parent, dist) && current in dist && v in Out(g, current) && v !in dist
    ensures Tree(g, start, parent[v := current], dist[v := dist[current] + 1])
  {
    var p2, d2 := parent[v := current], dist[v := dist[current] + 1];
    forall x | x in d2 && x != start
      ensures Child(g, p2, d2, x)
    {
      if x != v { assert Child(g, parent, dist, x); }
    }
  }

  lemma ClosedGrows(g: Graph, dist: map<string, nat>, waiting: set<string>, v: string, n: nat)
    requires Closed(g, dist, waiting) && v !in dist
    ensures Closed(g, dist[v := n], waiting + {v})
  {
    forall u | u in dist[v := n] && u !in waiting + {v}
      ensures Done(g, dist[v := n], u)
    {
      assert Done(g, dist, u);
    }
  }

  lemma ClosedQueue(g: Graph, dist: map<string, nat>, queue: seq<string>, current: string, v: string, n: nat)
    requires Closed(g, dist, Elems(queue) + {current}) && v !in dist
    ensures Closed(g, dist[v := n], Elems(queue + [v]) + {current})
  {
    ClosedGrows(g, dist, Elems(queue) + {current}, v, n);
    assert Elems(queue + [v]) + {current} == Elems(queue) + {current} + {v};
  }

  lemma QueuedGrows(dist: map<string, nat>, queue: seq<string>, d: nat, v: string)
    requires Queued(dist, queue, d) && v !in dist
    ensures Queued(dist[v := d + 1], queue + [v], d)
  {
    var q2 := queue + [v];
    forall i | 0 <= i < |q2| ensures q2[i] in dist[v := d + 1] && d <= dist[v := d + 1][q2[i]] <= d + 1 {
      if i < |queue| { assert q2[i] == queue[i]; }
    }
    forall i, j | 0 <= i < j < |q2| ensures dist[v := d + 1][q2[i]] <= dist[v := d + 1][q2[j]] {
      assert q2[i] == queue[i];
      if j < |queue| { assert q2[j] == queue[j]; }
    }
  }

  ghost function Universe(g: Graph, start: string): (r: set<string>) {
    {start} + set u, v | u in g && v in g[u] :: v
  }

  lemma InUniverse(g: Graph, start: string, u: string, v: string)
    requires v in Out(g, u)
    ensures v in Universe(g, start)
  {
  }

  ghost predicate Shallow(dist: map<string, nat>, n: nat) {
    forall v {:trigger dist[v]} {:trigger v in dist} :: v in dist ==> dist[v] <= n
  }

  lemma CurrentDone(g: Graph, dist: map<string, nat>, queue: seq<string>, current: string)
    requires Closed(g, dist, Elems(queue) + {current}) && current in dist && Done(g, dist, current)
    ensures Closed(g, dist, Elems(queue))
  {
  }

  /** The state of the search while `current`, at depth `d`, is looked at. */
  ghost predicate Searching(g: Graph, start: string, forbidden: seq<string>, parent: map<string, string>,
                            queue: seq<string>, dist: map<string, nat>, current: string, d: nat)
  {
    && Tree(g, start, parent, dist) && Clean(start, forbidden, dist) && dist.Keys <= Universe(g, start)
    && current in dist && dist[current] == d && Shallow(dist, d + 1)
    && Queued(dist, queue, d) && Closed(g, dist, Elems(queue) + {current})
  }

  lemma Enqueue(g: Graph, start: string, forbidden: seq<string>, parent: map<string, string>, queue: seq<string>,
                dist: map<string, nat>, current: string, v: string)
    requires current in dist && Searching(g, start, forbidden, parent, queue, dist, current, dist[current])
    requires v in Out(g, current) && v !in dist && v in Universe(g, start) && !MatchAny(forbidden, v)
    ensures Searching(g, start, forbidden, parent[v := current], queue + [v], dist[v := dist[current] + 1],
                      current, dist[current])
  {
    Discover(g, start, parent, dist, current, v);
    ClosedQueue(g, dist, queue, current, v, dist[current] + 1);
    QueuedGrows(dist, queue, dist[current], v);
  }

  /** Looks at what `current` imports: either a forbidden package turns up, or
      everything new is queued behind what was there. */
  method Scan(g: Graph, start: string, forbidden: seq<string>, current: string, parent0: map<string, string>,
              queue0: seq<string>, ghost dist0: map<string, nat>)
    returns (hit: Option<string>, parent: map<string, string>, queue: seq<string>, ghost dist: map<string, nat>)
    requires Tree(g, start, parent0, dist0) && Clean(start, forbidden, dist0) && current in dist0
    requires Queued(dist0, queue0, dist0[current]) && Closed(g, dist0, Elems(queue0) + {current})
    requires dist0.Keys <= Universe(g, start) && Shallow(dist0, dist0[current] + 1)
    ensures Tree(g, start, parent, dist) && dist.Keys <= Universe(g, start)
    ensures hit.Some? ==>
          && hit.value in dist
          && hit.value != start
          && dist[hit.value] == dist0[current] + 1
          && MatchAny(forbidden, hit.value)
    ensures hit.None? ==>
          Clean(start, forbidden, dist) && Queued(dist, queue, dist0[current]) && Closed(g, dist, Elems(queue))
    ensures hit.None? ==> Shallow(dist, dist0[current] + 1)
    ensures hit.None? ==> dist0.Keys < dist.Keys || (dist == dist0 && queue == queue0)
  {
    hit, parent, queue, dist := None, parent0, queue0, dist0;
    var imports := if current in g then g[current] else [];
    for j := 0 to |imports|
      invariant Searching(g, start, forbidden, parent, queue, dist, current, dist0[current])
      invariant forall k {:trigger imports[k]} ::
            0 <= k < j ==> imports[k] in dist && dist[imports[k]] <= dist[current] + 1
      invariant dist0.Keys < dist.Keys || (dist == dist0 && queue == queue0)
    {
      var imp := imports[j];
      if imp in parent {
        continue;
      }
      InUniverse(g, start, current, imp);
      Discover(g, start, parent, dist, current, imp);
      if MatchAny(forbidden, imp) {
        parent := parent[imp := current];
        dist := dist[imp := dist[current] + 1];
        return Some(imp), parent, queue, dist;
      }
      Enqueue(g, start, forbidden, parent, queue, dist, current, imp);
      parent, queue := parent[imp := current], queue + [imp];
      dist := dist[imp := dist[current] + 1];
    }
    assert Done(g, dist, current);
    CurrentDone(g, dist, queue, current);
  }

  /** The path of tree edges from the start to `v`. */
  lemma {:induction false} TreePath(g: Graph, start: string, parent: map<string, string>, dist: map<string, nat>,
                                    v: string)
    returns (p: seq<string>)
    requires Tree(g, start, parent, dist) && v in dist
    ensures Branch(start, parent, p) && IsPath(g, start, p) && p[|p| - 1] == v && |p| == dist[v] + 1
    ensures forall i {:trigger p[i]} :: 0 <= i < |p| ==> p[i] in dist && dist[p[i]] == i
    decreases dist[v]
  {
    if v == start {
      p := [v];
    } else {
      assert Child(g, parent, dist, v);
      var front := TreePath(g, start, parent, dist, parent[v]);
      p := front + [v];
      forall i | 0 <= i < |p| - 1 ensures Hop(g, p, i) && Linked(parent, p, i) {
        if i < |front| - 1 { assert Hop(g, front, i) && Linked(parent, front, i); }
      }
    }
  }

  ghost predicate Linked(parent: map<string, string>, p: seq<string>, i: int)
    requires 0 <= i < |p| - 1
  {
    p[i + 1] in parent && parent[p[i + 1]] == p[i]
  }

  /** `p` follows the parent map back to the start and passes it nowhere else. */
  ghost predicate Branch(start: string, parent: map<string, string>, p: seq<string>) {
    && p != [] && p[0] == start
    && (forall i {:trigger Linked(parent, p, i)} :: 0 <= i < |p| - 1 ==> Linked(parent, p, i))
  }

  /** What is left of a path once everything up to the last empty name before its
      end is cut off. */
  ghost function AfterBlank(p: seq<string>): (r: seq<string>)
    requires p != []
    ensures r != []
    decreases |p|
  {
    if |p| == 1 then p
    else if p[|p| - 2] == "" then [p[|p| - 1]]
    else AfterBlank(p[..|p| - 1]) + [p[|p| - 1]]
  }

  ghost predicate NamedFrom(p: seq<string>, k: int) {
    forall i {:trigger p[i]} :: k <= i < |p| - 1 && 0 <= i ==> p[i] != ""
  }

  lemma {:induction false} AfterBlankCuts(p: seq<string>, k: nat)
    requires k < |p| && NamedFrom(p, k) && (k == 0 || p[k - 1] == "")
    ensures AfterBlank(p) == p[k..]
    decreases |p|
  {
    if |p| > 1 && k < |p| - 1 {
      var front := p[..|p| - 1];
      assert p[|p| - 2] != "";
      AfterBlankCuts(front, k);
      assert p[k..] == front[k..] + [p[|p| - 1]];
    }
  }

  function Reversed(s: seq<string>): (r: seq<string>) {
    if s == [] then [] else [s[|s| - 1]] + Reversed(s[..|s| - 1])
  }

  /** Walks the parent map back to the start; an empty name ends the walk early. */
  method BuildChain(parent: map<string, string>, start: string, hit: string, ghost p: seq<string>)
    returns (chain: seq<string>)
    requires Branch(start, parent, p) && |p| > 1 && p[|p| - 1] == hit
    requires forall i {:trigger p[i]} :: 0 < i < |p| ==> p[i] != start
    ensures chain == AfterBlank(p)
  {
    var back := [hit];
    assert Linked(parent, p, |p| - 2);
    var node := parent[hit];
    ghost var k := |p| - 2;
    assert back[..0] == [] && Reversed(back) == p[k + 1..];
    while node != ""
      invariant 0 <= k < |p| - 1 && node == p[k] && Reversed(back) == p[k + 1..] && NamedFrom(p, k + 1)
      decreases k
    {
      assert (back + [node])[..|back|] == back;
      back := back + [node];
      assert Reversed(back) == p[k..];
      if node == start {
        AfterBlankCuts(p, 0);
        return Reversed(back);
      }
      assert k > 0 && Linked(parent, p, k - 1);
      node, k := parent[node], k - 1;
    }
    AfterBlankCuts(p, k + 1);
    chain := Reversed(back);
  }

  ghost function Undiscovered(g: Graph, start: string, dist: map<string, nat>): (r: set<string>) {
    Universe(g, start) - dist.Keys
  }

  /** A chain the search may report: a shortest path to a forbidden package, cut after an
      empty name. */
  ghost predicate Reported(g: Graph, start: string, forbidden: seq<string>, chain: seq<string>) {
    exists p {:trigger Shortest(g, start, forbidden, p)} :: Shortest(g, start, forbidden, p) && chain == AfterBlank(p)
  }

  /** No forbidden package is nearer than `n` imports. */
  ghost predicate NoneWithin(g: Graph, start: string, forbidden: seq<string>, n: int) {
    forall p {:trigger Hits(g, start, forbidden, p)} :: Hits(g, start, forbidden, p) ==> |p| > n
  }

  /** The forbidden package just found, traced back. */
  method Trace(g: Graph, start: string, forbidden: seq<string>, parent: map<string, string>, hit: string,
               ghost dist: map<string, nat>)
    returns (chain: seq<string>)
    requires
      && Tree(g, start, parent, dist)
      && hit in dist
      && hit != start
      && MatchAny(forbidden, hit)
      && NoneWithin(g, start, forbidden, dist[hit])
    ensures Reported(g, start, forbidden, chain)
    ensures exists p :: Hits(g, start, forbidden, p)
  {
    ghost var path := TreePath(g, start, parent, dist, hit);
    chain := BuildChain(parent, start, hit, path);
    assert Hits(g, start, forbidden, path);
    assert Shortest(g, start, forbidden, path);
  }

  /** Breadth-first search: nothing exactly when no forbidden package other than the
      start is reachable; otherwise a shortest path to one, cut after an empty name. */
  method FindTransitive(g: Graph, start: string, forbidden: seq<string>) returns (r: Option<seq<string>>)
    ensures r.None? <==> forall p {:trigger Hits(g, start, forbidden, p)} :: !Hits(g, start, forbidden, p)
    ensures r.Some? ==> Reported(g, start, forbidden, r.value)
  {
    var parent := map[start := ""];
    var queue := [start];
    ghost var dist: map<string, nat>, d := map[start := 0], 0;
    while queue != []
      invariant Tree(g, start, parent, dist) && Clean(start, forbidden, dist) && dist.Keys <= Universe(g, start)
      invariant Queued(dist, queue, d) && Closed(g, dist, Elems(queue)) && Shallow(dist, d + 1)
      decreases Undiscovered(g, start, dist), |queue|
    {
      var current := queue[0];
      d := dist[current];
      NextInQueue(g, dist, queue);
      queue := queue[1..];
      forall p | Hits(g, start, forbidden, p)
        ensures |p| - 1 > d
      {
        NothingWithin(g, start, forbidden, dist, Elems([current] + queue), d, p);
      }
      ghost var was := dist;
      var hit;
      hit, parent, queue, dist := Scan(g, start, forbidden, current, parent, queue, dist);
      if hit.Some? {
        var chain := Trace(g, start, forbidden, parent, hit.value, dist);
        return Some(chain);
      }
    }
    forall p ensures !Hits(g, start, forbidden, p) {
      if Hits(g, start, forbidden, p) { NothingWithin(g, start, forbidden, dist, {}, |p|, p); }
    }
    r := None;
  }

  lemma NextInQueue(g: Graph, dist: map<string, nat>, queue: seq<string>)
    requires queue != [] && exists d: nat :: Queued(dist, queue, d)
    requires Closed(g, dist, Elems(queue))
    ensures queue[0] in dist && Queued(dist, queue[1..], dist[queue[0]])
    ensures Closed(g, dist, Elems(queue[1..]) + {queue[0]})
    ensures forall u {:trigger u in Elems([queue[0]] + queue[1..])} ::
          u in Elems([queue[0]] + queue[1..]) && u in dist ==> dist[u] >= dist[queue[0]]
  {
    assert queue == [queue[0]] + queue[1..];
    assert Elems(queue) == Elems(queue[1..]) + {queue[0]};
  }

  // ----- when the reported chain is a real one -----

  /** The empty name imports nothing but itself. */
  ghost predicate Blankless(g: Graph) {
    forall x {:trigger x in Out(g, "")} :: x in Out(g, "") ==> x == ""
  }

  lemma SkipStep(g: Graph, start: string, p: seq<string>, i: nat)
    requires IsPath(g, start, p) && i < |p| - 1 && p[i] == p[i + 1]
    ensures IsPath(g, start, p[..i] + p[i + 1..])
  {
    var q := p[..i] + p[i + 1..];
    forall j | 0 <= j < |q| - 1
      ensures Hop(g, q, j)
    {
      if j + 1 < i { assert Hop(g, p, j); }
      else if j + 1 == i { assert Hop(g, p, j); assert q[j + 1] == p[i + 1]; }
      else { assert Hop(g, p, j + 1); }
    }
  }

  lemma ShortestIsNamed(g: Graph, start: string, forbidden: seq<string>, p: seq<string>)
    requires Blankless(g) && Shortest(g, start, forbidden, p)
    ensures AfterBlank(p) == p
  {
    forall i | 0 <= i < |p| - 1
      ensures p[i] != ""
    {
      if p[i] == "" {
        assert Hop(g, p, i);
        SkipStep(g, start, p, i);
        assert Hits(g, start, forbidden, p[..i] + p[i + 1..]);
      }
    }
    AfterBlankCuts(p, 0);
  }

  /** Started at the empty name, the search reports something, and whatever it reports is
      not an import path from there. */
  lemma BlankBreaks(g: Graph, x: string)
    requires x in Out(g, "") && x != ""
    ensures Hits(g, "", [x], ["", x])
    ensures forall chain {:trigger Reported(g, "", [x], chain)} :: Reported(g, "", [x], chain) ==> !IsPath(g, "", chain)
  {
    var hit := ["", x];
    assert MatchPattern([x][0], x);
    assert Hits(g, "", [x], hit);
    forall chain | Reported(g, "", [x], chain) ensures !IsPath(g, "", chain) {
      var p :| Shortest(g, "", [x], p) && chain == AfterBlank(p);
      assert |p| == 2 && chain == [p[1]] && p[1] != "";
    }
  }

  ghost predicate AlwaysReal(g: Graph) {
    forall start, forbidden, chain {:trigger Reported(g, start, forbidden, chain)} ::
      Reported(g, start, forbidden, chain) ==> IsPath(g, start, chain)
  }

  /** Every chain reported is a real import path from the start, whatever the start
      and the rule, exactly when the empty name imports nothing but itself; and then it
      is a shortest one. */
  lemma ChainsAreRealIff(g: Graph)
    ensures AlwaysReal(g) <==> Blankless(g)
    ensures Blankless(g) ==>
          forall start, forbidden, chain {:trigger Reported(g, start, forbidden, chain)} ::
            Reported(g, start, forbidden, chain) ==> Shortest(g, start, forbidden, chain)
  {
    if Blankless(g) {
      forall start, forbidden, chain | Reported(g, start, forbidden, chain)
        ensures Shortest(g, start, forbidden, chain)
      {
        var p :| Shortest(g, start, forbidden, p) && chain == AfterBlank(p);
        ShortestIsNamed(g, start, forbidden, p);
      }
    } else {
      var x :| x in Out(g, "") && x != "";
      BlankBreaks(g, x);
      var p := ShortestExists(g, "", [x], ["", x]);
      assert Reported(g, "", [x], AfterBlank(p));
    }
  }

  lemma {:induction false} ShortestExists(g: Graph, start: string, forbidden: seq<string>, hit: seq<string>)
    returns (p: seq<string>)
    requires Hits(g, start, forbidden, hit)
    ensures Shortest(g, start, forbidden, p)
    decreases |hit|
  {
    if q :| Hits(g, start, forbidden, q) && |q| < |hit| {
      p := ShortestExists(g, start, forbidden, q);
    } else {
      p := hit;
    }
  }

  // ----- checking rules -----

  /** What a rule forbids of a package. */
  ghost predicate Breaks(g: Graph, rule: Rule, pkg: string) {
    if rule.mode.Direct? then exists x :: x in Out(g, pkg) && MatchAny(rule.forbidden, x)
    else exists p :: Hits(g, pkg, rule.forbidden, p)
  }

  /** The chain shows how: the first forbidden import, or a shortest path. */
  ghost predicate Shows(g: Graph, rule: Rule, pkg: string, chain: seq<string>) {
    if rule.mode.Direct? then
      exists i ::
        && 0 <= i < |Out(g, pkg)|
        && chain == [pkg, Out(g, pkg)[i]]
        && MatchAny(rule.forbidden, Out(g, pkg)[i])
        && forall j :: 0 <= j < i ==> !MatchAny(rule.forbidden, Out(g, pkg)[j])
    else Reported(g, pkg, rule.forbidden, chain)
  }

  method FindChain(g: Graph, pkg: string, rule: Rule) returns (r: Option<seq<string>>)
    ensures r.Some? <==> Breaks(g, rule, pkg)
    ensures r.Some? ==> Shows(g, rule, pkg, r.value)
  {
    if rule.mode.Direct? {
      var imports := Out(g, pkg);
      for i := 0 to |imports|
        invariant forall j :: 0 <= j < i ==> !MatchAny(rule.forbidden, imports[j])
      {
        if MatchAny(rule.forbidden, imports[i]) {
          assert imports[i] in Out(g, pkg);
          return Some([pkg, imports[i]]);
        }
      }
      return None;
    }
    r := FindTransitive(g, pkg, rule.forbidden);
  }

  ghost predicate Caught(g: Graph, rule: Rule, pkg: string) { AppliesTo(rule, pkg) && Breaks(g, rule, pkg) }

  ghost function Culprits(g: Graph, rule: Rule, pkgs: seq<string>): (r: seq<(Rule, string)>) {
    if pkgs == [] then []
    else
      Culprits(g, rule, pkgs[..|pkgs| - 1]) +
        (if Caught(g, rule, pkgs[|pkgs| - 1]) then [(rule, pkgs[|pkgs| - 1])] else [])
  }

  /** Every rule broken and by whom: rules as given, packages in order. */
  ghost function AllCulprits(g: Graph, rules: seq<Rule>): (r: seq<(Rule, string)>) {
    if rules == [] then []
    else AllCulprits(g, rules[..|rules| - 1]) + Culprits(g, rules[|rules| - 1], SortedSeq(g.Keys))
  }

  ghost predicate Accuses(g: Graph, v: Violation, c: (Rule, string)) {
    v.rule == c.0.name && v.reason == c.0.reason && Shows(g, c.0, c.1, v.chain)
  }

  ghost predicate Report(g: Graph, vs: seq<Violation>, cs: seq<(Rule, string)>) {
    |vs| == |cs| && forall k {:trigger vs[k]} :: 0 <= k < |vs| ==> Accuses(g, vs[k], cs[k])
  }

  method Packages(g: Graph) returns (pkgs: seq<string>)
    ensures pkgs == SortedSeq(g.Keys)
  {
    pkgs := ListKeys(g.Keys);
  }

  method CheckRule(g: Graph, rule: Rule, pkgs: seq<string>) returns (vs: seq<Violation>)
    ensures Report(g, vs, Culprits(g, rule, pkgs))
  {
    vs := [];
    assert pkgs[..0] == [];
    for i := 0 to |pkgs|
      invariant Report(g, vs, Culprits(g, rule, pkgs[..i]))
    {
      assert pkgs[..i + 1][..i] == pkgs[..i];
      if AppliesTo(rule, pkgs[i]) {
        var chain := FindChain(g, pkgs[i], rule);
        if chain.Some? {
          vs := vs + [Violation(rule.name, rule.reason, chain.value)];
        }
      }
    }
    assert pkgs[..|pkgs|] == pkgs;
  }

  /** One violation for each rule and package that breaks it, and no other. */
  method Check(g: Graph, rules: seq<Rule>) returns (vs: seq<Violation>)
    ensures Report(g, vs, AllCulprits(g, rules))
  {
    vs := [];
    var pkgs := Packages(g);
    assert rules[..0] == [];
    for i := 0 to |rules|
      invariant Report(g, vs, AllCulprits(g, rules[..i]))
    {
      assert rules[..i + 1][..i] == rules[..i];
      var more := CheckRule(g, rules[i], pkgs);
      ReportMore(g, vs, AllCulprits(g, rules[..i]), more, Culprits(g, rules[i], pkgs));
      vs := vs + more;
    }
    assert rules[..|rules|] == rules;
  }

  lemma ReportMore(g: Graph, vs: seq<Violation>, cs: seq<(Rule, string)>, ws: seq<Violation>, ds: seq<(Rule, string)>)
    requires Report(g, vs, cs) && Report(g, ws, ds)
    ensures Report(g, vs + ws, cs + ds)
  {
    forall k | 0 <= k < |vs + ws| ensures Accuses(g, (vs + ws)[k], (cs + ds)[k]) {
      if k >= |vs| { assert Accuses(g, ws[k - |vs|], ds[k - |vs|]); } else { assert Accuses(g, vs[k], cs[k]); }
    }
  }

  ghost predicate RuleHolds(g: Graph, rule: Rule) {
    forall pkg {:trigger Caught(g, rule, pkg)} :: pkg in g ==> !Caught(g, rule, pkg)
  }

  /** A clean report means every rule holds of every package it covers. */
  lemma {:induction false} CleanMeansClean(g: Graph, rules: seq<Rule>)
    ensures AllCulprits(g, rules) == [] <==> forall rule :: rule in rules ==> RuleHolds(g, rule)
  {
    if rules != [] {
      var front, last := rules[..|rules| - 1], rules[|rules| - 1];
      assert rules == front + [last];
      CleanMeansClean(g, front);
      HoldsIff(g, last);
    }
  }

  lemma HoldsIff(g: Graph, rule: Rule)
    ensures Culprits(g, rule, SortedSeq(g.Keys)) == [] <==> RuleHolds(g, rule)
  {
    CleanRule(g, rule, SortedSeq(g.Keys));
    assert forall pkg :: pkg in g <==> pkg in SortedSeq(g.Keys);
  }

  lemma {:induction false} CleanRule(g: Graph, rule: Rule, pkgs: seq<string>)
    ensures Culprits(g, rule, pkgs) == [] <==>
        forall pkg {:trigger Caught(g, rule, pkg)} :: pkg in pkgs ==> !Caught(g, rule, pkg)
  {
    if pkgs != [] {
      var front := pkgs[..|pkgs| - 1];
      CleanRule(g, rule, front);
      assert pkgs == front + [pkgs[|pkgs| - 1]];
    }
  }
}
