/**
 The subject relation of a repository is a partial function: a manifest names at
 most one subject.  This module is the theory of such functions that the
 inventory's cycle walk and the plan's cascades rest on.
 */
module SubjectGraph {

  /** Following `f` exactly `n` times from `d` arrives at `e`. */
  ghost predicate Chain(f: map<string, string>, d: string, n: nat, e: string)
    decreases n
  {
    if n == 0 then d == e else d in f && Chain(f, f[d], n - 1, e)
  }

  /** `d` attaches to `root`, directly or through other attachments. */
  ghost predicate Attached(f: map<string, string>, d: string, root: string) {
    exists n: nat :: n > 0 && Chain(f, d, n, root)
  }

  ghost predicate OnCycle(f: map<string, string>, d: string) {
    Attached(f, d, d)
  }

  ghost predicate HasCycle(f: map<string, string>) {
    exists d :: OnCycle(f, d)
  }

  /** A certificate that walks from ranked nodes end: the rank drops along every edge. */
  ghost predicate Ranked(f: map<string, string>, rank: map<string, nat>) {
    forall d {:trigger f[d]} :: d in rank && d in f ==> f[d] in rank && rank[f[d]] < rank[d]
  }

  lemma {:induction false} ChainSplit(f: map<string, string>, d: string, m: nat, x: string, n: nat, e: string)
    requires Chain(f, d, m, x)
    ensures Chain(f, d, m + n, e) <==> Chain(f, x, n, e)
    decreases m
  {
    if m > 0 {
      ChainSplit(f, f[d], m - 1, x, n, e);
    }
  }

  lemma AttachedStep(f: map<string, string>, d: string, root: string)
    requires d in f
    requires f[d] == root || Attached(f, f[d], root)
    ensures Attached(f, d, root)
  {
    if f[d] == root {
      assert Chain(f, d, 1, root);
    } else {
      var n: nat :| n > 0 && Chain(f, f[d], n, root);
      assert Chain(f, d, n + 1, root);
    }
  }

  lemma AttachedUnfold(f: map<string, string>, d: string, root: string)
    requires Attached(f, d, root)
    ensures d in f && (f[d] == root || Attached(f, f[d], root))
  {
    var n: nat :| n > 0 && Chain(f, d, n, root);
    if n > 1 { assert Chain(f, f[d], n - 1, root); }
  }

  lemma {:induction false} RankDrops(f: map<string, string>, rank: map<string, nat>, d: string, n: nat, e: string)
    requires Ranked(f, rank) && d in rank
    requires n > 0 && Chain(f, d, n, e)
    ensures e in rank && rank[e] < rank[d]
    decreases n
  {
    if n > 1 {
      RankDrops(f, rank, f[d], n - 1, e);
    } else {
      assert Chain(f, f[d], 0, e);
    }
  }

  lemma RankedAcyclic(f: map<string, string>, rank: map<string, nat>)
    requires Ranked(f, rank)
    requires forall d :: d in f ==> d in rank
    ensures !HasCycle(f)
  {
    if HasCycle(f) {
      var d :| OnCycle(f, d);
      var n: nat :| n > 0 && Chain(f, d, n, d);
      RankDrops(f, rank, d, n, d);
    }
  }

  ghost predicate Link(f: map<string, string>, path: seq<string>, i: nat)
    requires i + 1 < |path|
  {
    path[i] in f && f[path[i]] == path[i + 1]
  }

  /** Each node of the path is followed by its image. */
  ghost predicate Linked(f: map<string, string>, path: seq<string>) {
    forall i: nat {:trigger Link(f, path, i)} :: i + 1 < |path| ==> Link(f, path, i)
  }

  lemma LinkedFront(f: map<string, string>, path: seq<string>)
    requires Linked(f, path) && path != []
    ensures Linked(f, path[..|path| - 1])
  {
    var front := path[..|path| - 1];
    forall i: nat | i + 1 < |front|
      ensures Link(f, front, i)
    {
      assert Link(f, path, i);
    }
  }

  lemma LinkedSnoc(f: map<string, string>, path: seq<string>, x: string)
    requires Linked(f, path)
    requires path != [] ==> path[|path| - 1] in f && f[path[|path| - 1]] == x
    ensures Linked(f, path + [x])
  {
    var longer := path + [x];
    forall i: nat | i + 1 < |longer|
      ensures Link(f, longer, i)
    {
      if i + 1 < |path| { assert Link(f, path, i); }
    }
  }

  /** A path that runs into ranked ground can be ranked, last node first. */
  lemma {:induction false} RankPath(f: map<string, string>, rank: map<string, nat>, path: seq<string>)
    returns (r: map<string, nat>)
    requires Ranked(f, rank)
    requires Linked(f, path) && (forall i, j :: 0 <= i < j < |path| ==> path[i] != path[j])
    requires forall i :: 0 <= i < |path| ==> path[i] !in rank
    requires path != [] && path[|path| - 1] in f ==> f[path[|path| - 1]] in rank
    ensures Ranked(f, r)
    ensures forall d :: d in r <==> d in rank || d in path
    decreases |path|
  {
    if path == [] {
      r := rank;
    } else {
      var last, front := path[|path| - 1], path[..|path| - 1];
      var step := rank[last := if last in f then rank[f[last]] + 1 else 0];
      assert Ranked(f, step);
      if front != [] {
        assert Link(f, path, |path| - 2);
      }
      LinkedFront(f, path);
      r := RankPath(f, step, front);
      assert path == front + [last];
    }
  }

  lemma {:induction false} PathChain(f: map<string, string>, path: seq<string>, next: string, k: nat)
    requires k < |path| && Linked(f, path)
    requires path[|path| - 1] in f && f[path[|path| - 1]] == next
    ensures Attached(f, path[k], next)
    decreases |path| - k
  {
    if k < |path| - 1 {
      assert Link(f, path, k);
      PathChain(f, path, next, k + 1);
    }
    AttachedStep(f, path[k], next);
  }

  /** One attachment hangs under at most one top: the tops are where the walk stops. */
  lemma OneTop(f: map<string, string>, d: string, a: string, b: string)
    requires Attached(f, d, a) && Attached(f, d, b)
    requires a !in f && b !in f
    ensures a == b
  {
    var m: nat :| m > 0 && Chain(f, d, m, a);
    var n: nat :| n > 0 && Chain(f, d, n, b);
    if m <= n {
      ChainSplit(f, d, m, a, n - m, b);
    } else {
      ChainSplit(f, d, n, b, m - n, a);
    }
  }

  /** Dropping edges that lead out of the graph takes nothing off a cycle: whatever is on
      one has an edge that stays. */
  lemma CyclesAreLive(g: map<string, string>, f: map<string, string>)
    requires f.Keys <= g.Keys
    requires forall d :: d in f ==> f[d] == g[d]
    requires forall d :: d in g && g[d] in g ==> d in f
    ensures forall d :: OnCycle(g, d) <==> OnCycle(f, d)
    ensures forall d :: OnCycle(g, d) ==> d in f
    ensures HasCycle(g) <==> HasCycle(f)
  {
    forall d
      ensures OnCycle(g, d) <==> OnCycle(f, d)
      ensures OnCycle(f, d) ==> d in f
    {
      if OnCycle(g, d) {
        var n: nat :| n > 0 && Chain(g, d, n, d);
        ChainInto(g, f, d, n, d);
      }
      if OnCycle(f, d) {
        var n: nat :| n > 0 && Chain(f, d, n, d);
        ChainWider(g, f, d, n, d);
      }
    }
    if HasCycle(g) {
      var d :| OnCycle(g, d);
      assert OnCycle(f, d);
    }
    if HasCycle(f) {
      var d :| OnCycle(f, d);
      assert OnCycle(g, d);
    }
  }

  lemma {:induction false} ChainInto(g: map<string, string>, f: map<string, string>, d: string, n: nat, e: string)
    requires forall x :: x in f ==> x in g && f[x] == g[x]
    requires forall x :: x in g && g[x] in g ==> x in f
    requires Chain(g, d, n, e) && e in g
    ensures Chain(f, d, n, e)
    decreases n
  {
    if n > 0 {
      ChainInto(g, f, g[d], n - 1, e);
      assert g[d] in g;
    }
  }

  lemma {:induction false} ChainWider(g: map<string, string>, f: map<string, string>, d: string, n: nat, e: string)
    requires forall x :: x in f ==> x in g && f[x] == g[x]
    requires Chain(f, d, n, e)
    ensures Chain(g, d, n, e)
    decreases n
  {
    if n > 0 {
      ChainWider(g, f, f[d], n - 1, e);
    }
  }
}
