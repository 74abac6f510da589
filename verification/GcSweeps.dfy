/**
 The collector: a resumable sweep in digest order under a fixed deadline, while
 everybody else keeps pushing. Models internal/gc/sweep.go over the contracts of
 internal/meta/store.go. A crash between candidates is a cancellation whose save fails.
 */
module GcSweeps {
  import opened Order
  import opened GcWorld

  datatype GCRun = GCRun(
    id: string, startedAt: Time, sweepBefore: Time, cursor: Digest, scanned: int, deleted: int, freed: int)

  datatype SweepResult = SweepResult(
    runId: string, resumed: bool, scanned: int, deleted: int, bytes: int, skipped: int, leaked: int, complete: bool)

  datatype SweepError = Cancelled | StoreFailed

  // ----- candidates -----

  ghost function Sweepables(w: World, before: Time): (r: set<Digest>) {
    set d | d in w.rows && Sweepable(w, before, d)
  }

  ghost function Pending(w: World, before: Time, after: Digest): (r: set<Digest>) {
    set d | d in w.rows && Sweepable(w, before, d) && LexLt(after, d)
  }

  /** The first `limit` reclaimable digests after the cursor, in digest order. */
  ghost function Page(w: World, before: Time, after: Digest, limit: int): (r: seq<Digest>) {
    var all := SortedSeq(Pending(w, before, after));
    if limit <= 0 then [] else if |all| <= limit then all else all[..limit]
  }

  /** Whatever a page leaves out comes after its last row. */
  lemma PageReaches(w: World, before: Time, after: Digest, limit: int, k: nat, d: Digest)
    requires k < |Page(w, before, after, limit)|
    requires d in Pending(w, before, after)
    ensures LexLt(Page(w, before, after, limit)[k], d) || d in Page(w, before, after, limit)[..k + 1]
  {
    var all, page := SortedSeq(Pending(w, before, after)), Page(w, before, after, limit);
    assert d in all;
    var i :| 0 <= i < |all| && all[i] == d;
    if i <= k {
      assert page[..k + 1][i] == d;
    } else {
      assert page[k] == all[k];
      assert LexLt(all[k], all[i]);
    }
  }

  lemma PageStep(w: World, before: Time, after: Digest, limit: int, k: nat)
    requires k < |Page(w, before, after, limit)|
    ensures Page(w, before, after, limit)[k] in Pending(w, before, after)
    ensures k > 0 ==> LexLt(Page(w, before, after, limit)[k - 1], Page(w, before, after, limit)[k])
  {
    var all, page := SortedSeq(Pending(w, before, after)), Page(w, before, after, limit);
    assert page[k] == all[k] && all[k] in all;
    if k > 0 { assert page[k - 1] == all[k - 1]; assert LexLt(all[k - 1], all[k]); }
  }

  lemma EmptyPage(w: World, before: Time, after: Digest, limit: int)
    requires limit > 0 && Page(w, before, after, limit) == []
    ensures Pending(w, before, after) == {}
  {
    var all := SortedSeq(Pending(w, before, after));
    assert all == [];
    assert forall d :: d in Pending(w, before, after) <==> d in all;
  }

  // ----- what stays reclaimable all along -----

  /** The digests reclaimable at `w` and after every step since. */
  ghost function Steady(w: World, before: Time, t: seq<Step>): (r: set<Digest>) {
    if t == [] then Sweepables(w, before)
    else Steady(w, before, t[..|t| - 1]) * Sweepables(Play(w, t), before)
  }

  lemma SteadyNow(w: World, before: Time, t: seq<Step>)
    ensures Steady(w, before, t) <= Sweepables(Play(w, t), before)
  {
  }

  lemma {:induction false} SteadyShrinks(w: World, before: Time, t: seq<Step>, more: seq<Step>)
    ensures Steady(w, before, t + more) <= Steady(w, before, t)
  {
    if more == [] {
      assert t + more == t;
    } else {
      SteadyShrinks(w, before, t, more[..|more| - 1]);
      assert (t + more)[..|t + more| - 1] == t + more[..|more| - 1];
    }
  }

  /** What the collector asks of the stores. */
  datatype Ask = FindRun | StartRun | List | Reexamine(digest: Digest) | DropBytes | SaveRun | FinishRun

  datatype Call = Call(ask: Ask, ok: bool)

  /** A sweep's whole life, over any number of resumes: the world it started in, every
      step since, its deadline, and every call made since with its outcome, the first of
      them being call `from`. */
  datatype Life = Life(origin: World, since: seq<Step>, before: Time, from: nat, log: seq<Call>)

  /** The digests whose re-check met an error. */
  ghost function Errored(l: Life): (r: set<Digest>) {
    set k | 0 <= k < |l.log| && l.log[k].ask.Reexamine? && !l.log[k].ok :: l.log[k].ask.digest
  }

  /** The calls came out as the stores had it. */
  ghost predicate Logged(l: Life, fails: nat -> bool, calls: nat) {
    l.from + |l.log| == calls && forall k {:trigger l.log[k]} :: 0 <= k < |l.log| ==> l.log[k].ok == !fails(l.from + k)
  }

  lemma NoFailuresNoErrors(l: Life, fails: nat -> bool, calls: nat)
    requires Logged(l, fails, calls) && forall k {:trigger fails(k)} :: l.from <= k < calls ==> !fails(k)
    ensures Errored(l) == {}
  {
    forall k | 0 <= k < |l.log| ensures l.log[k].ok { assert !fails(l.from + k); }
  }

  ghost function Now(l: Life): (w: World) { Play(l.origin, l.since) }

  ghost function SteadyIn(l: Life): (r: set<Digest>) { Steady(l.origin, l.before, l.since) }

  ghost function Takes(w: World, s: Step): (r: seq<Digest>) {
    if Dooms(w, s) then [s.digest] else []
  }

  /** The rows deleted along a run, in order. */
  ghost function Taken(w: World, t: seq<Step>): (r: seq<Digest>) {
    if t == [] then [] else Taken(w, t[..|t| - 1]) + Takes(Play(w, t[..|t| - 1]), t[|t| - 1])
  }

  ghost function TakenIn(l: Life): (r: seq<Digest>) { Taken(l.origin, l.since) }

  ghost predicate Later(a: Life, b: Life) {
    a.origin == b.origin && a.before == b.before && a.from == b.from && a.log <= b.log && a.since <= b.since
  }

  /** Everything up to the cursor that was reclaimable all along met a store error. */
  ghost predicate Covered(l: Life, cursor: Digest) {
    forall d {:trigger d in SteadyIn(l)} :: d in SteadyIn(l) ==> LexLt(cursor, d) || d in Errored(l)
  }

  /** Only the sweep's own deadline was ever used to delete. */
  ghost predicate OneDeadline(l: Life) {
    forall k {:trigger l.since[k]} :: 0 <= k < |l.since| && l.since[k].DeleteRow? ==> l.since[k].before == l.before
  }

  lemma LaterShrinks(a: Life, b: Life)
    requires Later(a, b)
    ensures SteadyIn(b) <= SteadyIn(a)
  {
    var more := b.since[|a.since|..];
    assert b.since == a.since + more;
    SteadyShrinks(a.origin, a.before, a.since, more);
  }

  lemma ErroredGrows(a: Life, b: Life)
    requires Later(a, b)
    ensures Errored(a) <= Errored(b)
  {
    forall d | d in Errored(a) ensures d in Errored(b) {
      var k :| 0 <= k < |a.log| && a.log[k].ask.Reexamine? && !a.log[k].ok && a.log[k].ask.digest == d;
      assert b.log[k] == a.log[k];
    }
  }

  lemma CallLogged(l: Life, c: Call)
    ensures Errored(l.(log := l.log + [c])) == Errored(l) + (if c.ask.Reexamine? && !c.ok then {c.ask.digest} else {})
    ensures Later(l, l.(log := l.log + [c]))
  {
    var next := l.(log := l.log + [c]);
    ErroredGrows(l, next);
    assert next.log[|l.log|] == c;
    forall d | d in Errored(next) ensures d in Errored(l) || (c.ask.Reexamine? && !c.ok && d == c.ask.digest) {
      var k :| 0 <= k < |next.log| && next.log[k].ask.Reexamine? && !next.log[k].ok && next.log[k].ask.digest == d;
      if k < |l.log| { assert l.log[k] == next.log[k]; }
    }
  }

  lemma LaterCovers(a: Life, b: Life, cursor: Digest)
    requires Later(a, b) && Covered(a, cursor)
    ensures Covered(b, cursor)
  {
    LaterShrinks(a, b);
    ErroredGrows(a, b);
  }

  lemma PageCovers(listed: Life, l: Life, cursor: Digest, limit: int, k: nat)
    requires Later(listed, l) && Covered(l, cursor)
    requires k < |Page(Now(listed), l.before, cursor, limit)|
    requires forall d {:trigger d in SteadyIn(l)} ::
          d in SteadyIn(l) && d in Page(Now(listed), l.before, cursor, limit)[..k + 1] ==> d in Errored(l)
    ensures Covered(l, Page(Now(listed), l.before, cursor, limit)[k])
  {
    var page := Page(Now(listed), l.before, cursor, limit);
    LaterShrinks(listed, l);
    SteadyNow(listed.origin, listed.before, listed.since);
    forall d | d in SteadyIn(l)
      ensures LexLt(page[k], d) || d in Errored(l)
    {
      if LexLt(cursor, d) {
        assert d in Pending(Now(listed), l.before, cursor);
        PageReaches(Now(listed), l.before, cursor, limit, k, d);
      }
    }
  }

  lemma EmptyPageCovers(l: Life, cursor: Digest, limit: int)
    requires Covered(l, cursor) && limit > 0 && Page(Now(l), l.before, cursor, limit) == []
    ensures SteadyIn(l) <= Errored(l)
  {
    EmptyPage(Now(l), l.before, cursor, limit);
    SteadyNow(l.origin, l.before, l.since);
    forall d | d in SteadyIn(l) ensures d in Errored(l) {
      assert d !in Pending(Now(l), l.before, cursor);
    }
  }

  // ----- the world others share -----

  /** Not one of the collector's own operations. */
  predicate Outside(s: Step) { !s.DeleteRow? && !s.DeleteBytes? && !s.LeakBytes? }

  /** Rows come only from `universe`. */
  ghost predicate Known(w: World, universe: set<Digest>) {
    && w.rows.Keys <= universe
    && "" !in w.rows
    && forall q {:trigger w.publishing[q]} :: q in w.publishing ==> w.publishing[q] in universe
  }

  ghost predicate Admissible(s: Step, universe: set<Digest>) {
    Outside(s) && (s.CommitBytes? ==> s.digest in universe)
  }

  lemma KnownStep(w: World, s: Step, universe: set<Digest>)
    requires Known(w, universe) && (s.CommitBytes? ==> s.digest in universe)
    ensures Known(Apply(w, s), universe)
    ensures Outside(s) ==> Apply(w, s).doomed == w.doomed
  {
    var r := Apply(w, s);
    forall d | d in r.rows ensures d in universe { RowsAfter(w, s, d); }
    forall q | q in r.publishing ensures r.publishing[q] in universe { PublishingStep(w, s, q); }
  }

  lemma LifeStep(l: Life, s: Step)
    ensures Now(l.(since := l.since + [s])) == Apply(Now(l), s)
    ensures Later(l, l.(since := l.since + [s])) && TakenIn(l.(since := l.since + [s])) == TakenIn(l) + Takes(Now(l), s)
    ensures Leaks(l.since + [s]) == Leaks(l.since) + (if s.LeakBytes? then 1 else 0)
    ensures OneDeadline(l) && (s.DeleteRow? ==> s.before == l.before) ==> OneDeadline(l.(since := l.since + [s]))
  {
    var t := l.since + [s];
    assert t[..|t| - 1] == l.since;
  }

  // ----- who did what -----

  /** The steps of a run that are not the collector's own. */
  ghost function Outsiders(t: seq<Step>): (r: seq<Step>) {
    if t == [] then []
    else Outsiders(t[..|t| - 1]) + (if Outside(t[|t| - 1]) then [t[|t| - 1]] else [])
  }

  lemma OutsidersSnoc(t: seq<Step>, s: Step)
    ensures Outsiders(t + [s]) == Outsiders(t) + (if Outside(s) then [s] else [])
  {
    assert (t + [s])[..|t|] == t;
  }

  lemma {:induction false} OutsidersOn(t: seq<Step>, more: seq<Step>)
    requires forall j {:trigger more[j]} :: 0 <= j < |more| ==> Outside(more[j])
    ensures Outsiders(t + more) == Outsiders(t) + more
  {
    if more == [] {
      assert t + more == t;
    } else {
      var front, last := more[..|more| - 1], more[|more| - 1];
      assert more == front + [last] && t + more == (t + front) + [last];
      OutsidersOn(t, front);
      OutsidersSnoc(t + front, last);
    }
  }

  /** What other writers are still going to do, stretch after stretch. */
  ghost function Flat(others: seq<seq<Step>>): (r: seq<Step>) {
    if others == [] then [] else others[0] + Flat(others[1..])
  }

  function Next(others: seq<seq<Step>>): (r: seq<Step>) { if others == [] then [] else others[0] }

  function Rest(others: seq<seq<Step>>): (r: seq<seq<Step>>) { if others == [] then [] else others[1..] }

  /** A life that starts after the first few steps of what others had to do, and in which
      they have done the next few. */
  ghost predicate StartedAmid(w: World, queue: seq<Step>, l: Life, left: seq<Step>) {
    exists n {:trigger queue[..n]} ::
      0 <= n <= |queue| && l.origin == Play(w, queue[..n]) && queue[n..] == Outsiders(l.since) + left
  }

  lemma StartsAmid(w: World, drawn: seq<Step>, l: Life, left: seq<Step>)
    requires l.since == [] && l.origin == Play(w, drawn)
    ensures StartedAmid(w, drawn + left, l, left)
  {
    var queue := drawn + left;
    assert queue[..|drawn|] == drawn && queue[|drawn|..] == left;
  }

  /** It stays so while whatever others do is written down. */
  lemma StaysAmid(w: World, queue: seq<Step>, a: Life, left: seq<Step>, b: Life, rest: seq<Step>)
    requires StartedAmid(w, queue, a, left) && b.origin == a.origin
    requires Outsiders(a.since) + left == Outsiders(b.since) + rest
    ensures StartedAmid(w, queue, b, rest)
  {
  }

  /** How often bytes were left behind. */
  ghost function Leaks(t: seq<Step>): (n: nat) {
    if t == [] then 0 else Leaks(t[..|t| - 1]) + (if t[|t| - 1].LeakBytes? then 1 else 0)
  }

  // ----- listing -----

  method ListCandidates(w: World, before: Time, after: Digest, limit: int) returns (page: seq<Digest>)
    ensures page == Page(w, before, after, limit)
  {
    if limit <= 0 { return []; }
    var found: seq<Digest> := [];
    var todo := w.rows.Keys;
    while todo != {}
      invariant todo <= w.rows.Keys && Distinct(found)
      invariant forall d :: d in found <==> d in Pending(w, before, after) && d !in todo
      decreases |todo|
    {
      var d :| d in todo;
      todo := todo - {d};
      if LexLt(after, d) && Sweepable(w, before, d) {
        found := found + [d];
      }
    }
    SortStringsDistinct(found);
    assert Elems(found) == Pending(w, before, after);
    page := SortStrings(found);
    if |page| > limit { page := page[..limit]; }
  }
}
