/**
 `Collector.Run` of internal/gc/sweep.go: begin or resume, sweep in batches,
 save progress, finish; against a store other writers share and that may fail.
 */
module GcCollector {
  import opened Wrappers
  import opened Order
  import opened GcWorld
  import opened GcSweeps

  ghost function Above(universe: set<Digest>, cursor: Digest): (r: set<Digest>) {
    set d | d in universe && LexLt(cursor, d)
  }

  lemma CursorAdvances(universe: set<Digest>, cursor: Digest, next: Digest)
    requires LexLt(cursor, next) && next in universe
    ensures |Above(universe, next)| < |Above(universe, cursor)|
  {
    forall d | d in Above(universe, next) ensures d in Above(universe, cursor) { LexLtTransitive(cursor, next, d); }
    assert next in Above(universe, cursor) && next !in Above(universe, next);
    Shrinks(Above(universe, next), Above(universe, cursor), next);
  }

  lemma Shrinks(a: set<Digest>, b: set<Digest>, x: Digest)
    requires a <= b && x in b && x !in a
    ensures |a| < |b|
  {
    assert a <= b - {x};
    SubsetSize(a, b - {x});
  }

  lemma FirstCursor(d: Digest)
    requires d != ""
    ensures LexLt("", d)
  {
  }

  ghost function Last<T>(t: seq<T>): (s: T)
    requires t != []
  {
    t[|t| - 1]
  }

  lemma TakenIsUnsteady(l: Life, d: Digest)
    requires Now(l).doomed.None? && Sweepable(Now(l), l.before, d)
    ensures Apply(Now(l), DeleteRow(d, l.before)).doomed == Some(d)
    ensures d !in SteadyIn(l.(since := l.since + [DeleteRow(d, l.before)]))
  {
    var step := DeleteRow(d, l.before);
    var t := l.since + [step];
    assert t[..|t| - 1] == l.since;
    SteadyNow(l.origin, l.before, t);
    assert d !in Apply(Now(l), step).rows;
  }

  lemma SameLog(a: Life, b: Life)
    requires a.log == b.log
    ensures Errored(a) == Errored(b)
  {
  }

  lemma OutsideTakesNothing(w: World, s: Step)
    requires Outside(s)
    ensures Takes(w, s) == [] && Apply(w, s).doomed == w.doomed
  {
  }

  /** One more step of a life, and what it changes. */
  lemma LifeGoesOn(l: Life, s: Step, next: Life, universe: set<Digest>)
    requires Known(Now(l), universe) && OneDeadline(l) && next == l.(since := l.since + [s])
    requires (s.CommitBytes? ==> s.digest in universe) && (s.DeleteRow? ==> s.before == l.before)
    ensures Now(next) == Apply(Now(l), s) && Known(Now(next), universe) && OneDeadline(next) && Later(l, next)
    ensures TakenIn(next) == TakenIn(l) + Takes(Now(l), s)
    ensures Leaks(next.since) == Leaks(l.since) + (if s.LeakBytes? then 1 else 0)
    ensures Outsiders(next.since) == Outsiders(l.since) + (if Outside(s) then [s] else [])
  {
    LifeStep(l, s);
    KnownStep(Now(l), s, universe);
    OutsidersSnoc(l.since, s);
  }

  lemma NothingDoomed(w: World, s: Step)
    requires s.DeleteBytes? || s.LeakBytes?
    ensures Apply(w, s).doomed.None? && Takes(w, s) == []
  {
  }

  ghost function Missed(ask: Ask, ok: bool): (r: set<Digest>) { if ask.Reexamine? && !ok then {ask.digest} else {} }

  /** What was reclaimable all along and has had its turn met an error. */
  ghost predicate Worked(l: Life, ds: seq<Digest>) {
    forall d {:trigger d in SteadyIn(l)} :: d in SteadyIn(l) && d in ds ==> d in Errored(l)
  }

  lemma WorkedOn(a: Life, b: Life, page: seq<Digest>, k: nat)
    requires Later(a, b) && k < |page| && Worked(a, page[..k])
    requires page[k] in SteadyIn(b) ==> page[k] in Errored(b)
    ensures Worked(b, page[..k + 1])
  {
    LaterShrinks(a, b);
    ErroredGrows(a, b);
    assert page[..k + 1] == page[..k] + [page[k]];
  }

  /** The collector deleted and leaked nothing in between. */
  ghost predicate SameTally(a: Life, b: Life) { TakenIn(a) == TakenIn(b) && Leaks(a.since) == Leaks(b.since) }

  /** A stretch of one life in which others did what was theirs to do and the collector nothing. */
  ghost predicate Follows(a: Life, queue: seq<seq<Step>>, b: Life, rest: seq<seq<Step>>) {
    Later(a, b) && Outsiders(a.since) + Flat(queue) == Outsiders(b.since) + Flat(rest) && SameTally(a, b)
  }

  lemma FollowsOn(a: Life, queue: seq<seq<Step>>, b: Life, mid: seq<seq<Step>>, c: Life, rest: seq<seq<Step>>)
    requires Follows(a, queue, b, mid) && Follows(b, mid, c, rest)
    ensures Follows(a, queue, c, rest)
  {
  }

  lemma LedgerKept(since: seq<Step>, others: seq<seq<Step>>)
    requires forall j {:trigger Next(others)[j]} :: 0 <= j < |Next(others)| ==> Outside(Next(others)[j])
    ensures Outsiders(since + Next(others)) + Flat(Rest(others)) == Outsiders(since) + Flat(others)
  {
    OutsidersOn(since, Next(others));
    FlatNext(others);
    Associates(Outsiders(since), Next(others), Flat(Rest(others)));
  }

  lemma Associates(a: seq<Step>, b: seq<Step>, c: seq<Step>)
    ensures (a + b) + c == a + (b + c)
  {
  }

  lemma FlatNext(queue: seq<seq<Step>>)
    ensures Flat(queue) == Next(queue) + Flat(Rest(queue))
  {
  }

  lemma FlatTwo(queue: seq<seq<Step>>)
    ensures Flat(queue) == (Next(queue) + Next(Rest(queue))) + Flat(Rest(Rest(queue)))
  {
    FlatNext(queue);
    FlatNext(Rest(queue));
    Associates(Next(queue), Next(Rest(queue)), Flat(Rest(Rest(queue))));
  }

  lemma OpensAfter(was: Life, late: Life, drawn: seq<Step>, left: seq<Step>, l: Life)
    requires late.origin == was.origin && late.since == was.since + drawn
    requires l.since == [] && l.origin == Now(late)
    ensures StartedAmid(Now(was), drawn + left, l, left)
  {
    PlayOn(was.origin, was.since, drawn);
    StartsAmid(Now(was), drawn, l, left);
  }

  /** A life opened after what others did in two calls. */
  lemma OpensAmid(was: Life, late: Life, queue: seq<seq<Step>>, l: Life)
    requires late.origin == was.origin && late.since == (was.since + Next(queue)) + Next(Rest(queue))
    requires l.since == [] && l.origin == Now(late)
    ensures StartedAmid(Now(was), Flat(queue), l, Flat(Rest(Rest(queue))))
  {
    var drawn := Next(queue) + Next(Rest(queue));
    Associates(was.since, Next(queue), Next(Rest(queue)));
    FlatTwo(queue);
    OpensAfter(was, late, drawn, Flat(Rest(Rest(queue))), l);
  }

  /** A context: from some look on, if at all, it is found cancelled. */
  class Context {
    const from: Option<nat>
    var looks: nat

    constructor (from: Option<nat>)
      ensures this.from == from && looks == 0
    {
      this.from, looks := from, 0;
    }

    /** The last look, at the latest, found it cancelled. */
    ghost predicate Found()
      reads this
    {
      from.Some? && looks > from.value
    }

    method Done() returns (b: bool)
      modifies this
      ensures b == Found() && looks == old(looks) + 1
    {
      b := from.Some? && looks >= from.value;
      looks := looks + 1;
    }
  }

  class Registry {
    var world: World
    /** The unfinished run, if any. */
    var run: Option<GCRun>
    /** What other writers do before each of the calls to come. */
    var others: seq<seq<Step>>
    /** Which calls fail. */
    const fails: nat -> bool
    var calls: nat
    ghost const universe: set<Digest>
    ghost var life: Life

    constructor (world: World, others: seq<seq<Step>>, fails: nat -> bool, ghost universe: set<Digest>)
      requires Known(world, universe) && world.doomed == None
      requires forall i {:trigger others[i]} ::
            0 <= i < |others| ==>
              forall j {:trigger others[i][j]} :: 0 <= j < |others[i]| ==> Admissible(others[i][j], universe)
      ensures Valid() && world.doomed == None && this.world == world && run == None
    {
      this.world, run, this.others, this.fails, calls := world, None, others, fails, 0;
      this.universe := universe;
      life := Life(world, [], 0, 0, []);
    }

    ghost predicate Valid()
      reads this
    {
      && world == Now(life) && Known(world, universe) && OneDeadline(life) && Logged(life, fails, calls)
      && (forall i {:trigger others[i]} ::
            0 <= i < |others| ==>
              forall j {:trigger others[i][j]} :: 0 <= j < |others[i]| ==> Admissible(others[i][j], universe))
      && (run.Some? ==> run.value.sweepBefore == life.before && Covered(life, run.value.cursor))
    }

    /** What other writers have done in this life, and then what they have yet to do. */
    ghost function Ledger(): (t: seq<Step>)
      reads this
    {
      Outsiders(life.since) + Flat(others)
    }

    /** One more stretch of the same life, in which others did what was theirs to do. */
    twostate predicate Goes()
      reads this
    {
      Later(old(life), life) && Ledger() == old(Ledger()) && calls >= old(calls)
    }

    /** A stretch in which the collector itself changed nothing. */
    twostate predicate Moved()
      reads this
    {
      && Later(old(life), life) && world.doomed == old(world.doomed) && run == old(run)
      && SameTally(old(life), life)
    }

    method Others(steps: seq<Step>)
      requires Valid() && forall j {:trigger steps[j]} :: 0 <= j < |steps| ==> Admissible(steps[j], universe)
      modifies this`world, this`life
      ensures Valid() && Moved() && life.log == old(life.log) && life.since == old(life.since) + steps
    {
      if steps != [] {
        var rest := steps[1..];
        forall j | 0 <= j < |rest| ensures Admissible(rest[j], universe) { assert rest[j] == steps[j + 1]; }
        assert old(life.since) + steps == (old(life.since) + [steps[0]]) + rest;
        Other(steps[0]);
        Others(rest);
      } else {
        assert old(life.since) + steps == old(life.since);
      }
    }

    method Other(step: Step)
      requires Valid() && Admissible(step, universe)
      modifies this`world, this`life
      ensures Valid() && Moved() && life.log == old(life.log) && life.since == old(life.since) + [step]
    {
      OutsideTakesNothing(world, step);
      Perform(step);
    }

    /** One operation on the world, written down in the life of the sweep. */
    method Perform(step: Step)
      requires
        && Valid()
        && (step.CommitBytes? ==> step.digest in universe)
        && (step.DeleteRow? ==> step.before == life.before)
      modifies this`world, this`life
      ensures Valid() && world == Apply(old(world), step)
      ensures life == old(life).(since := old(life).since + [step]) && Later(old(life), life)
      ensures TakenIn(life) == TakenIn(old(life)) + Takes(old(world), step)
      ensures Leaks(life.since) == Leaks(old(life.since)) + (if step.LeakBytes? then 1 else 0)
      ensures Outsiders(life.since) == Outsiders(old(life.since)) + (if Outside(step) then [step] else [])
    {
      ghost var next := life.(since := life.since + [step]);
      LifeGoesOn(life, step, next, universe);
      if run.Some? { LaterCovers(life, next, run.value.cursor); }
      world := Apply(world, step);
      life := next;
    }

    /** Others get in. */
    method Yield()
      requires Valid()
      modifies this`world, this`life, this`others
      ensures Valid() && Moved() && Goes() && life.log == old(life.log) && Errored(life) == Errored(old(life))
      ensures life.since == old(life.since) + Next(old(others)) && others == Rest(old(others))
    {
      var mine := Next(others);
      LedgerKept(life.since, others);
      others := Rest(others);
      Others(mine);
      SameLog(old(life), life);
    }

    /** A call to a store: others get in first, and the call may fail. */
    method Enter(ask: Ask) returns (ok: bool)
      requires Valid()
      modifies this`world, this`life, this`others, this`calls
      ensures Valid() && Moved() && Goes() && calls == old(calls) + 1
      ensures life.since == old(life.since) + Next(old(others)) && others == Rest(old(others))
      ensures ok == !fails(old(calls)) && life.log == old(life.log) + [Call(ask, ok)]
      ensures Errored(life) == Errored(old(life)) + Missed(ask, ok)
    {
      Yield();
      ok := !fails(calls);
      Note(ask, ok);
    }

    /** The outcome of a call, written down in the life of the sweep. */
    method Note(ask: Ask, ok: bool)
      requires Valid() && ok == !fails(calls)
      modifies this`life, this`calls
      ensures Valid() && life == old(life).(log := old(life).log + [Call(ask, ok)]) && calls == old(calls) + 1
      ensures Errored(life) == Errored(old(life)) + Missed(ask, ok)
    {
      CallLogged(life, Call(ask, ok));
      ghost var next := life.(log := life.log + [Call(ask, ok)]);
      if run.Some? { LaterCovers(life, next, run.value.cursor); }
      life, calls := next, calls + 1;
    }

    /** Some call since the n-th failed. */
    ghost predicate FailedSince(n: nat)
      reads this`calls
    {
      exists k {:trigger fails(k)} :: n <= k < calls && fails(k)
    }

    method Save(cursor: Digest, r: SweepResult)
      requires Valid() && run.Some? && Covered(life, cursor)
      modifies this`world, this`life, this`others, this`calls, this`run
      ensures calls > old(calls)
      ensures Valid() && Goes() && world.doomed == old(world.doomed) && SameTally(old(life), life)
      ensures
        || run == old(run)
        || run == Some(old(run.value).(cursor := cursor, scanned := r.scanned, deleted := r.deleted, freed := r.bytes))
    {
      var ok := Enter(SaveRun);
      LaterCovers(old(life), life, cursor);
      if ok {
        run := Some(run.value.(cursor := cursor, scanned := r.scanned, deleted := r.deleted, freed := r.bytes));
      }
    }

    method Finish()
      requires Valid()
      modifies this`world, this`life, this`others, this`calls, this`run
      ensures calls > old(calls)
      ensures Valid() && Goes() && world.doomed == old(world.doomed) && SameTally(old(life), life)
      ensures run == old(run) || run == None
    {
      var ok := Enter(FinishRun);
      if ok { run := None; }
    }

    /** The row and then its bytes; a store that cannot answer leaves the blob alone. */
    method Collect(d: Digest, size: int, r: SweepResult) returns (n: SweepResult)
      requires Valid() && run.Some? && world.doomed.None?
      modifies this`world, this`life, this`others, this`calls
      ensures calls > old(calls)
      ensures Valid() && world.doomed.None? && Goes()
      ensures d in SteadyIn(life) ==> d in Errored(life)
      ensures Errored(life) == Errored(old(life)) + (if fails(old(calls)) then {d} else {})
      ensures n.scanned == r.scanned + 1
      ensures n == if TakenIn(life) == TakenIn(old(life)) then r.(scanned := n.scanned, skipped := r.skipped + 1)
                   else r.(scanned := n.scanned, deleted := r.deleted + 1, bytes := r.bytes + size, leaked := n.leaked)
      ensures TakenIn(life) == TakenIn(old(life)) || TakenIn(life) == TakenIn(old(life)) + [d]
      ensures
        && n.leaked - r.leaked == Leaks(life.since) - Leaks(old(life.since))
        && (n.leaked > r.leaked ==> FailedSince(old(calls)))
      ensures TakenIn(life) != TakenIn(old(life)) ==>
                life.since != [] && Last(life.since) == if n.leaked == r.leaked then DeleteBytes else LeakBytes
    {
      var deleted, freed := Dispose(d);
      n := if !deleted then r.(scanned := r.scanned + 1, skipped := r.skipped + 1)
           else r.(scanned := r.scanned + 1, deleted := r.deleted + 1, bytes := r.bytes + size, leaked := r.leaked +
               (if freed then 0 else 1));
    }

    /** Re-checks the row and takes it if it still may, and then its bytes. */
    method Dispose(d: Digest) returns (deleted: bool, freed: bool)
      requires Valid() && run.Some? && world.doomed.None?
      modifies this`world, this`life, this`others, this`calls
      ensures calls > old(calls)
      ensures Valid() && world.doomed.None? && Goes()
      ensures d in SteadyIn(life) ==> d in Errored(life)
      ensures Errored(life) == Errored(old(life)) + (if fails(old(calls)) then {d} else {})
      ensures TakenIn(life) == TakenIn(old(life)) + (if deleted then [d] else [])
      ensures Leaks(life.since) == Leaks(old(life.since)) + (if deleted && !freed then 1 else 0)
      ensures deleted ==> life.since != [] && Last(life.since) == if freed then DeleteBytes else LeakBytes
      ensures deleted && !freed ==> FailedSince(old(calls))
    {
      var ok;
      freed := false;
      deleted, ok := Recheck(d);
      if deleted { freed := Reclaim(); }
    }

    method Recheck(d: Digest) returns (deleted: bool, ok: bool)
      requires Valid() && run.Some? && world.doomed.None?
      modifies this`world, this`life, this`others, this`calls
      ensures calls > old(calls)
      ensures Valid() && Goes()
      ensures d in SteadyIn(life) ==> d in Errored(life)
      ensures Errored(life) == Errored(old(life)) + Missed(Reexamine(d), ok)
      ensures ok == !fails(old(calls)) && life.log == old(life.log) + [Call(Reexamine(d), ok)]
      ensures !ok ==> !deleted
      ensures Leaks(life.since) == Leaks(old(life.since))
      ensures deleted ==> world.doomed == Some(d) && TakenIn(life) == TakenIn(old(life)) + [d]
      ensures !deleted ==> world.doomed.None? && TakenIn(life) == TakenIn(old(life))
    {
      deleted := false;
      ok := Enter(Reexamine(d));
      if !ok {
        return;
      }
      SteadyNow(life.origin, life.before, life.since);
      deleted := Sweepable(world, run.value.sweepBefore, d);
      if deleted {
        Take(d);
      }
    }

    /** The atomic delete of a row that is still reclaimable. */
    method Take(d: Digest)
      requires Valid() && run.Some? && world.doomed.None? && Sweepable(world, run.value.sweepBefore, d)
      modifies this`world, this`life
      ensures Valid() && Goes() && life.log == old(life.log)
      ensures Errored(life) == Errored(old(life)) && Leaks(life.since) == Leaks(old(life.since))
      ensures d !in SteadyIn(life) && world.doomed == Some(d) && TakenIn(life) == TakenIn(old(life)) + [d]
    {
      TakenIsUnsteady(life, d);
      Perform(DeleteRow(d, run.value.sweepBefore));
      SameLog(old(life), life);
    }

    /** Deletes the bytes of the row just taken, or leaks them. */
    method Reclaim() returns (freed: bool)
      requires Valid() && run.Some?
      modifies this`world, this`life, this`others, this`calls
      ensures calls > old(calls)
      ensures
        && Valid()
        && Goes()
        && Errored(life) == Errored(old(life))
        && world.doomed.None?
        && TakenIn(life) == TakenIn(old(life))
      ensures SteadyIn(life) <= SteadyIn(old(life))
      ensures freed == !fails(old(calls)) && Leaks(life.since) == Leaks(old(life.since)) + (if freed then 0 else 1)
      ensures life.since != [] && Last(life.since) == if freed then DeleteBytes else LeakBytes
    {
      freed := Enter(DropBytes);
      Drop(if freed then DeleteBytes else LeakBytes);
      LaterShrinks(old(life), life);
    }

    method Drop(step: Step)
      requires Valid() && (step.DeleteBytes? || step.LeakBytes?)
      modifies this`world, this`life
      ensures
        && Valid()
        && Goes()
        && Errored(life) == Errored(old(life))
        && world.doomed.None?
        && TakenIn(life) == TakenIn(old(life))
      ensures
        && life.since == old(life.since) + [step]
        && Leaks(life.since) == Leaks(old(life.since)) + (if step.LeakBytes? then 1 else 0)
    {
      NothingDoomed(world, step);
      Perform(step);
      SameLog(old(life), life);
    }

    /** Where a sweep stands: everything scanned was removed or skipped, and what was
        removed is what it says it removed. */
    ghost predicate Tallies(base: SweepResult, r: SweepResult, was: Life, now: Life)
    {
      && r.scanned - base.scanned == (r.deleted - base.deleted) + (r.skipped - base.skipped)
      && r.deleted - base.deleted == |TakenIn(now)| - |TakenIn(was)|
      && r.leaked - base.leaked == Leaks(now.since) - Leaks(was.since)
      && r.runId == base.runId && r.resumed == base.resumed && !r.complete
    }

    /** What a whole call adds to the counters it found in the run. */
    ghost predicate Counts(run: GCRun, r: SweepResult, was: Life, now: Life)
    {
      Tallies(Opening(run, r.resumed), r.(complete := false), was, now)
    }

    function Opening(run: GCRun, resumed: bool): (r: SweepResult) {
      SweepResult(run.id, resumed, run.scanned, run.deleted, run.freed, 0, 0, false)
    }

    lemma CountsFrom(run: GCRun, r: SweepResult, a: Life, b: Life, now: Life)
      requires Counts(run, r, a, now) && SameTally(a, b)
      ensures Counts(run, r, b, now)
    {
    }

    /** One page, candidate by candidate, until it ends or the context does. */
    method Batch(page: seq<Digest>, sizes: map<Digest, Blob>, cursor: Digest, limit: int, r0: SweepResult,
                 ghost listed: Life, context: Context)
      returns (r: SweepResult, last: Digest, stopped: bool)
      requires Valid() && run.Some? && world.doomed.None? && Covered(life, cursor)
      requires listed == life && page == Page(world, life.before, cursor, limit) && sizes == world.rows && !r0.complete
      modifies this`world, this`life, this`others, this`calls, context
      ensures Valid() && world.doomed.None? && Goes()
      ensures Covered(life, last)
      ensures r.leaked > r0.leaked ==> FailedSince(old(calls))
      ensures Tallies(r0, r, old(life), life)
      ensures last == cursor || (last in universe && LexLt(cursor, last))
      ensures !stopped && page != [] ==> last != cursor
      ensures (stopped ==> context.Found())
    {
      r, last, stopped := r0, cursor, false;
      for k := 0 to |page|
        invariant Valid() && world.doomed.None? && Goes() && run == old(run)
        invariant if k == 0 then last == cursor else last == page[k - 1] && last in universe && LexLt(cursor, last)
        invariant Covered(life, cursor) && Covered(life, last) && Worked(life, page[..k])
        invariant r.leaked > r0.leaked ==> FailedSince(old(calls))
        invariant Tallies(r0, r, old(life), life)
      {
        stopped := context.Done();
        if stopped { return; }
        r := Visit(page, sizes, cursor, limit, k, r, listed);
        last := page[k];
      }
    }

    /** The next candidate of a page listed earlier. */
    method Visit(page: seq<Digest>, sizes: map<Digest, Blob>, cursor: Digest, limit: int, k: nat, r: SweepResult,
                 ghost listed: Life)
      returns (n: SweepResult)
      requires Valid() && run.Some? && world.doomed.None? && Later(listed, life) && Covered(life, cursor) && !r.complete
      requires
        && Known(Now(listed), universe)
        && page == Page(Now(listed), life.before, cursor, limit)
        && k < |page|
        && sizes == Now(listed).rows
      requires Worked(life, page[..k])
      modifies this`world, this`life, this`others, this`calls
      ensures calls > old(calls)
      ensures Valid() && world.doomed.None? && Goes() && Covered(life, cursor)
      ensures Worked(life, page[..k + 1]) && Covered(life, page[k]) && page[k] in universe && LexLt(cursor, page[k])
      ensures n.leaked > r.leaked ==> FailedSince(old(calls))
      ensures Tallies(r, n, old(life), life)
    {
      PageStep(Now(listed), life.before, cursor, limit, k);
      n := Collect(page[k], sizes[page[k]].size, r);
      LaterCovers(old(life), life, cursor);
      WorkedOn(old(life), life, page, k);
      PageCovers(listed, life, cursor, limit, k);
    }

    /** The run that was open is still open, with its deadline, its cursor no earlier. */
    ghost predicate Continues(was: Option<GCRun>)
      reads this`run
    {
      && was.Some?
      && run.Some?
      && run.value.sweepBefore == was.value.sweepBefore
      && LexLe(was.value.cursor, run.value.cursor)
    }

    /** The sweep proper: pages after the cursor until one is empty. The cursor moves
        up through a finite set, so it ends. */
    method Sweep(cursor0: Digest, r0: SweepResult, limit: int, context: Context)
      returns (r: SweepResult, cursor: Digest, err: Option<SweepError>)
      requires Valid() && run.Some? && world.doomed.None? && Covered(life, cursor0) && limit > 0 && !r0.complete
      requires LexLe(run.value.cursor, cursor0)
      modifies this`world, this`life, this`others, this`calls, this`run, context
      ensures Valid() && world.doomed.None? && Goes()
      ensures Continues(old(run)) && Covered(life, cursor) && LexLe(run.value.cursor, cursor)
      ensures r.leaked > r0.leaked ==> FailedSince(old(calls))
      ensures Tallies(r0, r, old(life), life)
      ensures err.None? ==> SteadyIn(life) <= Errored(life)
      ensures err == Some(StoreFailed) ==> FailedSince(old(calls))
      ensures err == Some(Cancelled) ==> context.Found()
    {
      r, cursor, err := r0, cursor0, None;
      var more := true;
      while more
        invariant Valid() && world.doomed.None? && Goes()
        invariant Continues(old(run)) && Covered(life, cursor) && LexLe(run.value.cursor, cursor)
        invariant r.leaked > r0.leaked ==> FailedSince(old(calls))
        invariant Tallies(r0, r, old(life), life)
        invariant more ==> err.None?
        invariant (err == Some(StoreFailed) ==> FailedSince(old(calls))) && (err == Some(Cancelled) ==> context.Found())
        invariant !more && err.None? ==> SteadyIn(life) <= Errored(life)
        decreases more, |Above(universe, cursor)|
      {
        more := false;
        var stopped := context.Done();
        if stopped {
          err := Some(Cancelled);
        } else {
          ghost var saved := run.value.cursor;
          r, cursor, err, more := Turn(r, cursor, limit, context);
          LexTransitive(old(run).value.cursor, saved, run.value.cursor);
        }
      }
    }

    /** One turn of the loop, from the listing on. */
    method Turn(r0: SweepResult, cursor0: Digest, limit: int, context: Context)
      returns (r: SweepResult, cursor: Digest, err: Option<SweepError>, more: bool)
      requires Valid() && run.Some? && world.doomed.None? && Covered(life, cursor0) && limit > 0 && !r0.complete
      requires LexLe(run.value.cursor, cursor0)
      modifies this`world, this`life, this`others, this`calls, this`run, context
      ensures Valid() && world.doomed.None? && Goes()
      ensures Continues(old(run)) && Covered(life, cursor) && LexLe(run.value.cursor, cursor)
      ensures r.leaked > r0.leaked ==> FailedSince(old(calls))
      ensures Tallies(r0, r, old(life), life)
      ensures more ==> err.None? && |Above(universe, cursor)| < |Above(universe, cursor0)|
      ensures !more && err.None? ==> SteadyIn(life) <= Errored(life)
      ensures err == Some(StoreFailed) ==> FailedSince(old(calls))
      ensures err == Some(Cancelled) ==> context.Found()
    {
      r, cursor, more := r0, cursor0, false;
      var ok := Enter(List);
      LaterCovers(old(life), life, cursor0);
      if !ok {
        var stopped := context.Done();
        err := if stopped then Some(Cancelled) else Some(StoreFailed);
        return;
      }
      var page := ListCandidates(world, run.value.sweepBefore, cursor0, limit);
      if page == [] {
        EmptyPageCovers(life, cursor0, limit);
        return r0, cursor0, None, false;
      }
      r, cursor, err, more := WorkPage(page, r0, cursor0, limit, context);
    }

    /** A page worked through and, if it was, recorded. */
    method WorkPage(page: seq<Digest>, r0: SweepResult, cursor0: Digest, limit: int, context: Context)
      returns (r: SweepResult, cursor: Digest, err: Option<SweepError>, more: bool)
      requires Valid() && run.Some? && world.doomed.None? && Covered(life, cursor0) && !r0.complete
      requires page == Page(world, life.before, cursor0, limit) && page != [] && LexLe(run.value.cursor, cursor0)
      modifies this`world, this`life, this`others, this`calls, this`run, context
      ensures Valid() && world.doomed.None? && Goes()
      ensures Continues(old(run)) && Covered(life, cursor) && LexLe(run.value.cursor, cursor)
      ensures r.leaked > r0.leaked ==> FailedSince(old(calls))
      ensures Tallies(r0, r, old(life), life)
      ensures more ==> |Above(universe, cursor)| < |Above(universe, cursor0)|
      ensures more <==> err.None?
      ensures (err.Some? ==> err == Some(Cancelled) && context.Found())
    {
      var stopped;
      r, cursor, stopped := Batch(page, world.rows, cursor0, limit, r0, life, context);
      LexTransitive(run.value.cursor, cursor0, cursor);
      err, more := Some(Cancelled), false;
      if !stopped {
        CursorAdvances(universe, cursor0, cursor);
        ghost var worked := life;
        Save(cursor, r);
        LaterCovers(worked, life, cursor);
        err, more := None, true;
      }
    }

    /** A call that only asks. */
    method Look(ask: Ask) returns (ok: bool)
      requires Valid() && !ask.Reexamine?
      modifies this`world, this`life, this`others, this`calls
      ensures Valid() && run == old(run) && world.doomed == old(world.doomed)
      ensures calls == old(calls) + 1 && ok == !fails(old(calls))
      ensures Follows(old(life), old(others), life, others)
      ensures life.since == old(life.since) + Next(old(others)) && others == Rest(old(others))
    {
      ok := Enter(ask);
    }

    /** The run can be found or, there being none, started. */
    ghost predicate Begins()
      reads this
    {
      !fails(calls) && (run.Some? || !fails(calls + 1))
    }

    /** Resumes the unfinished run with its own deadline, or starts one. */
    method Begin(now: Time, id: string, grace: int, context: Context) returns (resumed: bool, err: Option<SweepError>)
      requires Valid() && world.doomed.None?
      modifies this`world, this`life, this`others, this`calls, this`run, context
      ensures Valid() && world.doomed.None?
      ensures old(run).Some? ==> run == old(run)
      ensures old(run).Some? || err.Some? ==> Follows(old(life), old(others), life, others)
      ensures err.None? <==> old(Begins())
      ensures err.None? ==> run.Some? && resumed == old(run).Some?
      ensures
        && calls > old(calls)
        && (err == Some(StoreFailed) ==> FailedSince(old(calls)))
        && (err == Some(Cancelled) ==> context.Found())
      ensures err.None? && !resumed ==> run == Some(GCRun(id, now, now - grace, "", 0, 0, 0))
      ensures err.Some? ==> run == old(run)
      ensures old(run).None? && err.None? ==> life.from >= old(calls) && life.before == now - grace && life.since == []
      ensures old(run).None? && err.None? ==> StartedAmid(old(world), Flat(old(others)), life, Flat(others))
    {
      resumed, err := false, None;
      var ok := Look(FindRun);
      if !ok {
        err := Failure(context);
      } else if run.Some? {
        resumed := true;
      } else {
        err := Start(now, id, grace, context, old(life), old(others));
      }
    }

    method Start(now: Time, id: string, grace: int, context: Context, ghost was: Life, ghost queue: seq<seq<Step>>)
      returns (err: Option<SweepError>)
      requires Valid() && world.doomed.None? && run.None?
      requires Follows(was, queue, life, others) && life.since == was.since + Next(queue) && others == Rest(queue)
      modifies this`world, this`life, this`others, this`calls, this`run, context
      ensures Valid() && world.doomed.None? && calls > old(calls)
      ensures err.Some? ==> run.None? && Follows(was, queue, life, others)
      ensures err.None? ==> run == Some(GCRun(id, now, now - grace, "", 0, 0, 0))
      ensures err.None? ==> life == Life(world, [], now - grace, calls, [])
      ensures err.None? <==> !fails(old(calls))
      ensures err == Some(Cancelled) ==> context.Found()
      ensures err.None? ==> StartedAmid(Now(was), Flat(queue), life, Flat(others))
    {
      err := None;
      var ok := Look(StartRun);
      if ok {
        Open(now, id, grace, was, queue);
      } else {
        FollowsOn(was, queue, old(life), old(others), life, others);
        err := Failure(context);
      }
    }

    /** A new run and, with it, a new life. */
    method Open(now: Time, id: string, grace: int, ghost was: Life, ghost queue: seq<seq<Step>>)
      requires Valid() && life.origin == was.origin && others == Rest(Rest(queue))
      requires life.since == (was.since + Next(queue)) + Next(Rest(queue))
      modifies this`life, this`run
      ensures Valid() && run == Some(GCRun(id, now, now - grace, "", 0, 0, 0))
      ensures life == Life(world, [], now - grace, calls, [])
      ensures StartedAmid(Now(was), Flat(queue), life, Flat(others))
    {
      forall d | d in world.rows ensures LexLt("", d) { FirstCursor(d); }
      ghost var next := Life(world, [], now - grace, calls, []);
      OpensAmid(was, life, queue, next);
      life := next;
      run := Some(GCRun(id, now, now - grace, "", 0, 0, 0));
    }

    /** A failed call during a shutdown is the shutdown. */
    method Failure(context: Context) returns (err: Option<SweepError>)
      modifies context
      ensures err.Some? && (err == Some(Cancelled) ==> context.Found())
    {
      var stopped := context.Done();
      err := if stopped then Some(Cancelled) else Some(StoreFailed);
    }

    /** A sweep, resuming the unfinished one when there is one. Whatever the resumes,
        failures and other writers: everything scanned was deleted or skipped; a
        resumed run keeps its deadline and never moves its cursor back; a cancelled one
        stays open; a sweep fails only where a call did; and a completed one leaves no
        row that was reclaimable under that deadline ever since the run began, except
        where a re-check met a store error, so none at all when no call has failed.
        In between happened what others had to do and the collector's own deletes,
        and nothing else. */
    method Run(now: Time, id: string, grace: int, limit: int, context: Context)
      returns (r: SweepResult, err: Option<SweepError>)
      requires Valid() && world.doomed.None? && limit > 0
      modifies this, context
      ensures Valid() && world.doomed.None?
      ensures !old(Begins()) ==> err.Some? && run == old(run) && SameTally(old(life), life)
      ensures old(Begins()) ==> r.resumed == old(run).Some?
      ensures old(run).Some? || !old(Begins()) ==> Goes()
      ensures old(run).None? && old(Begins()) ==> StartedAmid(old(world), Flat(old(others)), life, Flat(others))
      ensures old(Begins()) && old(run).None? ==> life.before == now - grace && life.from >= old(calls)
      ensures old(Begins()) && old(run).Some? ==> Counts(old(run).value, r, old(life), life)
      ensures old(Begins()) && old(run).None? ==>
                Counts(GCRun(id, now, now - grace, "", 0, 0, 0), r, life.(since := []), life)
      ensures r.leaked > 0 ==> FailedSince(old(calls))
      ensures r.complete <==> err.None?
      ensures err == Some(StoreFailed) ==> FailedSince(old(calls))
      ensures err == Some(Cancelled) ==> context.Found()
      ensures r.complete ==> SteadyIn(life) <= Errored(life)
      ensures r.complete && (forall k {:trigger fails(k)} :: life.from <= k < calls ==> !fails(k)) ==>
            SteadyIn(life) == {}
      ensures old(Begins()) && err == Some(Cancelled) ==> run.Some?
      ensures old(run).Some? && run.Some? ==> Continues(old(run))
    {
      r := SweepResult("", false, 0, 0, 0, 0, 0, false);
      var resumed;
      resumed, err := Begin(now, id, grace, context);
      if err.Some? { return; }
      ghost var begun, started, left := run.value, life, Flat(others);
      r, err := Proceed(resumed, limit, context);
      CountsFrom(begun, r, started, if old(run).Some? then old(life) else life.(since := []), life);
      if old(run).None? { StaysAmid(old(world), Flat(old(others)), started, left, life, Flat(others)); }
    }

    /** The run found or started, swept from its cursor on. */
    method Proceed(resumed: bool, limit: int, context: Context) returns (r: SweepResult, err: Option<SweepError>)
      requires Valid() && world.doomed.None? && limit > 0 && run.Some?
      modifies this`world, this`life, this`others, this`calls, this`run, context
      ensures calls > old(calls)
      ensures Valid() && world.doomed.None? && Goes()
      ensures r.resumed == resumed && (r.complete <==> err.None?)
      ensures Counts(old(run).value, r, old(life), life)
      ensures r.leaked > 0 ==> FailedSince(old(calls))
      ensures err == Some(StoreFailed) ==> FailedSince(old(calls))
      ensures err == Some(Cancelled) ==> context.Found() && run.Some?
      ensures r.complete ==> SteadyIn(life) <= Errored(life)
      ensures r.complete && (forall k {:trigger fails(k)} :: life.from <= k < calls ==> !fails(k)) ==>
            SteadyIn(life) == {}
      ensures run.Some? ==> Continues(old(run))
    {
      r := Opening(run.value, resumed);
      var cursor;
      r, cursor, err := Sweep(run.value.cursor, r, limit, context);
      ghost var swept := run.value.cursor;
      r := Settle(cursor, r, err);
      if run.Some? { LexTransitive(old(run).value.cursor, swept, run.value.cursor); }
      if forall k {:trigger fails(k)} :: life.from <= k < calls ==> !fails(k) {
        NoFailuresNoErrors(life, fails, calls);
      }
    }

    /** Records where the sweep got to and closes its run unless it was cancelled. */
    method Settle(cursor: Digest, r0: SweepResult, err: Option<SweepError>) returns (r: SweepResult)
      requires Valid() && run.Some? && world.doomed.None? && Covered(life, cursor) && LexLe(run.value.cursor, cursor)
      requires err.None? ==> SteadyIn(life) <= Errored(life)
      modifies this`world, this`life, this`others, this`calls, this`run
      ensures calls > old(calls)
      ensures Valid() && world.doomed.None? && Goes() && SameTally(old(life), life)
      ensures r == r0.(complete := err.None?)
      ensures err.None? ==> SteadyIn(life) <= Errored(life)
      ensures err == Some(Cancelled) ==> run.Some?
      ensures run.Some? ==> Continues(old(run))
    {
      r := r0.(complete := err.None?);
      Save(cursor, r);
      if err != Some(Cancelled) {
        Finish();
      }
      LaterShrinks(old(life), life);
    }
  }
}
