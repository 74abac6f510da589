/**
 What the limiter guarantees over whole runs: the sliding-window bound, exact
 waits, and that bounding the map changes no answer while debtors fit in it.
 */
module LimiterLaws {
  import opened RateLimits

  /** How far ahead of now the key's restored-at instant runs. */
  ghost function Debt(m: Buckets, key: string, now: Time): (d: nat) {
    if key in m && m[key] > now then m[key] - now else 0
  }

  ghost function Paid(d: nat, elapsed: nat): (r: nat) { if d < elapsed then 0 else d - elapsed }

  // ----- one key by itself: the virtual-scheduling reference -----

  ghost function KeyAnswer(cfg: LimiterConfig, d: nat, op: Op): (a: Answer) {
    if op.Refund? || d <= Tolerance(cfg) then Answer(true, 0) else Answer(false, d - Tolerance(cfg))
  }

  ghost function KeyDebt(cfg: LimiterConfig, d: nat, op: Op): (r: int) {
    match op
    case Allow => if d <= Tolerance(cfg) then d + cfg.refill else d
    case Refund => if d > cfg.refill then d - cfg.refill else 0
    case Peek => d
  }

  /** Debt only shrinks with time, one for one, and stops at nothing. */
  lemma DebtPaysDown(m: Buckets, key: string, now: Time, later: Time)
    requires now <= later
    ensures Debt(m, key, later) == Paid(Debt(m, key, now), later - now)
  {
  }

  /** The step drops `key` while it is in debt. */
  ghost predicate Forgives(m: Buckets, e: Event, r: Buckets, key: string) {
    key != e.key && key in m && m[key] > e.now && key !in r
  }

  lemma ToleranceNonNegative(cfg: LimiterConfig)
    requires Working(cfg)
    ensures Tolerance(cfg) >= 0
  {
    assert (cfg.burst - 1) * cfg.refill >= 0;
  }

  /** The operation's own key follows the reference. */
  lemma OwnStep(cfg: LimiterConfig, m: Buckets, e: Event, r: Buckets)
    requires Working(cfg) && Next(cfg, m, e, r)
    ensures Debt(r, e.key, e.now) == KeyDebt(cfg, Debt(m, e.key, e.now), e.op)
    ensures e.answer == KeyAnswer(cfg, Debt(m, e.key, e.now), e.op)
  {
    ToleranceNonNegative(cfg);
  }

  /** Evicting never changes what a surviving key owes. */
  lemma EvictsSubmap(maxKeys: int, m: Buckets, now: Time, r: Buckets)
    requires Evicts(maxKeys, m, now, r)
    ensures Submap(r, m)
  {
  }

  /** Every other key keeps its debt unless it is evicted owing something. */
  lemma OtherStep(cfg: LimiterConfig, m: Buckets, e: Event, r: Buckets, key: string)
    requires Next(cfg, m, e, r) && key != e.key && !Forgives(m, e, r, key)
    ensures Debt(r, key, e.now) == Debt(m, key, e.now)
  {
    var rest := r - {e.key};
    assert key in rest <==> key in r;
    assert key in rest ==> rest[key] == r[key];
    if !e.op.Refund? && e.key !in m {
      EvictsSubmap(cfg.maxKeys, m, e.now, rest);
    } else if e.key in m {
      assert key in m - {e.key} <==> key in m;
      assert key in m ==> (m - {e.key})[key] == m[key];
    }
  }

  /** Losing a bucket never adds debt. */
  lemma OtherNeverGains(cfg: LimiterConfig, m: Buckets, e: Event, r: Buckets, key: string)
    requires Next(cfg, m, e, r) && key != e.key
    ensures Debt(r, key, e.now) <= Debt(m, key, e.now)
  {
    if !Forgives(m, e, r, key) { OtherStep(cfg, m, e, r, key); }
  }

  // ----- runs -----

  /** The i-th event takes the i-th state to the next, no earlier than the event before. */
  ghost predicate Moves(cfg: LimiterConfig, states: seq<Buckets>, events: seq<Event>, i: int)
    requires 0 <= i < |events| < |states|
  {
    Next(cfg, states[i], events[i], states[i + 1]) && (i > 0 ==> events[i - 1].now <= events[i].now)
  }

  ghost predicate Run(cfg: LimiterConfig, states: seq<Buckets>, events: seq<Event>) {
    && Working(cfg)
    && |states| == |events| + 1
    && states[0] == map[]
    && forall i {:trigger Moves(cfg, states, events, i)} :: 0 <= i < |events| ==> Moves(cfg, states, events, i)
  }

  /** The i-th step does not drop `key` in debt. */
  ghost predicate Remembers(states: seq<Buckets>, events: seq<Event>, key: string, i: int)
    requires 0 <= i < |events| < |states|
  {
    !Forgives(states[i], events[i], states[i + 1], key)
  }

  /** What `key` owes once the first `n` events have happened, at the time of the last. */
  ghost function DebtAfter(states: seq<Buckets>, events: seq<Event>, key: string, n: nat): (d: nat)
    requires n <= |events| < |states|
  {
    if n == 0 then 0 else Debt(states[n], key, events[n - 1].now)
  }

  ghost function Elapsed(events: seq<Event>, i: nat): (t: int)
    requires i < |events|
  {
    if i == 0 then 0 else events[i].now - events[i - 1].now
  }

  /** What `key` owes when the event finds it. */
  lemma DebtFound(cfg: LimiterConfig, states: seq<Buckets>, events: seq<Event>, key: string, i: nat)
    requires Run(cfg, states, events) && i < |events|
    ensures Elapsed(events, i) >= 0
    ensures Debt(states[i], key, events[i].now) == Paid(DebtAfter(states, events, key, i), Elapsed(events, i))
  {
    assert Moves(cfg, states, events, i);
    if i > 0 { DebtPaysDown(states[i], key, events[i - 1].now, events[i].now); }
  }

  lemma DebtStep(cfg: LimiterConfig, states: seq<Buckets>, events: seq<Event>, key: string, i: nat)
    requires Run(cfg, states, events) && i < |events| && Remembers(states, events, key, i)
    ensures Elapsed(events, i) >= 0
    ensures var found := Paid(DebtAfter(states, events, key, i), Elapsed(events, i));
            && DebtAfter(states, events, key, i + 1) ==
                 (if events[i].key == key then KeyDebt(cfg, found, events[i].op) else found)
            && (events[i].key == key ==> events[i].answer == KeyAnswer(cfg, found, events[i].op))
  {
    assert Moves(cfg, states, events, i);
    DebtFound(cfg, states, events, key, i);
    if events[i].key == key {
      OwnStep(cfg, states[i], events[i], states[i + 1]);
    } else {
      OtherStep(cfg, states[i], events[i], states[i + 1], key);
    }
  }

  /** The bound on memory. */
  lemma {:induction false} KeysBounded(cfg: LimiterConfig, states: seq<Buckets>, events: seq<Event>, n: nat)
    requires Run(cfg, states, events) && n <= |events|
    ensures |states[n]| <= cfg.maxKeys
  {
    if n > 0 {
      KeysBounded(cfg, states, events, n - 1);
      assert Moves(cfg, states, events, n - 1);
      SizeStep(cfg, states[n - 1], events[n - 1], states[n]);
    }
  }

  lemma SizeStep(cfg: LimiterConfig, m: Buckets, e: Event, r: Buckets)
    requires Working(cfg) && Next(cfg, m, e, r) && |m| <= cfg.maxKeys
    ensures |r| <= cfg.maxKeys
  {
    if e.key in r {
      var rest := r - {e.key};
      assert r.Keys == rest.Keys + {e.key};
      if e.key in m {
        assert m.Keys == (m - {e.key}).Keys + {e.key};
      } else if !e.op.Refund? {
        EvictsSmaller(cfg.maxKeys, m, e.now, rest);
      }
    }
  }

  // ----- the window -----

  ghost predicate Burst(cfg: LimiterConfig, d: nat) { d <= cfg.burst * cfg.refill }

  /** No debt ever exceeds the burst. */
  lemma {:induction false} DebtBounded(cfg: LimiterConfig, states: seq<Buckets>, events: seq<Event>, key: string,
                                       n: nat)
    requires Run(cfg, states, events) && n <= |events|
    ensures Burst(cfg, DebtAfter(states, events, key, n))
  {
    if n > 0 {
      DebtBounded(cfg, states, events, key, n - 1);
      DebtFound(cfg, states, events, key, n - 1);
      StepBounded(cfg, states, events, key, n - 1);
    }
  }

  lemma StepBounded(cfg: LimiterConfig, states: seq<Buckets>, events: seq<Event>, key: string, i: nat)
    requires Run(cfg, states, events) && i < |events| && Burst(cfg, Debt(states[i], key, events[i].now))
    ensures Burst(cfg, DebtAfter(states, events, key, i + 1))
  {
    assert Moves(cfg, states, events, i);
    if events[i].key == key {
      OwnStep(cfg, states[i], events[i], states[i + 1]);
      KeyDebtBounded(cfg, Debt(states[i], key, events[i].now), events[i].op);
    } else {
      OtherNeverGains(cfg, states[i], events[i], states[i + 1], key);
    }
  }

  lemma KeyDebtBounded(cfg: LimiterConfig, d: nat, op: Op)
    requires Working(cfg) && Burst(cfg, d)
    ensures KeyDebt(cfg, d, op) >= 0 && Burst(cfg, KeyDebt(cfg, d, op))
  {
    assert (cfg.burst - 1) * cfg.refill + cfg.refill == cfg.burst * cfg.refill;
  }

  ghost function Delta(e: Event, key: string): (n: int) {
    if e.key != key then 0 else if e.op.Allow? && e.answer.ok then 1 else if e.op.Refund? then -1 else 0
  }

  /** Attempts allowed for `key` less refunds given to it, in events `i` to `j`. */
  ghost function Net(events: seq<Event>, key: string, i: nat, j: nat): (n: int)
    requires i <= j <= |events|
    decreases j - i
  {
    if i == j then 0 else Net(events, key, i, j - 1) + Delta(events[j - 1], key)
  }

  lemma DebtGains(cfg: LimiterConfig, states: seq<Buckets>, events: seq<Event>, key: string, i: nat)
    requires Run(cfg, states, events) && i < |events| && Remembers(states, events, key, i)
    ensures DebtAfter(states, events, key, i + 1) >= DebtAfter(states, events, key, i) - Elapsed(events, i) +
          Delta(events[i], key) * cfg.refill
    ensures DebtAfter(states, events, key, i + 1) >= Delta(events[i], key) * cfg.refill
  {
    DebtStep(cfg, states, events, key, i);
    var found := Paid(DebtAfter(states, events, key, i), Elapsed(events, i));
    assert 1 * cfg.refill == cfg.refill && -1 * cfg.refill == -cfg.refill;
  }

  /** Every unrefunded attempt still owed for, less the time since. */
  lemma {:induction false} DebtAccounts(cfg: LimiterConfig, states: seq<Buckets>, events: seq<Event>, key: string,
                                        i: nat, j: nat)
    requires Run(cfg, states, events) && i < j <= |events|
    requires forall k {:trigger Remembers(states, events, key, k)} :: i <= k < j ==> Remembers(states, events, key, k)
    ensures DebtAfter(states, events, key, j) >=
            Net(events, key, i, j) * cfg.refill - (events[j - 1].now - events[i].now)
    decreases j
  {
    assert Remembers(states, events, key, j - 1);
    DebtGains(cfg, states, events, key, j - 1);
    if i < j - 1 {
      DebtAccounts(cfg, states, events, key, i, j - 1);
      var a, d := Net(events, key, i, j - 1), Delta(events[j - 1], key);
      assert (a + d) * cfg.refill == a * cfg.refill + d * cfg.refill;
    } else {
      assert Net(events, key, i, i) == 0;
    }
  }

  lemma CancelLess(x: int, y: int, r: int)
    requires r > 0 && x * r < y * r
    ensures x < y
  {
  }

  lemma WholeIntervals(n: int, burst: int, refill: int, elapsed: int)
    requires refill > 0 && elapsed >= 0 && n * refill <= burst * refill + elapsed
    ensures n <= burst + elapsed / refill
  {
    var q := elapsed / refill;
    assert elapsed == q * refill + elapsed % refill;
    assert (burst + q + 1) * refill == burst * refill + q * refill + refill;
    CancelLess(n, burst + q + 1, refill);
  }

  /** Between any two instants of any run, while the key is not dropped in debt,
      attempts less refunds stay within the burst plus one per refill interval. */
  lemma WindowBound(cfg: LimiterConfig, states: seq<Buckets>, events: seq<Event>, key: string, i: nat, j: nat)
    requires Run(cfg, states, events) && i < j <= |events|
    requires forall k {:trigger Remembers(states, events, key, k)} :: i <= k < j ==> Remembers(states, events, key, k)
    ensures events[i].now <= events[j - 1].now
    ensures Net(events, key, i, j) <= cfg.burst + (events[j - 1].now - events[i].now) / cfg.refill
  {
    DebtBounded(cfg, states, events, key, j);
    DebtAccounts(cfg, states, events, key, i, j);
    TimesOrdered(cfg, states, events, i, j - 1);
    WholeIntervals(Net(events, key, i, j), cfg.burst, cfg.refill, events[j - 1].now - events[i].now);
  }

  lemma {:induction false} TimesOrdered(cfg: LimiterConfig, states: seq<Buckets>, events: seq<Event>, i: nat, j: nat)
    requires Run(cfg, states, events) && i <= j < |events|
    ensures events[i].now <= events[j].now
    decreases j
  {
    if i < j {
      TimesOrdered(cfg, states, events, i, j - 1);
      assert Moves(cfg, states, events, j);
    }
  }

  // ----- exact waits -----

  /** Nothing spends or refunds `key` in events `i` to `j`. */
  ghost predicate Untouched(events: seq<Event>, key: string, i: nat, j: nat) {
    forall k {:trigger events[k]} :: i <= k < j <= |events| && events[k].key == key ==> events[k].op.Peek?
  }

  lemma {:induction false} DebtUntouched(cfg: LimiterConfig, states: seq<Buckets>, events: seq<Event>, key: string,
                                         i: nat, j: nat)
    requires Run(cfg, states, events) && i < j <= |events|
    requires forall k {:trigger Remembers(states, events, key, k)} :: i <= k < j ==> Remembers(states, events, key, k)
    requires Untouched(events, key, i + 1, j)
    ensures events[i].now <= events[j - 1].now
    ensures DebtAfter(states, events, key, j) ==
          Paid(DebtAfter(states, events, key, i + 1), events[j - 1].now - events[i].now)
    decreases j
  {
    if i + 1 < j {
      DebtUntouched(cfg, states, events, key, i, j - 1);
      assert Remembers(states, events, key, j - 1);
      DebtStep(cfg, states, events, key, j - 1);
    }
  }

  /** A refusal's wait is exact: asked again with nothing spent or refunded since,
      the key is refused before that instant and allowed from it on. */
  lemma WaitIsExact(cfg: LimiterConfig, states: seq<Buckets>, events: seq<Event>, i: nat, j: nat)
    requires Run(cfg, states, events) && i < j < |events|
    requires forall k {:trigger Remembers(states, events, events[i].key, k)} ::
          i <= k <= j ==> Remembers(states, events, events[i].key, k)
    requires Untouched(events, events[i].key, i + 1, j)
    requires !events[i].answer.ok
    requires events[j].key == events[i].key && !events[j].op.Refund?
    ensures events[i].answer.wait > 0
    ensures events[j].answer.ok <==> events[j].now >= events[i].now + events[i].answer.wait
  {
    var key := events[i].key;
    assert Remembers(states, events, key, i) && Remembers(states, events, key, j);
    DebtStep(cfg, states, events, key, i);
    DebtUntouched(cfg, states, events, key, i, j);
    DebtStep(cfg, states, events, key, j);
    ToleranceNonNegative(cfg);
  }

  /** At one instant a key owing nothing is allowed exactly `Burst` times. */
  ghost function Hammer(cfg: LimiterConfig, d: nat, n: nat): (r: int)
    requires cfg.refill > 0
    ensures r >= 0
  {
    if n == 0 then d else KeyDebt(cfg, Hammer(cfg, d, n - 1), Op.Allow)
  }

  lemma {:induction false} BurstIsExact(cfg: LimiterConfig, n: nat)
    requires Working(cfg)
    ensures KeyAnswer(cfg, Hammer(cfg, 0, n), Op.Allow).ok <==> n < cfg.burst
    ensures Hammer(cfg, 0, n) == (if n < cfg.burst then n else cfg.burst) * cfg.refill
  {
    var k := if n < cfg.burst then n else cfg.burst;
    if n > 0 {
      BurstIsExact(cfg, n - 1);
      if n <= cfg.burst { assert n * cfg.refill == (n - 1) * cfg.refill + cfg.refill; }
    }
    assert Hammer(cfg, 0, n) == k * cfg.refill;
    OverBurst(k, cfg.burst, cfg.refill);
  }

  lemma OverBurst(k: int, burst: int, refill: int)
    requires refill > 0 && k <= burst
    ensures k * refill <= (burst - 1) * refill <==> k < burst
  {
    if k < burst {
      var gap := burst - 1 - k;
      assert gap * refill >= 0;
      assert (burst - 1) * refill == (k + gap) * refill == k * refill + gap * refill;
    } else {
      assert k * refill == (burst - 1) * refill + refill;
    }
  }

  /** A refund undoes the attempt it follows. */
  lemma RefundUndoes(cfg: LimiterConfig, m: Buckets, e: Event, mid: Buckets, f: Event, r: Buckets)
    requires Working(cfg) && Next(cfg, m, e, mid) && Next(cfg, mid, f, r)
    requires e.op.Allow? && e.answer.ok && f.op.Refund? && f.key == e.key && f.now == e.now
    ensures Debt(r, e.key, e.now) == Debt(m, e.key, e.now)
  {
    OwnStep(cfg, m, e, mid);
    OwnStep(cfg, mid, f, r);
    ToleranceNonNegative(cfg);
  }

  // ----- bounding the map changes nothing -----

  /** The same limiter in a map that never evicts. */
  ghost function UnboundedNext(cfg: LimiterConfig, m: Buckets, op: Op, key: string, now: Time): (r: Buckets)
    requires Working(cfg)
  {
    match op
    case Allow => m[key := Charged(cfg, Standing(m, key, now), now)]
    case Peek => m[key := Standing(m, key, now)]
    case Refund => if key in m then m[key := Refunded(cfg, m[key], now)] else m
  }

  ghost function Unbounded(cfg: LimiterConfig, events: seq<Event>, n: nat): (r: Buckets)
    requires Working(cfg) && n <= |events|
  {
    if n == 0 then map[]
    else
      var e := events[n - 1];
      UnboundedNext(cfg, Unbounded(cfg, events, n - 1), e.op, e.key, e.now)
  }

  ghost function UnboundedAnswer(cfg: LimiterConfig, events: seq<Event>, i: nat): (a: Answer)
    requires Working(cfg) && i < |events|
  {
    var e := events[i];
    if e.op.Refund? then Answer(true, 0) else Judge(cfg, Standing(Unbounded(cfg, events, i), e.key, e.now), e.now)
  }

  /** A new key arrives while fewer keys than the bound are in debt. */
  ghost predicate Fits(cfg: LimiterConfig, states: seq<Buckets>, events: seq<Event>, i: int)
    requires 0 <= i < |events| < |states|
  {
    !events[i].op.Refund? && events[i].key !in states[i] ==> |Owing(states[i], events[i].now)| < cfg.maxKeys
  }

  lemma FitsRemembers(cfg: LimiterConfig, states: seq<Buckets>, events: seq<Event>, i: nat, key: string)
    requires Run(cfg, states, events) && i < |events| && Fits(cfg, states, events, i)
    ensures Remembers(states, events, key, i)
  {
    assert Moves(cfg, states, events, i);
    var m, e, r := states[i], events[i], states[i + 1];
    if key != e.key && key in m && m[key] > e.now {
      var rest := r - {e.key};
      assert e.key in m ==> key in m - {e.key};
      assert e.key !in m && !e.op.Refund? ==> key in Owing(m, e.now) && key in rest;
    }
  }

  lemma UnboundedStep(cfg: LimiterConfig, u: Buckets, op: Op, key: string, now: Time, k: string)
    requires Working(cfg)
    ensures Debt(UnboundedNext(cfg, u, op, key, now), k, now) ==
          (if k == key then KeyDebt(cfg, Debt(u, k, now), op) else Debt(u, k, now))
    ensures !op.Refund? ==> Judge(cfg, Standing(u, key, now), now) == KeyAnswer(cfg, Debt(u, key, now), op)
  {
    ToleranceNonNegative(cfg);
  }

  /** While debtors fit, both maps say every key owes the same. */
  lemma {:induction false} SameDebts(cfg: LimiterConfig, states: seq<Buckets>, events: seq<Event>, n: nat, key: string)
    requires Run(cfg, states, events) && n <= |events|
    requires forall i {:trigger Fits(cfg, states, events, i)} :: 0 <= i < n ==> Fits(cfg, states, events, i)
    ensures n > 0 ==> DebtAfter(states, events, key, n) == Debt(Unbounded(cfg, events, n), key, events[n - 1].now)
    decreases n, 0
  {
    if n > 0 {
      var e := events[n - 1];
      assert Fits(cfg, states, events, n - 1);
      FitsRemembers(cfg, states, events, n - 1, key);
      DebtStep(cfg, states, events, key, n - 1);
      UnboundedStep(cfg, Unbounded(cfg, events, n - 1), e.op, e.key, e.now, key);
      UnboundedFound(cfg, states, events, n - 1, key);
    }
  }

  lemma UnboundedFound(cfg: LimiterConfig, states: seq<Buckets>, events: seq<Event>, n: nat, key: string)
    requires Run(cfg, states, events) && n < |events|
    requires forall i {:trigger Fits(cfg, states, events, i)} :: 0 <= i < n ==> Fits(cfg, states, events, i)
    ensures Elapsed(events, n) >= 0
    ensures Debt(Unbounded(cfg, events, n), key, events[n].now) ==
          Paid(DebtAfter(states, events, key, n), Elapsed(events, n))
    decreases n, 1
  {
    assert Moves(cfg, states, events, n);
    if n > 0 {
      SameDebts(cfg, states, events, n, key);
      DebtPaysDown(Unbounded(cfg, events, n), key, events[n - 1].now, events[n].now);
    }
  }

  /** While fewer keys than the bound are in debt at every creation, the bounded
      limiter answers every operation exactly as the unbounded one. */
  lemma BoundedAgrees(cfg: LimiterConfig, states: seq<Buckets>, events: seq<Event>, i: nat)
    requires Run(cfg, states, events) && i < |events|
    requires forall k {:trigger Fits(cfg, states, events, k)} :: 0 <= k < |events| ==> Fits(cfg, states, events, k)
    ensures events[i].answer == UnboundedAnswer(cfg, events, i)
  {
    var e := events[i];
    assert Fits(cfg, states, events, i);
    FitsRemembers(cfg, states, events, i, e.key);
    DebtStep(cfg, states, events, e.key, i);
    UnboundedFound(cfg, states, events, i, e.key);
    UnboundedStep(cfg, Unbounded(cfg, events, i), e.op, e.key, e.now, e.key);
  }
}
