/**
 The attempt limiter: one restored-at instant per key, in a map of bounded size.
 Models internal/authn/ratelimit.go. Instants are nanoseconds since the zero time.
 */
module RateLimits {
  type Time = nat

  datatype LimiterConfig = LimiterConfig(burst: int, refill: int, maxKeys: int)

  datatype LimitError = BadBurst | BadRefill | BadMaxKeys

  datatype Result<T> = Ok(value: T) | Err(error: LimitError)

  type Buckets = map<string, Time>

  predicate Working(cfg: LimiterConfig) { cfg.burst > 0 && cfg.refill > 0 && cfg.maxKeys > 0 }

  function Tolerance(cfg: LimiterConfig): (r: int) { (cfg.burst - 1) * cfg.refill }

  /** How long until the key may attempt again; zero or less means now. */
  function Wait(cfg: LimiterConfig, restoredAt: Time, now: Time): (r: int) { restoredAt - Tolerance(cfg) - now }

  // ----- eviction -----

  ghost function Owing(m: Buckets, now: Time): (r: Buckets) {
    map k | k in m && m[k] > now :: m[k]
  }

  ghost predicate Submap(a: Buckets, b: Buckets) {
    forall k {:trigger a[k]} {:trigger k in a} :: k in a ==> k in b && a[k] == b[k]
  }

  /** `r` is `m` without some keys, none of which owes more than a key that stays. */
  ghost predicate Sheds(m: Buckets, r: Buckets) {
    && Submap(r, m)
    && forall k, j {:trigger m[k], r[j]} :: k in m && k !in r && j in r ==> m[k] <= r[j]
  }

  /** Makes room: nothing below the bound; then every key owing nothing; then,
      only if that is not enough, the keys owing least, down to one free place. */
  ghost predicate Evicts(maxKeys: int, m: Buckets, now: Time, r: Buckets) {
    if |m| < maxKeys then r == m
    else if |Owing(m, now)| < maxKeys then r == Owing(m, now)
    else |r| == maxKeys - 1 && Sheds(Owing(m, now), r)
  }

  method DropPaid(m: Buckets, now: Time) returns (r: Buckets)
    ensures r == Owing(m, now)
  {
    r := m;
    var todo := m.Keys;
    while todo != {}
      invariant todo <= m.Keys
      invariant r == map k | k in m && (m[k] > now || k in todo) :: m[k]
      decreases |todo|
    {
      var key :| key in todo;
      todo := todo - {key};
      if !(m[key] > now) {
        r := r - {key};
      }
    }
  }

  /** The key owing least, found the way a zero `least` marks nothing found yet. */
  method Poorest(m: Buckets) returns (poorest: string)
    requires m != map[] && forall k {:trigger m[k]} :: k in m ==> m[k] > 0
    ensures poorest in m && forall k {:trigger m[k]} :: k in m ==> m[poorest] <= m[k]
  {
    poorest := "";
    var least: Time := 0;
    var todo := m.Keys;
    while todo != {}
      invariant todo <= m.Keys
      invariant least == 0 ==> todo == m.Keys
      invariant least > 0 ==> poorest in m && m[poorest] == least
      invariant least > 0 ==> forall k {:trigger m[k]} :: k in m && k !in todo ==> least <= m[k]
      decreases |todo|
    {
      var key :| key in todo;
      todo := todo - {key};
      if least == 0 || m[key] < least {
        poorest, least := key, m[key];
      }
    }
  }

  method Evict(maxKeys: int, m: Buckets, now: Time) returns (r: Buckets)
    requires maxKeys > 0
    ensures Evicts(maxKeys, m, now, r)
  {
    r := m;
    if |r| < maxKeys {
      return;
    }
    r := DropPaid(r, now);
    ghost var owing := r;
    while |r| >= maxKeys
      invariant Sheds(owing, r)
      invariant if |owing| < maxKeys then r == owing else |r| >= maxKeys - 1
      decreases |r|
    {
      assert r.Keys != {};
      var poorest := Poorest(r);
      ShedOne(owing, r, poorest);
      r := r - {poorest};
    }
  }

  lemma ShedOne(m: Buckets, r: Buckets, k: string)
    requires Sheds(m, r) && k in r && forall j {:trigger r[j]} :: j in r ==> r[k] <= r[j]
    ensures Sheds(m, r - {k}) && |r - {k}| == |r| - 1
  {
    var s := r - {k};
    assert s.Keys == r.Keys - {k};
    forall x, j | x in m && x !in s && j in s
      ensures m[x] <= s[j]
    {
      assert j in r && r[j] == s[j];
      if x in r { assert x == k; }
    }
  }

  // ----- one step -----

  datatype Op = Allow | Refund | Peek

  datatype Answer = Answer(ok: bool, wait: int)

  datatype Event = Event(op: Op, key: string, now: Time, answer: Answer)

  function Later(a: Time, b: Time): (r: Time) { if a < b then b else a }

  ghost function Judge(cfg: LimiterConfig, restoredAt: Time, now: Time): (a: Answer) {
    if Wait(cfg, restoredAt, now) > 0 then Answer(false, Wait(cfg, restoredAt, now)) else Answer(true, 0)
  }

  ghost function Charged(cfg: LimiterConfig, restoredAt: Time, now: Time): (r: int) {
    if Wait(cfg, restoredAt, now) > 0 then restoredAt else Later(restoredAt, now) + cfg.refill
  }

  ghost function Refunded(cfg: LimiterConfig, restoredAt: Time, now: Time): (r: int) {
    if restoredAt - cfg.refill > now then restoredAt - cfg.refill else now
  }

  /** Where the key stands when it is looked up; a new key owes nothing. */
  ghost function Standing(m: Buckets, key: string, now: Time): (r: Time) {
    if key in m then m[key] else now
  }

  /** The map around `key` after looking it up. */
  ghost predicate Admits(cfg: LimiterConfig, m: Buckets, key: string, now: Time, r: Buckets) {
    && key in r
    && (if key in m then r - {key} == m - {key} else Evicts(cfg.maxKeys, m, now, r - {key}))
  }

  ghost predicate Next(cfg: LimiterConfig, m: Buckets, e: Event, r: Buckets) {
    var was := Standing(m, e.key, e.now);
    match e.op
    case Allow =>
      Admits(cfg, m, e.key, e.now, r) && r[e.key] == Charged(cfg, was, e.now) && e.answer == Judge(cfg, was, e.now)
    case Peek => Admits(cfg, m, e.key, e.now, r) && r[e.key] == was && e.answer == Judge(cfg, was, e.now)
    case Refund =>
      && (if e.key in m then e.key in r && r - {e.key} == m - {e.key} && r[e.key] == Refunded(cfg, was, e.now)
          else r == m)
      && e.answer == Answer(true, 0)
  }

  class Limiter {
    const cfg: LimiterConfig
    var buckets: Buckets

    constructor (cfg: LimiterConfig)
      ensures this.cfg == cfg && buckets == map[]
    {
      this.cfg, buckets := cfg, map[];
    }

    ghost predicate Valid()
      reads this
    {
      Working(cfg) && |buckets| <= cfg.maxKeys
    }

    /** Looks the key up, making room for it first if it is new. */
    method Bucket(key: string, now: Time) returns (restoredAt: Time)
      requires Valid()
      modifies this
      ensures Valid() && restoredAt == Standing(old(buckets), key, now)
      ensures key in buckets && buckets[key] == restoredAt
      ensures Admits(cfg, old(buckets), key, now, buckets)
    {
      if key !in buckets {
        var kept := Evict(cfg.maxKeys, buckets, now);
        EvictsSmaller(cfg.maxKeys, buckets, now, kept);
        PlaceNew(kept, key, now);
        buckets := kept[key := now];
      }
      restoredAt := buckets[key];
    }

    method Allow(key: string, now: Time) returns (ok: bool, wait: int)
      requires Valid()
      modifies this
      ensures Valid() && Next(cfg, old(buckets), Event(Op.Allow, key, now, Answer(ok, wait)), buckets)
    {
      var restoredAt := Bucket(key, now);
      wait := Wait(cfg, restoredAt, now);
      if wait > 0 {
        return false, wait;
      }
      if restoredAt < now {
        restoredAt := now;
      }
      Overwrite(buckets, key, restoredAt + cfg.refill);
      buckets := buckets[key := restoredAt + cfg.refill];
      return true, 0;
    }

    method Refund(key: string, now: Time)
      requires Valid()
      modifies this
      ensures Valid() && Next(cfg, old(buckets), Event(Op.Refund, key, now, Answer(true, 0)), buckets)
    {
      if key !in buckets { return; }
      var restored := buckets[key] - cfg.refill;
      var r: Time := if restored > now then restored else now;
      Overwrite(buckets, key, r);
      buckets := buckets[key := r];
    }

    method Peek(key: string, now: Time) returns (ok: bool, wait: int)
      requires Valid()
      modifies this
      ensures Valid() && Next(cfg, old(buckets), Event(Op.Peek, key, now, Answer(ok, wait)), buckets)
    {
      var restoredAt := Bucket(key, now);
      wait := Wait(cfg, restoredAt, now);
      ok, wait := wait <= 0, if wait > 0 then wait else 0;
    }
  }

  lemma PlaceNew(kept: Buckets, key: string, t: Time)
    requires key !in kept
    ensures kept[key := t] - {key} == kept && |kept[key := t]| == |kept| + 1
  {
    var r := kept[key := t];
    assert r.Keys == kept.Keys + {key};
    assert (r - {key}).Keys == kept.Keys;
  }

  lemma EvictsSmaller(maxKeys: int, m: Buckets, now: Time, r: Buckets)
    requires maxKeys > 0 && Evicts(maxKeys, m, now, r)
    ensures |r| < maxKeys && r.Keys <= m.Keys
  {
    if |m| >= maxKeys && |Owing(m, now)| >= maxKeys {
      assert forall k :: k in r ==> k in Owing(m, now);
    }
  }

  lemma Overwrite(m: Buckets, key: string, t: Time)
    requires key in m
    ensures m[key := t] - {key} == m - {key} && |m[key := t]| == |m|
  {
    assert m[key := t].Keys == m.Keys;
  }

  /** A limiter for a configuration that can work, or the field that cannot. */
  method NewLimiter(cfg: LimiterConfig) returns (r: Result<Limiter>)
    ensures r.Ok? <==> Working(cfg)
    ensures r.Ok? ==> fresh(r.value) && r.value.Valid() && r.value.cfg == cfg && r.value.buckets == map[]
    ensures r.Err? ==> r.error == if cfg.burst <= 0 then BadBurst else if cfg.refill <= 0 then BadRefill else BadMaxKeys
  {
    if cfg.burst <= 0 { return Err(BadBurst); }
    if cfg.refill <= 0 { return Err(BadRefill); }
    if cfg.maxKeys <= 0 { return Err(BadMaxKeys); }
    var l := new Limiter(cfg);
    r := Ok(l);
  }
}
