/**
 Tags of a proxied repository: leases that expire, absences remembered briefly,
 and an upstream that is left alone while it throttles.
 Models internal/proxy/lease.go, internal/proxy/negative.go and
 internal/proxy/backoff.go, one resolution at a time, with a store whose reads
 may fail and whose writes do not.
 */
module TagLeases {
  import opened Wrappers

  type Time = int
  type Digest = string

  datatype Key = Key(repository: string, tag: string)

  datatype Lease = Lease(digest: Digest, etag: string, fetchedAt: Time, ttl: int, stale: bool)

  datatype Negative = Negative(observedAt: Time, ttl: int)

  datatype Standing = Standing(failures: int, until: Time)

  datatype State = State(leases: map<Key, Lease>, negatives: map<Key, Negative>, standings: map<string, Standing>)

  datatype Limits = Limits(base: int, max: int)

  datatype Target = Target(repository: string, tagTtl: int, negativeTtl: int, strict: bool)

  datatype UpstreamError =
    | NotFound
    | RateLimited(retryAfter: Option<int>)
    | Unreachable
    | TimedOut
    | ServerError
    | Refused(reason: string)

  datatype ResolveError = StoreUnreadable | Upstream(error: UpstreamError) | Unusable

  datatype Reply = Replied(changed: bool, digest: Digest, etag: string, hasBody: bool) | Failed(error: UpstreamError)

  datatype Lookup = Hit | Miss | Unreadable

  /** One call of `ResolveTag` and how the world answers it: the clock, the store's
      reads, the upstream, the jitter drawn, and what becomes of a new manifest. */
  datatype Request = Request(
    target: Target, tag: string, now: Time,
    leaseUnreadable: bool, negativeUnreadable: bool,
    reply: Reply, draw: int -> int,
    parses: bool, manifest: Lookup, later: Time, fetch: Option<UpstreamError>)

  datatype Resolution = Resolution(
    digest: Digest, hit: bool, revalidated: bool, changed: bool, stale: bool, staleFor: int)

  datatype Answer = Ok(value: Resolution) | Err(error: ResolveError)

  /** A request sent upstream. */
  datatype Call = Call(entity: string, at: Time)

  // ----- pure parts -----

  /** The first path segment, which owns the upstream and its quota. */
  function Entity(name: string): (r: string) {
    if name == "" || name[0] == '/' then "" else [name[0]] + Entity(name[1..])
  }

  function Fresh(lease: Lease, ttl: int, now: Time): (r: bool) { ttl > 0 && now - lease.fetchedAt < ttl }

  function NegativeFresh(n: Negative, ttl: int, now: Time): (r: bool) { ttl > 0 && now - n.observedAt < ttl }

  function Degraded(e: UpstreamError): (r: bool) { !e.NotFound? && !e.Refused? }

  const TWO63: int := 0x8000_0000_0000_0000

  /** Two's complement wrap-around of a 64-bit product. */
  function Wrap(x: int): (r: int) { (x + TWO63) % (2 * TWO63) - TWO63 }

  function Pow2(n: nat): (r: int) { if n == 0 then 1 else 2 * Pow2(n - 1) }

  function Exponential(cfg: Limits, failures: int): (r: int)
    requires failures > 0
  {
    var x := Wrap(cfg.base * Pow2(if failures - 1 < 32 then failures - 1 else 32));
    if x > cfg.max || x <= 0 then cfg.max else x
  }

  /** The wait after a refusal: at least what was asked for, never above the cap. */
  function Delay(cfg: Limits, failures: int, retryAfter: int, draw: int -> int): (d: int)
    requires failures > 0 && cfg.max > 0
    ensures 0 <= d <= cfg.max
    ensures d >= if retryAfter < cfg.max then retryAfter else cfg.max
  {
    var drawn := draw(Exponential(cfg, failures));
    var asked := if retryAfter > drawn then retryAfter else drawn;
    var capped := if asked > cfg.max then cfg.max else asked;
    if capped < 0 then 0 else capped
  }

  // ----- the backoff -----

  class Backoff {
    const cfg: Limits
    var states: map<string, Standing>

    constructor (cfg: Limits)
      ensures this.cfg == cfg && states == map[]
    {
      this.cfg, states := cfg, map[];
    }

    method Ready(entity: string, now: Time) returns (ready: bool, until: Time)
      ensures ready == May(states, entity, now)
      ensures !ready ==> until == states[entity].until
    {
      if entity !in states || now >= states[entity].until {
        return true, 0;
      }
      return false, states[entity].until;
    }

    method Penalize(entity: string, now: Time, retryAfter: int, draw: int -> int) returns (until: Time)
      requires cfg.max > 0 && Sound(states)
      modifies this
      ensures Sound(states)
      ensures states == Penalized(cfg, old(states), entity, now, retryAfter, draw) && until == states[entity].until
    {
      var failures := (if entity in states then states[entity].failures else 0) + 1;
      until := now + Delay(cfg, failures, retryAfter, draw);
      states := states[entity := Standing(failures, until)];
    }

    method Succeed(entity: string)
      requires Sound(states)
      modifies this
      ensures Sound(states) && states == old(states) - {entity}
    {
      states := states - {entity};
    }
  }

  ghost predicate Sound(states: map<string, Standing>) {
    forall e {:trigger states[e]} :: e in states ==> states[e].failures >= 0
  }

  function May(states: map<string, Standing>, entity: string, now: Time): (r: bool) {
    entity !in states || now >= states[entity].until
  }

  function Failures(states: map<string, Standing>, entity: string): (n: int)
    requires Sound(states)
    ensures n >= 0
  {
    if entity in states then states[entity].failures else 0
  }

  ghost function Penalized(cfg: Limits, states: map<string, Standing>, entity: string, now: Time, retryAfter: int,
                           draw: int -> int): (r: map<string, Standing>)
    requires cfg.max > 0 && Sound(states)
    ensures Sound(r) && entity in r && 0 <= r[entity].until - now <= cfg.max
    ensures r[entity].until - now >= if retryAfter < cfg.max then retryAfter else cfg.max
  {
    var failures := Failures(states, entity) + 1;
    states[entity := Standing(failures, now + Delay(cfg, failures, retryAfter, draw))]
  }

  /** The upstream's standing after a call to it. Only throttling backs off. */
  ghost function Recorded(cfg: Limits, states: map<string, Standing>, entity: string, now: Time,
                          err: Option<UpstreamError>, draw: int -> int): (r: map<string, Standing>)
    requires cfg.max > 0 && Sound(states)
    ensures Sound(r)
  {
    if err.None? then states - {entity}
    else if err.value.RateLimited? then
      Penalized(cfg, states, entity, now, if err.value.retryAfter.Some? then err.value.retryAfter.value else 0, draw)
    else states
  }

  // ----- one resolution -----

  datatype Outcome = Outcome(state: State, answer: Answer, calls: seq<Call>)

  ghost function KeyOf(q: Request): (k: Key) { Key(q.target.repository, q.tag) }

  ghost function UpstreamOf(q: Request): (e: string) { Entity(q.target.repository) }

  function Held(lease: Lease): (r: Resolution) { Resolution(lease.digest, true, false, false, false, 0) }

  function StaleBy(lease: Lease, ttl: int, now: Time): (n: int) {
    if now - lease.fetchedAt - ttl < 0 then 0 else now - lease.fetchedAt - ttl
  }

  /** The upstream could not answer: forget a name it no longer has, serve what is
      held when waiting may help, fail otherwise. */
  ghost function Failing(s: State, q: Request, err: UpstreamError, calls: seq<Call>): (o: Outcome) {
    var key := KeyOf(q);
    if err.NotFound? then
      var kept := s.(leases := s.leases - {key});
      var denied := Negative(q.now, q.target.negativeTtl);
      Outcome(if q.target.negativeTtl <= 0 then kept else kept.(negatives := kept.negatives[key := denied]),
              Err(Upstream(err)), calls)
    else if !Degraded(err) || key !in s.leases || q.target.strict then Outcome(s, Err(Upstream(err)), calls)
    else
      var lease := s.leases[key];
      Outcome(s.(leases := s.leases[key := lease.(stale := true)]),
              Ok(Resolution(lease.digest, false, false, false, true, StaleBy(lease, q.target.tagTtl, q.now))), calls)
  }

  /** What becomes of the manifest a changed tag names. */
  ghost function Caching(cfg: Limits, s: State, q: Request): (r: (State, Option<ResolveError>, seq<Call>))
    requires cfg.max > 0 && Sound(s.standings) && q.reply.Replied?
    ensures Sound(r.0.standings)
  {
    var e := UpstreamOf(q);
    if q.reply.hasBody then (s, if q.parses then None else Some(Unusable), [])
    else if q.manifest.Hit? then (s, None, [])
    else if q.manifest.Unreadable? then (s, Some(StoreUnreadable), [])
    else if !May(s.standings, e, q.later) then
      (s, Some(Upstream(RateLimited(Some(s.standings[e].until - q.later)))), [])
    else
      var after := s.(standings := Recorded(cfg, s.standings, e, q.later, q.fetch, q.draw));
      var err := if q.fetch.Some? then Some(Upstream(q.fetch.value)) else if q.parses then None else Some(Unusable);
      (after, err, [Call(e, q.later)])
  }

  /** The upstream answered. */
  ghost function Confirming(cfg: Limits, s: State, q: Request): (o: Outcome)
    requires cfg.max > 0 && Sound(s.standings) && q.reply.Replied?
    ensures Sound(o.state.standings)
  {
    var key, call := KeyOf(q), Call(UpstreamOf(q), q.now);
    if !q.reply.changed && key in s.leases then
      var lease := s.leases[key];
      var refreshed :=
        Lease(lease.digest, if q.reply.etag != "" then q.reply.etag else lease.etag, q.now, q.target.tagTtl, false);
      Outcome(s.(leases := s.leases[key := refreshed]),
              Ok(Resolution(lease.digest, false, true, false, false, 0)), [call])
    else
      var cached := Caching(cfg, s, q);
      if cached.1.Some? then Outcome(cached.0, Err(cached.1.value), [call] + cached.2)
      else
        var lease := Lease(q.reply.digest, q.reply.etag, q.now, q.target.tagTtl, false);
        Outcome(cached.0.(leases := cached.0.leases[key := lease]),
                Ok(Resolution(q.reply.digest, false, true, true, false, 0)), [call] + cached.2)
  }

  ghost function Step(cfg: Limits, s: State, q: Request): (o: Outcome)
    requires cfg.max > 0 && Sound(s.standings)
    ensures Sound(o.state.standings)
  {
    var key, e := KeyOf(q), UpstreamOf(q);
    if q.leaseUnreadable then Outcome(s, Err(StoreUnreadable), [])
    else if key in s.leases && Fresh(s.leases[key], q.target.tagTtl, q.now) then Outcome(s, Ok(Held(s.leases[key])), [])
    else if q.negativeUnreadable then Outcome(s, Err(StoreUnreadable), [])
    else if key in s.negatives && NegativeFresh(s.negatives[key], q.target.negativeTtl, q.now) then
      Outcome(s, Err(Upstream(NotFound)), [])
    else if !May(s.standings, e, q.now) then Failing(s, q, RateLimited(Some(s.standings[e].until - q.now)), [])
    else
      var err := if q.reply.Failed? then Some(q.reply.error) else None;
      var asked := s.(standings := Recorded(cfg, s.standings, e, q.now, err, q.draw));
      if q.reply.Failed? then Failing(asked, q, q.reply.error, [Call(e, q.now)])
      else Confirming(cfg, asked.(negatives := asked.negatives - {key}), q)
  }

  class Filler {
    const backoff: Backoff
    var leases: map<Key, Lease>
    var negatives: map<Key, Negative>
    ghost var calls: seq<Call>

    constructor (backoff: Backoff)
      ensures this.backoff == backoff && leases == map[] && negatives == map[] && calls == []
    {
      this.backoff, leases, negatives, calls := backoff, map[], map[], [];
    }

    ghost predicate Valid()
      reads this, backoff
    {
      backoff.cfg.max > 0 && Sound(backoff.states)
    }

    ghost function Now(): (s: State)
      reads this, backoff
    {
      State(leases, negatives, backoff.states)
    }

    /** Updates an upstream's standing from the result of a call to it. */
    method RecordUpstream(entity: string, now: Time, err: Option<UpstreamError>, draw: int -> int)
      requires Valid()
      modifies backoff
      ensures Valid() && backoff.states == Recorded(backoff.cfg, old(backoff.states), entity, now, err, draw)
    {
      if err.None? {
        backoff.Succeed(entity);
        return;
      }
      if !err.value.RateLimited? { return; }
      var retryAfter := if err.value.retryAfter.Some? then err.value.retryAfter.value else 0;
      var _ := backoff.Penalize(entity, now, retryAfter, draw);
    }

    method RecordNegative(t: Target, tag: string, at: Time)
      modifies this`negatives
      ensures negatives ==
            if t.negativeTtl <= 0 then old(negatives)
            else old(negatives)[Key(t.repository, tag) := Negative(at, t.negativeTtl)]
    {
      if t.negativeTtl <= 0 { return; }
      negatives := negatives[Key(t.repository, tag) := Negative(at, t.negativeTtl)];
    }

    method ResolveFailed(q: Request, held: bool, lease: Lease, err: UpstreamError) returns (answer: Answer)
      requires Valid() && held == (KeyOf(q) in leases) && (held ==> lease == leases[KeyOf(q)])
      modifies this`leases, this`negatives
      ensures Valid() && Outcome(Now(), answer, calls) == Failing(old(Now()), q, err, calls)
    {
      var key := Key(q.target.repository, q.tag);
      if err.NotFound? {
        if held { leases := leases - {key}; }
        RecordNegative(q.target, q.tag, q.now);
        return Err(Upstream(err));
      }
      if !Degraded(err) || !held || q.target.strict {
        return Err(Upstream(err));
      }
      var staleFor := q.now - lease.fetchedAt - q.target.tagTtl;
      if staleFor < 0 { staleFor := 0; }
      if !lease.stale {
        leases := leases[key := lease.(stale := true)];
      }
      answer := Ok(Resolution(lease.digest, false, false, false, true, staleFor));
    }

    /** Stores the manifest a resolution produced, fetching it if it did not come along. */
    method CacheResolved(q: Request) returns (err: Option<ResolveError>)
      requires Valid() && q.reply.Replied?
      modifies backoff, this`calls
      ensures Valid()
      ensures var c := Caching(backoff.cfg, old(Now()), q); Now() == c.0 && err == c.1 && calls == old(calls) + c.2
    {
      if q.reply.hasBody {
        return if q.parses then None else Some(Unusable);
      }
      if q.manifest.Hit? { return None; }
      if q.manifest.Unreadable? { return Some(StoreUnreadable); }
      var entity := Entity(q.target.repository);
      var ready, until := backoff.Ready(entity, q.later);
      if !ready { return Some(Upstream(RateLimited(Some(until - q.later)))); }
      calls := calls + [Call(entity, q.later)];
      RecordUpstream(entity, q.later, q.fetch, q.draw);
      err := if q.fetch.Some? then Some(Upstream(q.fetch.value)) else if q.parses then None else Some(Unusable);
    }

    /** What the upstream's own answer does to the records. */
    method Confirm(q: Request, held: bool, lease: Lease, recorded: bool) returns (answer: Answer)
      requires Valid() && q.reply.Replied?
      requires
        && held == (KeyOf(q) in leases)
        && (held ==> lease == leases[KeyOf(q)])
        && recorded == (KeyOf(q) in negatives)
      modifies this, backoff
      ensures Valid() && old(calls) <= calls
      ensures var o := Confirming(backoff.cfg, old(Now()).(negatives := old(negatives) - {KeyOf(q)}), q);
              Now() == o.state && answer == o.answer && [Call(UpstreamOf(q), q.now)] + calls[|old(calls)|..] == o.calls
    {
      var key := Key(q.target.repository, q.tag);
      if recorded {
        negatives := negatives - {key};
      }
      assert negatives == old(negatives) - {key};
      if !q.reply.changed && held {
        var etag := if q.reply.etag != "" then q.reply.etag else lease.etag;
        leases := leases[key := Lease(lease.digest, etag, q.now, q.target.tagTtl, false)];
        return Ok(Resolution(lease.digest, false, true, false, false, 0));
      }
      ghost var was := Now();
      var err := CacheResolved(q);
      assert calls[|old(calls)|..] == Caching(backoff.cfg, was, q).2;
      if err.Some? {
        return Err(err.value);
      }
      leases := leases[key := Lease(q.reply.digest, q.reply.etag, q.now, q.target.tagTtl, false)];
      answer := Ok(Resolution(q.reply.digest, false, true, true, false, 0));
    }

    /** Resolves a tag: from a lease inside its time to live, from a remembered
        absence, or from the upstream. */
    method ResolveTag(q: Request) returns (answer: Answer)
      requires Valid()
      modifies this, backoff
      ensures Valid() && old(calls) <= calls
      ensures Outcome(Now(), answer, calls[|old(calls)|..]) == Step(backoff.cfg, old(Now()), q)
    {
      if q.leaseUnreadable { return Err(StoreUnreadable); }
      var key := Key(q.target.repository, q.tag);
      var held := key in leases;
      var lease := if held then leases[key] else Lease("", "", 0, 0, false);
      if held && Fresh(lease, q.target.tagTtl, q.now) {
        return Ok(Held(lease));
      }
      if q.negativeUnreadable { return Err(StoreUnreadable); }
      var recorded := key in negatives;
      if recorded && NegativeFresh(negatives[key], q.target.negativeTtl, q.now) {
        return Err(Upstream(NotFound));
      }
      var entity := Entity(q.target.repository);
      var ready, until := backoff.Ready(entity, q.now);
      if !ready {
        answer := ResolveFailed(q, held, lease, RateLimited(Some(until - q.now)));
        return;
      }
      calls := calls + [Call(entity, q.now)];
      RecordUpstream(entity, q.now, if q.reply.Failed? then Some(q.reply.error) else None, q.draw);
      if q.reply.Failed? {
        answer := ResolveFailed(q, held, lease, q.reply.error);
        return;
      }
      answer := Confirm(q, held, lease, recorded);
    }
  }
}
