/**
 What leases, remembered absences and the backoff promise over whole runs of
 resolutions: any targets and tags, any upstream, settings that change between
 calls, and a clock that does not run backwards.
 */
module LeaseLaws {
  import opened Wrappers
  import opened TagLeases

  const EMPTY := State(map[], map[], map[])

  ghost function StateAfter(cfg: Limits, qs: seq<Request>, n: nat): (s: State)
    requires cfg.max > 0 && n <= |qs|
    ensures Sound(s.standings)
    decreases n, 0
  {
    if n == 0 then EMPTY else OutcomeAt(cfg, qs, n - 1).state
  }

  ghost function OutcomeAt(cfg: Limits, qs: seq<Request>, i: nat): (o: Outcome)
    requires cfg.max > 0 && i < |qs|
    ensures Sound(o.state.standings)
    decreases i, 1
  {
    Step(cfg, StateAfter(cfg, qs, i), qs[i])
  }

  /** The upstream was asked about the tag and said it has none. */
  ghost predicate SaidGone(o: Outcome, q: Request) { o.calls != [] && q.reply == Failed(NotFound) }

  /** The upstream was asked about the tag and named a digest. */
  ghost predicate Named(o: Outcome, q: Request) { o.calls != [] && q.reply.Replied? }

  /** The manifest a moved tag names came along and parses, is here already, or was fetched
      and parses. */
  ghost predicate Usable(q: Request)
    requires q.reply.Replied?
  {
    if q.reply.hasBody then q.parses else q.manifest.Hit? || (q.manifest.Miss? && q.fetch.None? && q.parses)
  }

  /** The upstream said the digest held is still the tag's. */
  ghost predicate SaidSame(s: State, q: Request) { q.reply.Replied? && !q.reply.changed && KeyOf(q) in s.leases }

  /** The digest the upstream's answer names. */
  ghost function NamedDigest(s: State, q: Request): (d: Digest)
    requires q.reply.Replied?
  {
    if SaidSame(s, q) then s.leases[KeyOf(q)].digest else q.reply.digest
  }

  /** The upstream was asked, named a digest, and its content is held. */
  ghost predicate Confirms(s: State, o: Outcome, q: Request) { Named(o, q) && (SaidSame(s, q) || Usable(q)) }

  /** An answer is marked as confirmed exactly when the upstream just did, and carries the
      digest it named. */
  lemma RevalidatedIff(cfg: Limits, s: State, q: Request)
    requires cfg.max > 0 && Sound(s.standings)
    ensures var o := Step(cfg, s, q);
            && (Confirms(s, o, q) <==> o.answer.Ok? && o.answer.value.revalidated)
            && (Confirms(s, o, q) ==> o.answer.value.digest == NamedDigest(s, q))
  {
  }

  datatype Confirmation = Confirmation(digest: Digest, at: Time)

  /** The digest last confirmed upstream for a tag and when, unless it has been
      withdrawn there since. */
  ghost function Confirmed(cfg: Limits, qs: seq<Request>, n: nat, key: Key): (c: Option<Confirmation>)
    requires cfg.max > 0 && n <= |qs|
  {
    if n == 0 then None
    else
      var q, o := qs[n - 1], OutcomeAt(cfg, qs, n - 1);
      if KeyOf(q) != key then Confirmed(cfg, qs, n - 1, key)
      else
        if Confirms(StateAfter(cfg, qs, n - 1), o, q) then Some(Confirmation(NamedDigest(StateAfter(cfg, qs, n - 1), q),
          q.now))
      else if SaidGone(o, q) then None
      else Confirmed(cfg, qs, n - 1, key)
  }

  /** When the upstream last denied having the tag, unless it has named one since. */
  ghost function Denied(cfg: Limits, qs: seq<Request>, n: nat, key: Key): (t: Option<Time>)
    requires cfg.max > 0 && n <= |qs|
  {
    if n == 0 then None
    else
      var q, o := qs[n - 1], OutcomeAt(cfg, qs, n - 1);
      if KeyOf(q) != key then Denied(cfg, qs, n - 1, key)
      else if SaidGone(o, q) && q.target.negativeTtl > 0 then Some(q.now)
      else if Named(o, q) then None
      else Denied(cfg, qs, n - 1, key)
  }

  // ----- one step -----

  /** The records about one tag are as they were. */
  ghost predicate Untouched(s: State, r: State, key: Key) {
    && (key in r.leases <==> key in s.leases) && (key in s.leases ==> r.leases[key] == s.leases[key])
    && (key in r.negatives <==> key in s.negatives) && (key in s.negatives ==> r.negatives[key] == s.negatives[key])
  }

  lemma FailingOthers(s: State, q: Request, err: UpstreamError, calls: seq<Call>, key: Key)
    requires key != KeyOf(q)
    ensures Untouched(s, Failing(s, q, err, calls).state, key)
  {
  }

  lemma ConfirmingOthers(cfg: Limits, s: State, q: Request, key: Key)
    requires cfg.max > 0 && Sound(s.standings) && q.reply.Replied? && key != KeyOf(q)
    ensures Untouched(s, Confirming(cfg, s, q).state, key)
  {
  }

  lemma OtherTags(cfg: Limits, s: State, q: Request, key: Key)
    requires cfg.max > 0 && Sound(s.standings) && key != KeyOf(q)
    ensures Untouched(s, Step(cfg, s, q).state, key)
  {
    var e := UpstreamOf(q);
    if !May(s.standings, e, q.now) {
      FailingOthers(s, q, RateLimited(Some(s.standings[e].until - q.now)), [], key);
    } else {
      var asked :=
        s.(standings := Recorded(cfg, s.standings, e, q.now, if q.reply.Failed? then Some(q.reply.error) else None,
          q.draw));
      if q.reply.Failed? {
        FailingOthers(asked, q, q.reply.error, [Call(e, q.now)], key);
      } else {
        ConfirmingOthers(cfg, asked.(negatives := asked.negatives - {KeyOf(q)}), q, key);
      }
    }
  }

  /** What a step makes of the tag's own lease. */
  ghost predicate LeaseMoves(s: State, o: Outcome, q: Request) {
    var key := KeyOf(q);
    if Confirms(s, o, q) then
      && key in o.state.leases
      && o.state.leases[key].digest == NamedDigest(s, q)
      && o.state.leases[key].fetchedAt == q.now
    else if SaidGone(o, q) then key !in o.state.leases
    else
      && (key in o.state.leases <==> key in s.leases)
      && (key in s.leases ==>
            && o.state.leases[key].digest == s.leases[key].digest
            && o.state.leases[key].fetchedAt == s.leases[key].fetchedAt)
  }

  lemma FailingLease(s: State, q: Request, err: UpstreamError, calls: seq<Call>)
    requires if calls == [] then !err.NotFound? else q.reply == Failed(err)
    ensures LeaseMoves(s, Failing(s, q, err, calls), q)
  {
  }

  lemma ConfirmingLease(cfg: Limits, s: State, q: Request)
    requires cfg.max > 0 && Sound(s.standings) && q.reply.Replied? && UpstreamOf(q) !in s.standings
    ensures LeaseMoves(s, Confirming(cfg, s, q), q)
  {
  }

  lemma OwnLease(cfg: Limits, s: State, q: Request)
    requires cfg.max > 0 && Sound(s.standings)
    ensures LeaseMoves(s, Step(cfg, s, q), q)
  {
    var e := UpstreamOf(q);
    if !May(s.standings, e, q.now) {
      FailingLease(s, q, RateLimited(Some(s.standings[e].until - q.now)), []);
    } else {
      var asked :=
        s.(standings := Recorded(cfg, s.standings, e, q.now, if q.reply.Failed? then Some(q.reply.error) else None,
          q.draw));
      if q.reply.Failed? {
        FailingLease(asked, q, q.reply.error, [Call(e, q.now)]);
      } else {
        ConfirmingLease(cfg, asked.(negatives := asked.negatives - {KeyOf(q)}), q);
      }
    }
  }

  lemma OwnNegative(cfg: Limits, s: State, q: Request)
    requires cfg.max > 0 && Sound(s.standings)
    ensures var o, key := Step(cfg, s, q), KeyOf(q);
            && (SaidGone(o, q) && q.target.negativeTtl > 0 ==>
                  key in o.state.negatives && o.state.negatives[key].observedAt == q.now)
            && (Named(o, q) ==> key !in o.state.negatives)
            && (!(SaidGone(o, q) && q.target.negativeTtl > 0) && !Named(o, q) ==>
                 && (key in o.state.negatives <==> key in s.negatives)
                 && (key in s.negatives ==> o.state.negatives[key] == s.negatives[key]))
  {
  }

  // ----- over runs -----

  /** A lease is exactly the last confirmation. */
  lemma {:induction false} LeaseIsConfirmation(cfg: Limits, qs: seq<Request>, n: nat, key: Key)
    requires cfg.max > 0 && n <= |qs|
    ensures var s := StateAfter(cfg, qs, n); var c := Confirmed(cfg, qs, n, key);
            && (key in s.leases <==> c.Some?)
            && (c.Some? ==> c.value == Confirmation(s.leases[key].digest, s.leases[key].fetchedAt))
  {
    if n > 0 {
      var q := qs[n - 1];
      LeaseIsConfirmation(cfg, qs, n - 1, key);
      if KeyOf(q) == key {
        OwnLease(cfg, StateAfter(cfg, qs, n - 1), q);
      } else {
        OtherTags(cfg, StateAfter(cfg, qs, n - 1), q, key);
      }
    }
  }

  lemma {:induction false} NegativeIsDenial(cfg: Limits, qs: seq<Request>, n: nat, key: Key)
    requires cfg.max > 0 && n <= |qs|
    ensures var s := StateAfter(cfg, qs, n); var d := Denied(cfg, qs, n, key);
            (key in s.negatives <==> d.Some?) && (d.Some? ==> d.value == s.negatives[key].observedAt)
  {
    if n > 0 {
      var q := qs[n - 1];
      NegativeIsDenial(cfg, qs, n - 1, key);
      if KeyOf(q) == key {
        OwnNegative(cfg, StateAfter(cfg, qs, n - 1), q);
      } else {
        OtherTags(cfg, StateAfter(cfg, qs, n - 1), q, key);
      }
    }
  }

  /** A hit names the digest last confirmed, less than the current time to live ago. */
  lemma HitWasConfirmed(cfg: Limits, qs: seq<Request>, i: nat)
    requires cfg.max > 0 && i < |qs|
    requires OutcomeAt(cfg, qs, i).answer.Ok? && OutcomeAt(cfg, qs, i).answer.value.hit
    ensures var c := Confirmed(cfg, qs, i, KeyOf(qs[i]));
            && c.Some? && c.value.digest == OutcomeAt(cfg, qs, i).answer.value.digest
            && qs[i].now - c.value.at < qs[i].target.tagTtl
    ensures OutcomeAt(cfg, qs, i).calls == []
  {
    LeaseIsConfirmation(cfg, qs, i, KeyOf(qs[i]));
  }

  /** A stale answer names the digest last confirmed, only where waiting may help and
      the repository is not strict, and does not count as a confirmation. */
  lemma StaleWasConfirmed(cfg: Limits, qs: seq<Request>, i: nat)
    requires cfg.max > 0 && i < |qs|
    requires OutcomeAt(cfg, qs, i).answer.Ok? && OutcomeAt(cfg, qs, i).answer.value.stale
    ensures var c, o, q := Confirmed(cfg, qs, i, KeyOf(qs[i])), OutcomeAt(cfg, qs, i), qs[i];
            && c.Some? && c.value.digest == o.answer.value.digest
            && o.answer.value.staleFor ==
                 (if q.now - c.value.at - q.target.tagTtl < 0 then 0 else q.now - c.value.at - q.target.tagTtl)
            && !q.target.strict
            && (if o.calls == [] then !May(StateAfter(cfg, qs, i).standings, UpstreamOf(q), q.now)
                else q.reply.Failed? && Degraded(q.reply.error))
            && Confirmed(cfg, qs, i + 1, KeyOf(q)) == c
  {
    LeaseIsConfirmation(cfg, qs, i, KeyOf(qs[i]));
    OwnLease(cfg, StateAfter(cfg, qs, i), qs[i]);
  }

  /** An absence answered from memory was the upstream's own, less than the current
      negative time to live ago, and nothing has been named since. */
  lemma AbsenceWasDenied(cfg: Limits, qs: seq<Request>, i: nat)
    requires cfg.max > 0 && i < |qs|
    requires OutcomeAt(cfg, qs, i).answer == Err(Upstream(NotFound)) && OutcomeAt(cfg, qs, i).calls == []
    ensures var d := Denied(cfg, qs, i, KeyOf(qs[i])); d.Some? && qs[i].now - d.value < qs[i].target.negativeTtl
  {
    NegativeIsDenial(cfg, qs, i, KeyOf(qs[i]));
  }

  /** A tag never has both a lease and a remembered absence. */
  lemma {:induction false} NeverBoth(cfg: Limits, qs: seq<Request>, n: nat, key: Key)
    requires cfg.max > 0 && n <= |qs|
    ensures !(key in StateAfter(cfg, qs, n).leases && key in StateAfter(cfg, qs, n).negatives)
  {
    if n > 0 {
      var s, q := StateAfter(cfg, qs, n - 1), qs[n - 1];
      NeverBoth(cfg, qs, n - 1, key);
      if KeyOf(q) == key {
        NeverBothStep(cfg, s, q);
      } else {
        OtherTags(cfg, s, q, key);
      }
    }
  }

  lemma NeverBothStep(cfg: Limits, s: State, q: Request)
    requires cfg.max > 0 && Sound(s.standings)
    requires !(KeyOf(q) in s.leases && KeyOf(q) in s.negatives)
    ensures var r := Step(cfg, s, q).state; !(KeyOf(q) in r.leases && KeyOf(q) in r.negatives)
  {
  }

  // ----- backing off -----

  ghost predicate Ordered(qs: seq<Request>) {
    && (forall i {:trigger qs[i]} :: 0 <= i < |qs| ==> qs[i].now <= qs[i].later)
    && (forall i, j {:trigger qs[i], qs[j]} :: 0 <= i < j < |qs| ==> qs[i].later <= qs[j].now)
  }

  /** Every call goes to the entity asked about, and to one that may be called. */
  lemma CallsAreReady(cfg: Limits, s: State, q: Request)
    requires cfg.max > 0 && Sound(s.standings) && q.now <= q.later
    ensures var o := Step(cfg, s, q);
            && (o.calls != [] ==> May(s.standings, UpstreamOf(q), q.now))
            && (forall c {:trigger c in o.calls} ::
                  c in o.calls ==> c.entity == UpstreamOf(q) && q.now <= c.at <= q.later)
  {
  }

  /** An entity nobody called keeps its standing. */
  lemma StandingKept(cfg: Limits, s: State, q: Request, entity: string)
    requires cfg.max > 0 && Sound(s.standings)
    requires entity in s.standings && (entity != UpstreamOf(q) || Step(cfg, s, q).calls == [])
    ensures var r := Step(cfg, s, q).state.standings; entity in r && r[entity] == s.standings[entity]
  {
  }

  lemma {:induction false} WindowHolds(cfg: Limits, qs: seq<Request>, entity: string, i: nat, j: nat)
    requires cfg.max > 0 && Ordered(qs) && i <= j < |qs| && entity in StateAfter(cfg, qs, i).standings
    requires UpstreamOf(qs[j]) == entity && OutcomeAt(cfg, qs, j).calls != []
    ensures qs[j].now >= StateAfter(cfg, qs, i).standings[entity].until
    decreases j - i
  {
    var s := StateAfter(cfg, qs, i);
    CallsAreReady(cfg, s, qs[i]);
    if i < j && (UpstreamOf(qs[i]) != entity || OutcomeAt(cfg, qs, i).calls == []) {
      StandingKept(cfg, s, qs[i], entity);
      WindowHolds(cfg, qs, entity, i + 1, j);
    } else if i < j {
      assert qs[i].now <= qs[i].later && qs[i].later <= qs[j].now;
    }
  }

  /** The throttling a step met: when, and the wait asked for. The tag's own lookup may
      meet it, or the fetch of the manifest a moved tag names. */
  ghost function Throttled(o: Outcome, q: Request): (r: Option<(Time, Option<int>)>) {
    if o.calls != [] && q.reply.Failed? && q.reply.error.RateLimited? then Some((q.now, q.reply.error.retryAfter))
    else if |o.calls| > 1 && q.fetch.Some? && q.fetch.value.RateLimited? then Some((q.later, q.fetch.value.retryAfter))
    else None
  }

  /** An end between the wait asked for, up to the cap, and the cap. */
  ghost predicate Window(cfg: Limits, t: (Time, Option<int>), until: Time) {
    && 0 <= until - t.0 <= cfg.max
    && (t.1.Some? ==> until - t.0 >= if t.1.value < cfg.max then t.1.value else cfg.max)
  }

  /** What a step makes of the entity's standing: throttling sets a window, and nothing else
      sets or moves one. */
  ghost predicate Stands(cfg: Limits, s: State, o: Outcome, q: Request) {
    var e, t := UpstreamOf(q), Throttled(o, q);
    if t.Some? then e in o.state.standings && Window(cfg, t.value, o.state.standings[e].until)
    else e in o.state.standings ==> e in s.standings && o.state.standings[e] == s.standings[e]
  }

  lemma FailedStands(cfg: Limits, s: State, q: Request)
    requires cfg.max > 0 && Sound(s.standings) && q.reply.Failed?
    ensures var e := UpstreamOf(q);
            var asked := s.(standings := Recorded(cfg, s.standings, e, q.now, Some(q.reply.error), q.draw));
            Stands(cfg, s, Failing(asked, q, q.reply.error, [Call(e, q.now)]), q)
  {
  }

  lemma ConfirmedStands(cfg: Limits, s: State, q: Request)
    requires cfg.max > 0 && Sound(s.standings) && q.reply.Replied? && UpstreamOf(q) !in s.standings
    ensures Stands(cfg, s, Confirming(cfg, s, q), q)
  {
  }

  /** Throttling sets a window; nothing else sets or moves one. */
  lemma ThrottledStanding(cfg: Limits, s: State, q: Request)
    requires cfg.max > 0 && Sound(s.standings)
    ensures Stands(cfg, s, Step(cfg, s, q), q)
  {
    if q.reply.Failed? {
      FailedStands(cfg, s, q);
    } else {
      var e := UpstreamOf(q);
      var asked := s.(standings := Recorded(cfg, s.standings, e, q.now, None, q.draw));
      ConfirmedStands(cfg, asked.(negatives := asked.negatives - {KeyOf(q)}), q);
    }
  }

  /** After any step that met throttling, nothing calls that entity before its window ends. */
  lemma NoCallInWindow(cfg: Limits, qs: seq<Request>, i: nat, j: nat)
    requires cfg.max > 0 && Ordered(qs) && i < j < |qs| && UpstreamOf(qs[j]) == UpstreamOf(qs[i])
    requires Throttled(OutcomeAt(cfg, qs, i), qs[i]).Some?
    ensures var e, after := UpstreamOf(qs[i]), StateAfter(cfg, qs, i + 1).standings;
            var t := Throttled(OutcomeAt(cfg, qs, i), qs[i]).value;
            && e in after && Window(cfg, t, after[e].until)
            && forall c {:trigger c in OutcomeAt(cfg, qs, j).calls} ::
                 c in OutcomeAt(cfg, qs, j).calls ==> c.at >= after[e].until
  {
    ThrottledStanding(cfg, StateAfter(cfg, qs, i), qs[i]);
    CallsAreReady(cfg, StateAfter(cfg, qs, j), qs[j]);
    if OutcomeAt(cfg, qs, j).calls != [] {
      WindowHolds(cfg, qs, UpstreamOf(qs[i]), i + 1, j);
    }
  }

  // ----- where an answer is not a confirmation -----

  /** What a request means for a tag: the upstream names a digest, withdraws it, or neither. */
  datatype Touch = Aside | Naming | Withdrawal

  ghost function TouchOf(o: Outcome, q: Request, key: Key): (t: Touch) {
    if KeyOf(q) != key then Aside else if Named(o, q) then Naming else if SaidGone(o, q) then Withdrawal else Aside
  }

  ghost function Touches(cfg: Limits, qs: seq<Request>, n: nat, key: Key): (ts: seq<Touch>)
    requires cfg.max > 0 && n <= |qs|
    ensures |ts| == n && forall i {:trigger ts[i]} :: 0 <= i < n ==> ts[i] == TouchOf(OutcomeAt(cfg, qs, i), qs[i], key)
  {
    seq(n, i requires 0 <= i < n => TouchOf(OutcomeAt(cfg, qs, i), qs[i], key))
  }

  /** The last naming that no withdrawal follows. */
  ghost function LastIn(ts: seq<Touch>): (r: Option<nat>)
    ensures r.Some? ==> r.value < |ts| && ts[r.value].Naming?
  {
    if ts == [] then None
    else
      match ts[|ts| - 1]
      case Naming => Some(|ts| - 1)
      case Withdrawal => None
      case Aside => LastIn(ts[..|ts| - 1])
  }

  /** The request at which the upstream last named a digest for a tag, kept or not, unless
      it has withdrawn the tag since. */
  ghost function LastNaming(cfg: Limits, qs: seq<Request>, n: nat, key: Key): (r: Option<nat>)
    requires cfg.max > 0 && n <= |qs|
    ensures r.Some? ==> r.value < n && KeyOf(qs[r.value]) == key && Named(OutcomeAt(cfg, qs, r.value), qs[r.value])
  {
    LastIn(Touches(cfg, qs, n, key))
  }

  ghost predicate SameLease(s: State, r: State, key: Key) {
    (key in r.leases <==> key in s.leases) && (key in s.leases ==> r.leases[key].digest == s.leases[key].digest)
  }

  lemma SameLeaseOn(a: State, s: State, r: State, key: Key)
    requires SameLease(a, s, key) && SameLease(s, r, key)
    ensures SameLease(a, r, key)
  {
  }

  /** What a touch does to the lease. */
  ghost predicate Moves(s: State, t: Touch, r: State, key: Key) {
    match t
    case Aside => SameLease(s, r, key)
    case Withdrawal => key !in r.leases
    case Naming => true
  }

  lemma TouchMoves(cfg: Limits, s: State, q: Request, key: Key)
    requires cfg.max > 0 && Sound(s.standings)
    ensures Moves(s, TouchOf(Step(cfg, s, q), q, key), Step(cfg, s, q).state, key)
  {
    if KeyOf(q) == key { OwnLease(cfg, s, q); } else { OtherTags(cfg, s, q, key); }
  }

  lemma {:induction false} SinceLastIn(ss: seq<State>, ts: seq<Touch>, key: Key)
    requires |ss| == |ts| + 1 && key !in ss[0].leases
    requires forall i {:trigger ts[i]} :: 0 <= i < |ts| ==> Moves(ss[i], ts[i], ss[i + 1], key)
    ensures var l := LastIn(ts);
            if l.None? then key !in ss[|ts|].leases else SameLease(ss[l.value + 1], ss[|ts|], key)
  {
    if ts != [] {
      var n := |ts| - 1;
      var front, before := ts[..n], ss[..n + 1];
      forall i | 0 <= i < n ensures Moves(before[i], front[i], before[i + 1], key) { assert front[i] == ts[i]; }
      SinceLastIn(before, front, key);
      assert Moves(ss[n], ts[n], ss[n + 1], key);
      if ts[n].Aside? && LastIn(front).Some? { SameLeaseOn(ss[LastIn(front).value + 1], ss[n], ss[n + 1], key); }
    }
  }

  ghost function States(cfg: Limits, qs: seq<Request>, n: nat): (ss: seq<State>)
    requires cfg.max > 0 && n <= |qs|
    ensures |ss| == n + 1 && forall i {:trigger ss[i]} :: 0 <= i <= n ==> ss[i] == StateAfter(cfg, qs, i)
  {
    seq(n + 1, i requires 0 <= i <= n => StateAfter(cfg, qs, i))
  }

  lemma RequestMoves(cfg: Limits, qs: seq<Request>, i: nat, key: Key)
    requires cfg.max > 0 && i < |qs|
    ensures Moves(StateAfter(cfg, qs, i), TouchOf(OutcomeAt(cfg, qs, i), qs[i], key), StateAfter(cfg, qs, i + 1), key)
  {
    TouchMoves(cfg, StateAfter(cfg, qs, i), qs[i], key);
  }

  lemma TouchesMove(cfg: Limits, qs: seq<Request>, n: nat, key: Key, ss: seq<State>, ts: seq<Touch>)
    requires cfg.max > 0 && n <= |qs| && ss == States(cfg, qs, n) && ts == Touches(cfg, qs, n, key)
    ensures forall i {:trigger ts[i]} :: 0 <= i < n ==> Moves(ss[i], ts[i], ss[i + 1], key)
  {
    forall i | 0 <= i < n ensures Moves(ss[i], ts[i], ss[i + 1], key) { RequestMoves(cfg, qs, i, key); }
  }

  /** After the last naming the lease's digest does not move. */
  lemma LeaseSinceNaming(cfg: Limits, qs: seq<Request>, n: nat, key: Key)
    requires cfg.max > 0 && n <= |qs|
    ensures var l, s := LastNaming(cfg, qs, n, key), StateAfter(cfg, qs, n);
            if l.None? then key !in s.leases else SameLease(StateAfter(cfg, qs, l.value + 1), s, key)
  {
    var ss, ts := States(cfg, qs, n), Touches(cfg, qs, n, key);
    TouchesMove(cfg, qs, n, key, ss, ts);
    assert ss[0] == EMPTY && ss[n] == StateAfter(cfg, qs, n);
    SinceLastIn(ss, ts, key);
    if LastIn(ts).Some? { assert ss[LastIn(ts).value + 1] == StateAfter(cfg, qs, LastIn(ts).value + 1); }
  }

  lemma LeaseAtNaming(cfg: Limits, s: State, q: Request)
    requires cfg.max > 0 && Sound(s.standings) && Named(Step(cfg, s, q), q) && KeyOf(q) in Step(cfg, s, q).state.leases
    ensures (Step(cfg, s, q).state.leases[KeyOf(q)].digest == NamedDigest(s, q)) <==>
            (SaidSame(s, q) || Usable(q) || (KeyOf(q) in s.leases && s.leases[KeyOf(q)].digest == q.reply.digest))
  {
    OwnLease(cfg, s, q);
  }

  /** A stale answer is the digest the upstream last named exactly when, at that request,
      the content named could be held, or was what the lease named already. */
  lemma StaleIsLastNamedIff(cfg: Limits, qs: seq<Request>, i: nat)
    requires cfg.max > 0 && i < |qs|
    requires OutcomeAt(cfg, qs, i).answer.Ok? && OutcomeAt(cfg, qs, i).answer.value.stale
    ensures var l, key := LastNaming(cfg, qs, i, KeyOf(qs[i])), KeyOf(qs[i]);
            && l.Some?
            && var s, q := StateAfter(cfg, qs, l.value), qs[l.value];
            (OutcomeAt(cfg, qs, i).answer.value.digest == NamedDigest(s, q)) <==>
            (SaidSame(s, q) || Usable(q) || (key in s.leases && s.leases[key].digest == q.reply.digest))
  {
    StaleIsTheLease(cfg, StateAfter(cfg, qs, i), qs[i]);
    LeaseSinceNaming(cfg, qs, i, KeyOf(qs[i]));
    var j := LastNaming(cfg, qs, i, KeyOf(qs[i])).value;
    LeaseAtNaming(cfg, StateAfter(cfg, qs, j), qs[j]);
  }

  lemma StaleIsTheLease(cfg: Limits, s: State, q: Request)
    requires cfg.max > 0 && Sound(s.standings)
    requires Step(cfg, s, q).answer.Ok? && Step(cfg, s, q).answer.value.stale
    ensures KeyOf(q) in s.leases && Step(cfg, s, q).answer.value.digest == s.leases[KeyOf(q)].digest
  {
  }

  /** The upstream moved a tag to content that could not be kept, then went away:
      the answer served is the one before, not the last digest the upstream named. */
  lemma StaleAfterUnusable()
    ensures var cfg, t := Limits(1, 1), Target("hub/app", 1, 1, false);
            var named :=
              (d, now, parses) => Request(t, "v1", now, false, false, Replied(true, d, "", true), (x: int) => 0, parses,
                Miss, now, None);
            var down := Request(t, "v1", 20, false, false, Failed(Unreachable), (x: int) => 0, true, Miss, 20, None);
            OutcomeAt(cfg, [named("a", 0, true), named("b", 10, false), down], 2).answer ==
              Ok(Resolution("a", false, false, false, true, 19))
  {
    var cfg, t := Limits(1, 1), Target("hub/app", 1, 1, false);
    var draw := (x: int) => 0;
    var first := Request(t, "v1", 0, false, false, Replied(true, "a", "", true), draw, true, Miss, 0, None);
    var second := Request(t, "v1", 10, false, false, Replied(true, "b", "", true), draw, false, Miss, 10, None);
    var third := Request(t, "v1", 20, false, false, Failed(Unreachable), draw, true, Miss, 20, None);
    var key := Key("hub/app", "v1");
    var s1 := Step(cfg, EMPTY, first).state;
    assert s1.leases == map[key := Lease("a", "", 0, 1, false)];
    var s2 := Step(cfg, s1, second).state;
    assert s2.leases == s1.leases;
    assert Step(cfg, s2, third).answer == Ok(Resolution("a", false, false, false, true, 19));
  }
}
