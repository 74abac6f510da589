/**
 The in-process event bus as an interleaving of publishers, subscribers and
 consumer goroutines: every atomic section is a step, and steps come in any order
 the locks allow. Models internal/event/bus.go.
 */
module EventBus {
  import opened Order

  type Id = nat

  datatype Event = Event(id: string, kind: string, wellFormed: bool)

  datatype Phase = Running | Draining | Done

  /** One consumer: its queue, and everything ever accepted for it and handed to it. */
  datatype Subscriber = Subscriber(
    all: bool, kinds: set<string>, depth: nat,
    queue: seq<Event>, stopped: bool, phase: Phase,
    accepted: seq<Event>, delivered: seq<Event>, dropped: nat)

  /** A publisher inside the read lock: the event and whom it has yet to offer it to. */
  datatype Publishing = Publishing(event: Event, remaining: seq<Id>)

  datatype Bus = Bus(
    subscribers: map<Id, Subscriber>, listed: seq<Id>, leaving: set<Id>, closed: bool,
    active: map<Id, Publishing>,
    published: nat, refused: nat, dropped: nat, panicked: nat)

  datatype Step =
    | Subscribe(id: Id, all: bool, kinds: set<string>, depth: nat)
    | Remove(id: Id)
    | Close
    | Stop(id: Id)
    | Begin(publisher: Id, event: Event)
    | Offer(publisher: Id)
    | End(publisher: Id)
    | Deliver(id: Id, panics: bool)
    | NoticeStop(id: Id)
    | Finish(id: Id)

  const EMPTY := Bus(map[], [], {}, false, map[], 0, 0, 0, 0)

  predicate Wants(s: Subscriber, e: Event) { s.all || e.kind in s.kinds }

  function Without(ids: seq<Id>, id: Id): (r: seq<Id>) {
    if ids == [] then [] else (if ids[0] == id then [] else [ids[0]]) + Without(ids[1..], id)
  }

  /** Whether the locks and channels let the step happen now. The write lock waits for
      every publisher to leave; a send waits for nothing. */
  predicate Enabled(b: Bus, s: Step) {
    match s
    case Subscribe(id, _, _, depth) => b.active == map[] && !b.closed && id !in b.subscribers && depth > 0
    case Remove(id) => b.active == map[] && id in b.subscribers
    case Close => b.active == map[] && !b.closed
    case Stop(id) => id in b.leaving && id in b.subscribers
    case Begin(p, _) => p !in b.active
    case Offer(p) => p in b.active && b.active[p].remaining != []
    case End(p) => p in b.active && b.active[p].remaining == []
    case Deliver(id, _) => id in b.subscribers && b.subscribers[id].queue != [] && !b.subscribers[id].phase.Done?
    case NoticeStop(id) => id in b.subscribers && b.subscribers[id].stopped && b.subscribers[id].phase.Running?
    case Finish(id) => id in b.subscribers && b.subscribers[id].queue == [] && b.subscribers[id].phase.Draining?
  }

  /** One offer: queued if there is room, dropped and counted if there is none. */
  function Offered(s: Subscriber, e: Event): (r: Subscriber) {
    if !Wants(s, e) then s
    else if |s.queue| < s.depth then s.(queue := s.queue + [e], accepted := s.accepted + [e])
    else s.(dropped := s.dropped + 1)
  }

  function After(b: Bus, s: Step): (r: Bus) {
    if !Enabled(b, s) then b
    else
      match s
      case Subscribe(id, all, kinds, depth) =>
        b.(subscribers := b.subscribers[id := Subscriber(all, kinds, depth, [], false, Running, [], [], 0)],
          listed := b.listed + [id])
      case Remove(id) => b.(listed := Without(b.listed, id), leaving := b.leaving + {id})
      case Close => b.(closed := true, listed := [], leaving := b.leaving + set id | id in b.listed)
      case Stop(id) => b.(subscribers := b.subscribers[id := b.subscribers[id].(stopped := true)])
      case Begin(p, e) =>
        if !e.wellFormed || b.closed then b.(refused := b.refused + 1)
        else b.(published := b.published + 1, active := b.active[p := Publishing(e, b.listed)])
      case Offer(p) =>
        var pub := b.active[p];
        var id := pub.remaining[0];
        var next := b.(active := b.active[p := pub.(remaining := pub.remaining[1..])]);
        if id !in b.subscribers then next
        else
          next.(subscribers := b.subscribers[id := Offered(b.subscribers[id], pub.event)],
            dropped := b.dropped + (Offered(b.subscribers[id], pub.event).dropped - b.subscribers[id].dropped))
      case End(p) => b.(active := b.active - {p})
      case Deliver(id, panics) =>
        var q := b.subscribers[id];
        b.(subscribers := b.subscribers[id := q.(queue := q.queue[1..], delivered := q.delivered + [q.queue[0]])],
          panicked := b.panicked + (if panics then 1 else 0))
      case NoticeStop(id) => b.(subscribers := b.subscribers[id := b.subscribers[id].(phase := Draining)])
      case Finish(id) => b.(subscribers := b.subscribers[id := b.subscribers[id].(phase := Done)])
  }

  function Play(b: Bus, t: seq<Step>): (r: Bus) {
    if t == [] then b else After(Play(b, t[..|t| - 1]), t[|t| - 1])
  }

  // ----- what always holds -----

  /** First in, first out, nothing lost, nothing doubled, within the bound. */
  ghost predicate Flows(s: Subscriber) {
    && s.accepted == s.delivered + s.queue && |s.queue| <= s.depth
    && (forall i {:trigger s.accepted[i]} :: 0 <= i < |s.accepted| ==> Wants(s, s.accepted[i]))
    && (s.phase.Done? ==> s.queue == [])
    && (!s.phase.Running? ==> s.stopped)
  }

  /** Whoever is still offered events has not been told to stop. */
  ghost predicate Listening(b: Bus, id: Id) {
    id in b.subscribers && id in b.listed && id !in b.leaving && !b.subscribers[id].stopped
  }

  ghost predicate Inv(b: Bus) {
    && (forall id {:trigger b.subscribers[id]} ::
          id in b.subscribers ==> Flows(b.subscribers[id]) && (b.subscribers[id].stopped ==> id in b.leaving))
    && (forall id {:trigger id in b.listed} :: id in b.listed ==> Listening(b, id))
    && (forall id {:trigger id in b.leaving} :: id in b.leaving ==> id in b.subscribers)
    && (forall p {:trigger b.active[p]} ::
          p in b.active ==>
            forall k {:trigger b.active[p].remaining[k]} ::
             0 <= k < |b.active[p].remaining| ==> b.active[p].remaining[k] in b.listed)
  }

  lemma {:induction false} WithoutMeaning(ids: seq<Id>, id: Id)
    ensures forall x :: x in Without(ids, id) <==> x in ids && x != id
  {
    if ids != [] {
      WithoutMeaning(ids[1..], id);
      assert ids == [ids[0]] + ids[1..];
    }
  }

  /** Changing one subscriber, keeping what the others and the lists rely on. */
  lemma KeepOne(b: Bus, id: Id, s: Subscriber)
    requires Inv(b) && id in b.subscribers && Flows(s) && (s.stopped ==> id in b.leaving)
    ensures Inv(b.(subscribers := b.subscribers[id := s]))
  {
    var r := b.(subscribers := b.subscribers[id := s]);
    forall x | x in r.listed ensures Listening(r, x) { assert Listening(b, x); }
    forall p | p in r.active
      ensures forall k {:trigger r.active[p].remaining[k]} ::
               0 <= k < |r.active[p].remaining| ==> r.active[p].remaining[k] in r.listed
    {
      assert r.active[p] == b.active[p];
    }
  }

  lemma SubscribeKeeps(b: Bus, s: Step)
    requires Inv(b) && Enabled(b, s) && (s.Subscribe? || s.Remove? || s.Close?)
    ensures Inv(After(b, s))
  {
    var r := After(b, s);
    if s.Remove? { WithoutMeaning(b.listed, s.id); }
    forall x | x in r.listed ensures Listening(r, x) {
      if s.Subscribe? && x == s.id {
        assert x !in b.leaving;
      } else {
        assert x in b.listed && Listening(b, x);
      }
    }
  }

  lemma OfferedFlows(s: Subscriber, e: Event)
    requires Flows(s) && !s.stopped
    ensures Flows(Offered(s, e)) && !Offered(s, e).stopped
  {
    var r := Offered(s, e);
    if r != s && r.queue != s.queue {
      assert r.delivered + r.queue == (s.delivered + s.queue) + [e];
    }
  }

  lemma OfferKeeps(b: Bus, p: Id)
    requires Inv(b) && Enabled(b, Offer(p))
    ensures Inv(After(b, Offer(p)))
  {
    var pub := b.active[p];
    var id := pub.remaining[0];
    assert id in b.listed && Listening(b, id);
    OfferedFlows(b.subscribers[id], pub.event);
    var mid := b.(active := b.active[p := pub.(remaining := pub.remaining[1..])]);
    forall q | q in mid.active
      ensures forall k {:trigger mid.active[q].remaining[k]} ::
               0 <= k < |mid.active[q].remaining| ==> mid.active[q].remaining[k] in mid.listed
    {
      if q == p {
        forall k | 0 <= k < |pub.remaining| - 1
          ensures pub.remaining[1..][k] in mid.listed
        {
          assert pub.remaining[k + 1] in b.listed;
        }
      } else {
        assert mid.active[q] == b.active[q];
      }
    }
    forall x | x in mid.listed ensures Listening(mid, x) { assert Listening(b, x); }
    assert Inv(mid);
    KeepOne(mid, id, Offered(b.subscribers[id], pub.event));
  }

  lemma ConsumeKeeps(b: Bus, s: Step)
    requires Inv(b) && Enabled(b, s) && (s.Stop? || s.Deliver? || s.NoticeStop? || s.Finish?)
    ensures Inv(After(b, s))
  {
    var q := b.subscribers[s.id];
    assert Flows(q);
    if s.Deliver? {
      assert q.queue == [q.queue[0]] + q.queue[1..];
      var next := q.(queue := q.queue[1..], delivered := q.delivered + [q.queue[0]]);
      assert next.delivered + next.queue == q.delivered + q.queue;
      KeepOne(b, s.id, next);
    } else if s.NoticeStop? {
      KeepOne(b, s.id, q.(phase := Draining));
    } else if s.Finish? {
      KeepOne(b, s.id, q.(phase := Done));
    } else {
      StopKeeps(b, s.id);
    }
  }

  lemma StopKeeps(b: Bus, id: Id)
    requires Inv(b) && id in b.leaving && id in b.subscribers
    ensures Inv(After(b, Stop(id)))
  {
    var q := b.subscribers[id].(stopped := true);
    assert Flows(b.subscribers[id]);
    assert id !in b.listed;
    KeepOne(b, id, q);
  }

  lemma PublishKeeps(b: Bus, s: Step)
    requires Inv(b) && Enabled(b, s) && (s.Begin? || s.End?)
    ensures Inv(After(b, s))
  {
    var r := After(b, s);
    forall x | x in r.listed ensures Listening(r, x) { assert Listening(b, x); }
    forall p | p in r.active
      ensures forall k {:trigger r.active[p].remaining[k]} ::
               0 <= k < |r.active[p].remaining| ==> r.active[p].remaining[k] in r.listed
    {
      if p in b.active { assert r.active[p] == b.active[p]; }
    }
  }

  lemma StepKeeps(b: Bus, s: Step)
    requires Inv(b)
    ensures Inv(After(b, s))
  {
    if Enabled(b, s) {
      match s {
        case Subscribe(_, _, _, _) => SubscribeKeeps(b, s);
        case Remove(_) => SubscribeKeeps(b, s);
        case Close => SubscribeKeeps(b, s);
        case Stop(_) => ConsumeKeeps(b, s);
        case Begin(_, _) => PublishKeeps(b, s);
        case Offer(p) => OfferKeeps(b, p);
        case End(_) => PublishKeeps(b, s);
        case Deliver(_, _) => ConsumeKeeps(b, s);
        case NoticeStop(_) => ConsumeKeeps(b, s);
        case Finish(_) => ConsumeKeeps(b, s);
      }
    }
  }

  /** Over every interleaving, each consumer has been handed exactly a prefix of what was
      accepted for it, in order, with the rest in its queue. */
  lemma {:induction false} AlwaysFlows(t: seq<Step>)
    ensures Inv(Play(EMPTY, t))
  {
    if t != [] {
      AlwaysFlows(t[..|t| - 1]);
      StepKeeps(Play(EMPTY, t[..|t| - 1]), t[|t| - 1]);
    }
  }

  // ----- shutting down loses nothing -----

  /** Once a consumer has been told to stop, nobody offers it anything more. */
  lemma StoppedIsLeftAlone(b: Bus, s: Step, id: Id)
    requires Inv(b) && id in b.subscribers && b.subscribers[id].stopped
    ensures id in After(b, s).subscribers && After(b, s).subscribers[id].stopped
    ensures After(b, s).subscribers[id].accepted == b.subscribers[id].accepted
    ensures b.subscribers[id].phase.Done? ==> After(b, s).subscribers[id] == b.subscribers[id]
  {
    if s.Offer? && Enabled(b, s) {
      var to := b.active[s.publisher].remaining[0];
      assert to in b.listed && Listening(b, to);
    }
  }

  lemma {:induction false} StoppedStays(b: Bus, t: seq<Step>, id: Id)
    requires Inv(b) && id in b.subscribers && b.subscribers[id].stopped
    ensures Inv(Play(b, t)) && id in Play(b, t).subscribers && Play(b, t).subscribers[id].stopped
    ensures Play(b, t).subscribers[id].accepted == b.subscribers[id].accepted
    ensures b.subscribers[id].phase.Done? ==> Play(b, t).subscribers[id] == b.subscribers[id]
  {
    if t != [] {
      var front := t[..|t| - 1];
      StoppedStays(b, front, id);
      StepKeeps(Play(b, front), t[|t| - 1]);
      StoppedIsLeftAlone(Play(b, front), t[|t| - 1], id);
    }
  }

  /** A consumer that has finished was handed everything ever accepted for it, and
      nothing is accepted for it afterwards, whatever else happens. */
  lemma FinishedMeansDelivered(t: seq<Step>, more: seq<Step>, id: Id)
    requires id in Play(EMPTY, t).subscribers && Play(EMPTY, t).subscribers[id].phase.Done?
    ensures var s := Play(EMPTY, t).subscribers[id]; s.delivered == s.accepted && s.queue == []
    ensures
      && id in Play(Play(EMPTY, t), more).subscribers
      && Play(Play(EMPTY, t), more).subscribers[id] == Play(EMPTY, t).subscribers[id]
  {
    AlwaysFlows(t);
    var s := Play(EMPTY, t).subscribers[id];
    assert Flows(s);
    StoppedStays(Play(EMPTY, t), more, id);
  }

  /** What a stopped consumer has left to do: its queue, noticing the stop, finishing. */
  ghost function Remaining(s: Subscriber): (n: nat) {
    |s.queue| + (match s.phase case Running => 2 case Draining => 1 case Done => 0)
  }

  /** The consumer's own steps. */
  ghost predicate OwnStep(s: Step, id: Id) { (s.Deliver? || s.NoticeStop? || s.Finish?) && s.id == id }

  /** How many steps of its own it took. */
  ghost function OwnSteps(b: Bus, t: seq<Step>, id: Id): (n: nat) {
    if t == [] then 0
    else
      var was, s := Play(b, t[..|t| - 1]), t[|t| - 1];
      OwnSteps(b, t[..|t| - 1], id) + (if OwnStep(s, id) && Enabled(was, s) then 1 else 0)
  }

  lemma DrainStep(b: Bus, s: Step, id: Id)
    requires Inv(b) && id in b.subscribers && b.subscribers[id].stopped
    ensures id in After(b, s).subscribers
    ensures Remaining(b.subscribers[id]) ==
          Remaining(After(b, s).subscribers[id]) + (if OwnStep(s, id) && Enabled(b, s) then 1 else 0)
  {
    if s.Offer? && Enabled(b, s) {
      var to := b.active[s.publisher].remaining[0];
      assert to in b.listed && Listening(b, to);
    }
  }

  lemma {:induction false} DrainCounts(b: Bus, t: seq<Step>, id: Id)
    requires Inv(b) && id in b.subscribers && b.subscribers[id].stopped
    ensures id in Play(b, t).subscribers
    ensures Remaining(Play(b, t).subscribers[id]) + OwnSteps(b, t, id) == Remaining(b.subscribers[id])
  {
    if t != [] {
      var front := t[..|t| - 1];
      DrainCounts(b, front, id);
      StoppedStays(b, front, id);
      DrainStep(Play(b, front), t[|t| - 1], id);
    }
  }

  /** Some step of the consumer's own is possible. */
  ghost predicate MayProceed(b: Bus, id: Id) {
    Enabled(b, Deliver(id, false)) || Enabled(b, NoticeStop(id)) || Enabled(b, Finish(id))
  }

  lemma DrainNotStuck(b: Bus, id: Id)
    requires Inv(b) && id in b.subscribers && b.subscribers[id].stopped
    ensures b.subscribers[id].phase.Done? <==> Remaining(b.subscribers[id]) == 0
    ensures b.subscribers[id].phase.Done? || MayProceed(b, id)
    ensures b.subscribers[id].delivered + b.subscribers[id].queue == b.subscribers[id].accepted
  {
    assert Flows(b.subscribers[id]);
  }

  /** Over every interleaving from the stop on, each step of the consumer's own brings its end
      one step nearer and nobody else's moves it; until then one of its own is possible, and
      delivered and queued together stay what had been accepted. */
  lemma DrainAlwaysProgresses(b: Bus, t: seq<Step>, id: Id)
    requires Inv(b) && id in b.subscribers && b.subscribers[id].stopped
    ensures id in Play(b, t).subscribers
    ensures var s := Play(b, t).subscribers[id];
            && Remaining(s) + OwnSteps(b, t, id) == Remaining(b.subscribers[id])
            && (s.phase.Done? <==> Remaining(s) == 0) && (s.phase.Done? || MayProceed(Play(b, t), id))
            && s.delivered + s.queue == b.subscribers[id].accepted
  {
    DrainCounts(b, t, id);
    StoppedStays(b, t, id);
    DrainNotStuck(Play(b, t), id);
  }

  /** A stopped consumer finishes in as many deliveries as it has queued, panicking or not. */
  lemma {:induction false} DrainFinishes(b: Bus, id: Id, panics: seq<bool>) returns (t: seq<Step>)
    requires Inv(b) && id in b.subscribers && b.subscribers[id].stopped && !b.subscribers[id].phase.Done?
    requires |panics| == |b.subscribers[id].queue|
    ensures id in Play(b, t).subscribers && Play(b, t).subscribers[id].phase.Done?
    ensures Play(b, t).subscribers[id].delivered == b.subscribers[id].accepted
    ensures |t| <= |panics| + 2
    decreases |panics|
  {
    var s := b.subscribers[id];
    assert Flows(s);
    if panics == [] {
      t := if s.phase.Running? then [NoticeStop(id), Finish(id)] else [Finish(id)];
      PlayShort(b, t);
    } else {
      var next := After(b, Deliver(id, panics[0]));
      StepKeeps(b, Deliver(id, panics[0]));
      var rest := DrainFinishes(next, id, panics[1..]);
      t := [Deliver(id, panics[0])] + rest;
      PlayCons(b, Deliver(id, panics[0]), rest);
    }
  }

  lemma PlayShort(b: Bus, t: seq<Step>)
    requires |t| == 1 || |t| == 2
    ensures Play(b, t) == if |t| == 1 then After(b, t[0]) else After(After(b, t[0]), t[1])
  {
    assert t[..1] == [t[0]] && [t[0]][..0] == [];
    assert Play(b, [t[0]]) == After(b, t[0]);
  }

  lemma {:induction false} PlayCons(b: Bus, s: Step, t: seq<Step>)
    ensures Play(b, [s] + t) == Play(After(b, s), t)
  {
    if t == [] {
      assert ([s] + t)[..0] == [] && [s] + t == [s];
    } else {
      PlayCons(b, s, t[..|t| - 1]);
      assert ([s] + t)[..|t|] == [s] + t[..|t| - 1];
    }
  }

  // ----- every offer is accounted for -----

  /** A publication began while the subscriber was listed, and it wants the event. */
  ghost predicate Owes(b: Bus, s: Step, id: Id) {
    && s.Begin? && Enabled(b, s) && s.event.wellFormed && !b.closed
    && id in b.listed && id in b.subscribers && Wants(b.subscribers[id], s.event)
  }

  /** How many wanted publications began while the subscriber was listed. */
  ghost function Due(t: seq<Step>, id: Id): (n: nat) {
    if t == [] then 0 else Due(t[..|t| - 1], id) + (if Owes(Play(EMPTY, t[..|t| - 1]), t[|t| - 1], id) then 1 else 0)
  }

  /** The publishers that have yet to offer it an event it wants. */
  ghost function Waiting(b: Bus, id: Id): (r: set<Id>)
    requires id in b.subscribers
  {
    set p | p in b.active && id in b.active[p].remaining && Wants(b.subscribers[id], b.active[p].event)
  }

  /** Nobody is listed, or about to be offered an event, twice. */
  ghost predicate Once(b: Bus) {
    Distinct(b.listed) && forall p {:trigger b.active[p]} :: p in b.active ==> Distinct(b.active[p].remaining)
  }

  lemma {:induction false} WithoutDistinct(ids: seq<Id>, id: Id)
    requires Distinct(ids)
    ensures Distinct(Without(ids, id))
  {
    if ids != [] {
      var rest := ids[1..];
      forall i, j | 0 <= i < j < |rest| ensures rest[i] != rest[j] { assert ids[i + 1] != ids[j + 1]; }
      WithoutDistinct(rest, id);
      WithoutMeaning(rest, id);
      assert ids[0] !in rest;
    }
  }

  lemma OnceStep(b: Bus, s: Step)
    requires Inv(b) && Once(b)
    ensures Once(After(b, s))
  {
    if Enabled(b, s) {
      if s.Remove? { WithoutDistinct(b.listed, s.id); }
      if s.Subscribe? { assert s.id in b.listed ==> Listening(b, s.id); }
      if s.Offer? {
        var ids := b.active[s.publisher].remaining;
        assert Distinct(ids);
        forall i, j | 0 <= i < j < |ids| - 1 ensures ids[1..][i] != ids[1..][j] { assert ids[i + 1] != ids[j + 1]; }
      }
    }
  }

  ghost function Handled(b: Bus, id: Id): (n: nat)
    requires id in b.subscribers
  {
    |b.subscribers[id].accepted| + b.subscribers[id].dropped
  }

  /** Whether the next offer goes to this subscriber and is wanted. */
  ghost predicate Reaches(b: Bus, p: Id, id: Id)
    requires Enabled(b, Offer(p)) && id in b.subscribers
  {
    b.active[p].remaining[0] == id && Wants(b.subscribers[id], b.active[p].event)
  }

  lemma OfferHandles(b: Bus, p: Id, id: Id)
    requires id in b.subscribers && Enabled(b, Offer(p))
    ensures var r := After(b, Offer(p));
        id in r.subscribers && Handled(r, id) == Handled(b, id) + (if Reaches(b, p, id) then 1 else 0)
  {
  }

  lemma StillRemaining(ids: seq<Id>, id: Id)
    requires Distinct(ids) && ids != []
    ensures id in ids[1..] <==> id in ids && id != ids[0]
  {
    assert ids == [ids[0]] + ids[1..];
  }

  lemma OfferSettles(b: Bus, p: Id, id: Id)
    requires Once(b) && id in b.subscribers && Enabled(b, Offer(p))
    ensures Waiting(After(b, Offer(p)), id) == if Reaches(b, p, id) then Waiting(b, id) - {p} else Waiting(b, id)
    ensures Reaches(b, p, id) ==> p in Waiting(b, id)
  {
    assert Distinct(b.active[p].remaining);
    StillRemaining(b.active[p].remaining, id);
  }

  lemma OfferAccounts(b: Bus, p: Id, id: Id)
    requires Once(b) && id in b.subscribers && Enabled(b, Offer(p))
    ensures var r := After(b, Offer(p));
        id in r.subscribers && Handled(r, id) + |Waiting(r, id)| == Handled(b, id) + |Waiting(b, id)|
  {
    OfferHandles(b, p, id);
    OfferSettles(b, p, id);
  }

  lemma BeginOwes(b: Bus, s: Step, id: Id)
    requires id in b.subscribers && s.Begin?
    ensures After(b, s).subscribers == b.subscribers
    ensures Waiting(After(b, s), id) == if Owes(b, s, id) then Waiting(b, id) + {s.publisher} else Waiting(b, id)
    ensures Owes(b, s, id) ==> s.publisher !in Waiting(b, id)
  {
  }

  lemma BeginAccounts(b: Bus, s: Step, id: Id)
    requires id in b.subscribers && s.Begin?
    ensures var r := After(b, s);
        && id in r.subscribers
        && Handled(r, id) + |Waiting(r, id)| == Handled(b, id) + |Waiting(b, id)| + (if Owes(b, s, id) then 1 else 0)
  {
    BeginOwes(b, s, id);
  }

  lemma OtherAccounts(b: Bus, s: Step, id: Id)
    requires id in b.subscribers && !s.Begin? && !s.Offer?
    ensures var r := After(b, s);
        id in r.subscribers && Handled(r, id) == Handled(b, id) && Waiting(r, id) == Waiting(b, id)
  {
  }

  lemma JoinAccounts(b: Bus, s: Step, id: Id)
    requires id !in b.subscribers && id in After(b, s).subscribers
    ensures Handled(After(b, s), id) == 0 && Waiting(After(b, s), id) == {} && !s.Begin?
  {
  }

  /** Over every interleaving: every wanted publication begun while a subscriber was
      listed was accepted for it, was dropped and counted, or is still to be offered. */
  lemma {:induction false} OffersAddUp(t: seq<Step>, id: Id)
    ensures Once(Play(EMPTY, t))
    ensures var b := Play(EMPTY, t);
        if id in b.subscribers then Handled(b, id) + |Waiting(b, id)| == Due(t, id) else Due(t, id) == 0
  {
    if t != [] {
      var front, s := t[..|t| - 1], t[|t| - 1];
      var b := Play(EMPTY, front);
      OffersAddUp(front, id);
      AlwaysFlows(front);
      OnceStep(b, s);
      if id !in b.subscribers {
        if id in After(b, s).subscribers { JoinAccounts(b, s, id); }
      } else if s.Begin? {
        BeginAccounts(b, s, id);
      } else if s.Offer? && Enabled(b, s) {
        OfferAccounts(b, s.publisher, id);
      } else if !s.Offer? {
        OtherAccounts(b, s, id);
      }
    }
  }

  ghost function DropSum(m: map<Id, Subscriber>): (n: nat)
    decreases |m|
  {
    if m == map[] then 0
    else
      var id :| id in m;
      m[id].dropped + DropSum(m - {id})
  }

  lemma {:induction false} DropSumPick(m: map<Id, Subscriber>, id: Id)
    requires id in m
    ensures DropSum(m) == m[id].dropped + DropSum(m - {id})
    decreases |m|
  {
    var x :| x in m && DropSum(m) == m[x].dropped + DropSum(m - {x});
    if x != id {
      DropSumPick(m - {x}, id);
      DropSumPick(m - {id}, x);
      assert m - {x} - {id} == m - {id} - {x};
    }
  }

  lemma DropSumUpdate(m: map<Id, Subscriber>, id: Id, s: Subscriber)
    ensures DropSum(m[id := s]) == DropSum(m) + s.dropped - (if id in m then m[id].dropped else 0)
  {
    DropSumPick(m[id := s], id);
    assert m[id := s] - {id} == m - {id};
    if id in m { DropSumPick(m, id); } else { assert m - {id} == m; }
  }

  /** The bus's count of drops is the sum of its subscribers' counts. */
  lemma {:induction false} DropsAddUp(t: seq<Step>)
    ensures Play(EMPTY, t).dropped == DropSum(Play(EMPTY, t).subscribers)
  {
    if t != [] {
      DropsAddUp(t[..|t| - 1]);
      DropStep(Play(EMPTY, t[..|t| - 1]), t[|t| - 1]);
    }
  }

  lemma DropStep(b: Bus, s: Step)
    ensures After(b, s).dropped - b.dropped == DropSum(After(b, s).subscribers) - DropSum(b.subscribers)
  {
    if Enabled(b, s) {
      match s {
        case Subscribe(id, all, kinds, depth) => DropSumUpdate(b.subscribers, id, After(b, s).subscribers[id]);
        case Stop(id) => DropSumUpdate(b.subscribers, id, After(b, s).subscribers[id]);
        case Offer(p) =>
          var id := b.active[p].remaining[0];
          if id in b.subscribers { DropSumUpdate(b.subscribers, id, After(b, s).subscribers[id]); }
        case Deliver(id, _) => DropSumUpdate(b.subscribers, id, After(b, s).subscribers[id]);
        case NoticeStop(id) => DropSumUpdate(b.subscribers, id, After(b, s).subscribers[id]);
        case Finish(id) => DropSumUpdate(b.subscribers, id, After(b, s).subscribers[id]);
        case _ =>
      }
    }
  }
}
