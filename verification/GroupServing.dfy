/**
 Serving a reference through a group: read the members, keep those the subject may
 read, ask them in order until one serves, and obey the resolution.
 Models internal/groupserve/groupserve.go and internal/repo/group_filter.go.
 */
module GroupServing {
  import opened Wrappers
  import opened Order
  import opened GroupResolution

  datatype Stored = Stored(repository: string, position: int, required: bool)

  /** What one member says when asked. */
  datatype Answer = Content(data: string) | ContentUnknown | Unanswered

  datatype Reply =
    | Found(data: string)
    | Unknown
    | Unavailable
    | Misconfigured(error: GroupError)
    | MemberUnreadable(member: string)

  /** The group's surroundings: which names are legal, what each repository is, what
      the subject may read, which kinds can be asked, and what members answer. */
  datatype Setting = Setting(
    legal: string -> bool, kinds: map<string, MemberType>, readable: string -> bool,
    served: MemberType -> bool, answer: Member -> Answer)

  // ----- filtering -----

  /** The members whose content the subject may read, in place. */
  function Visible(readable: string -> bool, ms: seq<Member>): (r: seq<Member>) {
    if ms == [] then []
    else Visible(readable, ms[..|ms| - 1]) + (if readable(ms[|ms| - 1].content) then [ms[|ms| - 1]] else [])
  }

  method VisibleMembers(readable: string -> bool, ms: seq<Member>) returns (visible: seq<Member>)
    ensures visible == Visible(readable, ms)
  {
    visible := [];
    assert ms[..0] == [];
    for i := 0 to |ms|
      invariant visible == Visible(readable, ms[..i])
    {
      assert ms[..i + 1][..i] == ms[..i];
      if readable(ms[i].content) { visible := visible + [ms[i]]; }
    }
    assert ms[..|ms|] == ms;
  }

  lemma {:induction false} VisibleConcat(readable: string -> bool, a: seq<Member>, b: seq<Member>)
    ensures Visible(readable, a + b) == Visible(readable, a) + Visible(readable, b)
  {
    if b == [] {
      assert a + b == a;
    } else {
      VisibleConcat(readable, a, b[..|b| - 1]);
      assert (a + b)[..|a + b| - 1] == a + b[..|b| - 1];
    }
  }

  // ----- asking -----

  function Askable(s: Setting, m: Member): (r: bool) { (m.kind.Hosted? || m.kind.Proxy?) && s.served(m.kind) }

  function OutcomeOf(a: Answer): (o: MemberOutcome) {
    match a
    case Content(_) => Served
    case ContentUnknown => NotFound
    case Unanswered => Down
  }

  /** What asking a member would establish. */
  function Asking(s: Setting, m: Member): (o: MemberOutcome) { if Askable(s, m) then OutcomeOf(s.answer(m)) else Down }

  /** Asking everybody. */
  ghost function AskedAll(s: Setting, ms: seq<Member>): (r: map<string, MemberOutcome>) {
    if ms == [] then map[] else AskedAll(s, ms[..|ms| - 1])[ms[|ms| - 1].repository := Asking(s, ms[|ms| - 1])]
  }

  /** The first `n` are in position order. */
  ghost predicate OrderedTo(a: array<Member>, n: int)
    reads a
    requires n <= a.Length
  {
    forall p, q {:trigger a[p], a[q]} :: 0 <= p < q < n ==> a[p].position <= a[q].position
  }

  /** Orders members by their position, in place. */
  method SortByPosition(a: array<Member>)
    modifies a
    ensures multiset(a[..]) == multiset(old(a[..])) && SortedBy(ByPosition, a[..])
  {
    for i := 0 to a.Length
      invariant multiset(a[..]) == multiset(old(a[..])) && OrderedTo(a, i)
    {
      Sink(a, i);
    }
  }

  /** Moves the member at `i` down to its place among those before it. */
  method Sink(a: array<Member>, i: nat)
    requires i < a.Length && OrderedTo(a, i)
    modifies a
    ensures multiset(a[..]) == multiset(old(a[..])) && OrderedTo(a, i + 1)
  {
    var j := i;
    while j > 0 && a[j].position < a[j - 1].position
      invariant 0 <= j <= i
      invariant multiset(a[..]) == multiset(old(a[..]))
      invariant forall p, q {:trigger a[p], a[q]} :: 0 <= p < q <= i && q != j ==> a[p].position <= a[q].position
    {
      Swap(a, j);
      j := j - 1;
    }
  }

  method Swap(a: array<Member>, j: nat)
    requires 0 < j < a.Length
    modifies a
    ensures multiset(a[..]) == multiset(old(a[..]))
    ensures a[j] == old(a[j - 1]) && a[j - 1] == old(a[j])
    ensures forall k {:trigger a[k]} :: 0 <= k < a.Length && k != j && k != j - 1 ==> a[k] == old(a[k])
  {
    a[j], a[j - 1] := a[j - 1], a[j];
  }

  /** How many are asked, from the i-th on: up to the first that serves. */
  ghost function Stop(s: Setting, o: seq<Member>, i: nat): (n: nat)
    requires i <= |o|
    ensures i <= n <= |o|
    decreases |o| - i
  {
    if i == |o| then i else if Asking(s, o[i]) == Served then i + 1 else Stop(s, o, i + 1)
  }

  /** What the last of them served, if it did. */
  ghost function Captured(s: Setting, o: seq<Member>): (c: Option<string>) {
    var n := Stop(s, o, 0);
    if n > 0 && Asking(s, o[n - 1]) == Served && s.answer(o[n - 1]).Content? then Some(s.answer(o[n - 1]).data)
    else None
  }

  /** What asking the list in some position order, up to the first that serves, brings. */
  ghost predicate AskedInSomeOrder(s: Setting, ms: seq<Member>, outcomes: map<string, MemberOutcome>,
                                   captured: Option<string>)
  {
    exists o {:trigger Captured(s, o)} ::
      && multiset(o) == multiset(ms)
      && SortedBy(ByPosition, o)
      && outcomes == AskedAll(s, o[..Stop(s, o, 0)])
      && captured == Captured(s, o)
  }

  /** Asks in position order and stops at the first member that serves; the order is the
      only one there is when the list is acceptable. */
  method AskMembers(s: Setting, ms: seq<Member>)
    returns (outcomes: map<string, MemberOutcome>, captured: Option<string>)
    ensures AskedInSomeOrder(s, ms, outcomes, captured)
    ensures Acceptable(s.legal, ms) ==>
          outcomes == AskedAll(s, InOrder(ms)[..Stop(s, InOrder(ms), 0)]) && captured == Captured(s, InOrder(ms))
  {
    var ordered := new Member[|ms|](i requires 0 <= i < |ms| => ms[i]);
    assert ordered[..] == ms;
    SortByPosition(ordered);
    if Acceptable(s.legal, ms) { OrderUnique(s.legal, ms, ordered[..]); }
    outcomes, captured := AskInOrder(s, ordered[..]);
  }

  method AskInOrder(s: Setting, o: seq<Member>) returns (outcomes: map<string, MemberOutcome>, captured: Option<string>)
    ensures outcomes == AskedAll(s, o[..Stop(s, o, 0)]) && captured == Captured(s, o)
  {
    outcomes, captured := map[], None;
    assert o[..0] == [];
    for i := 0 to |o|
      invariant captured.None? && outcomes == AskedAll(s, o[..i]) && Stop(s, o, 0) == Stop(s, o, i)
      invariant i > 0 ==> Asking(s, o[i - 1]) != Served
    {
      var m := o[i];
      assert o[..i + 1][..i] == o[..i];
      if !Askable(s, m) {
        outcomes := outcomes[m.repository := Down];
      } else {
        var a := s.answer(m);
        if a.Content? { captured := Some(a.data); }
        outcomes := outcomes[m.repository := OutcomeOf(a)];
        if OutcomeOf(a) == Served { return; }
      }
    }
  }

  // ----- asking some is asking all -----

  lemma {:induction false} AskedHas(s: Setting, legal: string -> bool, ms: seq<Member>, n: nat, i: nat)
    requires Acceptable(legal, ms) && n <= |ms| && i < |ms|
    ensures ms[i].repository in AskedAll(s, ms[..n]) <==> i < n
    ensures i < n ==> AskedAll(s, ms[..n])[ms[i].repository] == Asking(s, ms[i])
  {
    if n == 0 {
      assert ms[..0] == [];
    } else {
      AskedHas(s, legal, ms, n - 1, i);
      assert ms[..n][..n - 1] == ms[..n - 1];
      assert i != n - 1 ==> ms[i].repository != ms[n - 1].repository;
    }
  }

  lemma {:induction false} StopServes(s: Setting, o: seq<Member>, i: nat)
    requires i <= |o|
    ensures var n := Stop(s, o, i); n == |o| || (n > i && Asking(s, o[n - 1]) == Served)
    ensures forall k {:trigger o[k]} :: i <= k < Stop(s, o, i) - 1 ==> Asking(s, o[k]) != Served
    decreases |o| - i
  {
    if i < |o| && Asking(s, o[i]) != Served { StopServes(s, o, i + 1); }
  }

  /** Stopping at the first member that serves gives the answer that asking everybody
      would, whatever the members after it would have said. */
  lemma LazyIsEager(s: Setting, ms: seq<Member>)
    ensures Resolved(s.legal, Answered(ms, AskedAll(s, InOrder(ms)[..Stop(s, InOrder(ms), 0)]))) == Settled(s, ms)
  {
    var o := InOrder(ms);
    var n := Stop(s, o, 0);
    var some, all := AskedAll(s, o[..n]), AskedAll(s, o);
    AnswersDoNotRefuse(s.legal, ms, some);
    AnswersDoNotRefuse(s.legal, ms, all);
    RefusedIff(s.legal, ms);
    if Acceptable(s.legal, ms) {
      AcceptablePermutes(s.legal, ms, o);
      OrderAnswered(s.legal, ms, some);
      OrderAnswered(s.legal, ms, all);
      StopServes(s, o, 0);
      SameVerdict(s, o, n);
    }
  }

  lemma SameVerdict(s: Setting, o: seq<Member>, n: nat)
    requires Acceptable(s.legal, o) && n <= |o|
    requires n == |o| || (n > 0 && Asking(s, o[n - 1]) == Served)
    ensures Verdict(Answered(o, AskedAll(s, o[..n])), 0) == Verdict(Answered(o, AskedAll(s, o)), 0)
  {
    if n == |o| {
      assert o[..n] == o;
    } else {
      SamePrefix(s, o, n);
      VerdictLocal(Answered(o, AskedAll(s, o[..n])), Answered(o, AskedAll(s, o)), 0, n - 1);
    }
  }

  lemma SamePrefix(s: Setting, o: seq<Member>, n: nat)
    requires Acceptable(s.legal, o) && 0 < n <= |o| && Asking(s, o[n - 1]) == Served
    ensures Answered(o, AskedAll(s, o[..n]))[..n] == Answered(o, AskedAll(s, o))[..n]
    ensures Answered(o, AskedAll(s, o[..n]))[n - 1].outcome == Served
  {
    assert o[..|o|] == o;
    forall i | 0 <= i < n
      ensures Answered(o, AskedAll(s, o[..n]))[i] == Answered(o, AskedAll(s, o))[i]
    {
      AskedHas(s, s.legal, o, n, i);
      AskedHas(s, s.legal, o, |o|, i);
    }
    AskedHas(s, s.legal, o, n, n - 1);
  }

  // ----- serving -----

  function ContentNameFor(member: string, remainder: string): (r: string) {
    if remainder == "" then member else member + "/" + remainder
  }

  function MemberFor(s: Setting, st: Stored, remainder: string): (m: Member)
    requires st.repository in s.kinds
  {
    Member(st.repository, ContentNameFor(st.repository, remainder), s.kinds[st.repository], st.position, st.required,
      Unasked)
  }

  ghost predicate Rowed(s: Setting, stored: seq<Stored>) {
    forall i {:trigger stored[i]} :: 0 <= i < |stored| ==> stored[i].repository in s.kinds
  }

  ghost function MembersFor(s: Setting, stored: seq<Stored>, remainder: string): (r: seq<Member>)
    requires Rowed(s, stored)
    ensures |r| == |stored|
    ensures forall i {:trigger r[i]} :: 0 <= i < |stored| ==> r[i] == MemberFor(s, stored[i], remainder)
  {
    seq(|stored|, i requires 0 <= i < |stored| => MemberFor(s, stored[i], remainder))
  }

  /** Every member's row is read before any is filtered; one that cannot be fails the group. */
  method Candidates(s: Setting, stored: seq<Stored>, remainder: string)
    returns (ms: seq<Member>, missing: Option<string>)
    ensures missing.None? <==> Rowed(s, stored)
    ensures missing.None? ==> ms == MembersFor(s, stored, remainder)
    ensures missing.Some? ==>
          missing.value !in s.kinds && exists i :: 0 <= i < |stored| && stored[i].repository == missing.value
  {
    ms, missing := [], None;
    for i := 0 to |stored|
      invariant Rowed(s, stored[..i]) && ms == MembersFor(s, stored[..i], remainder)
    {
      if stored[i].repository !in s.kinds {
        return ms, Some(stored[i].repository);
      }
      ms := ms + [MemberFor(s, stored[i], remainder)];
      assert stored[..i + 1] == stored[..i] + [stored[i]];
    }
    assert stored[..|stored|] == stored;
  }

  /** The resolution of a list once everybody on it has been asked. */
  ghost function Settled(s: Setting, ms: seq<Member>): (r: Resolution) {
    Resolved(s.legal, Answered(ms, AskedAll(s, InOrder(ms))))
  }

  /** `data` is what the member named `name` answered. */
  ghost predicate CameFrom(s: Setting, ms: seq<Member>, name: string, data: string) {
    exists m :: m in ms && m.repository == name && s.answer(m) == Content(data)
  }

  /** The reply a resolution calls for. */
  ghost predicate Obeys(s: Setting, ms: seq<Member>, r: Resolution, reply: Reply) {
    match r
    case GroupServed(member, _, _) => reply.Found? && CameFrom(s, ms, member, reply.data)
    case GroupNotFound(_) => reply == Unknown
    case GroupUnavailable(_, _, _, _) => reply == Unavailable
    case GroupInvalid(e) => reply == Misconfigured(e)
  }

  lemma {:induction false} ServedAt(ms: seq<Member>, n: nat) returns (k: nat)
    requires n <= |ms| && Verdict(ms, n).GroupServed?
    ensures n <= k < |ms| && ms[k].outcome.Served? && Verdict(ms, n).member == ms[k].repository
    decreases |ms| - n
  {
    k := n;
    if PassedOver(ms[n]) { k := ServedAt(ms, n + 1); }
  }

  /** When the group serves, what was captured came from the member the resolution names. */
  lemma CapturedIsNamed(s: Setting, ms: seq<Member>)
    requires forall m {:trigger m in ms} :: m in ms ==> m.outcome.Unasked?
    requires Settled(s, ms).GroupServed?
    ensures Captured(s, InOrder(ms)).Some? && CameFrom(s, ms, Settled(s, ms).member, Captured(s, InOrder(ms)).value)
  {
    ServedInOrder(s, ms);
    var o := InOrder(ms);
    forall k | 0 <= k < |o| ensures o[k].outcome.Unasked? { assert o[k] in ms; }
    var m := CapturedInOrder(s, o);
    assert m in ms;
  }

  lemma ServedInOrder(s: Setting, ms: seq<Member>)
    requires Settled(s, ms).GroupServed?
    ensures var o := InOrder(ms);
        Acceptable(s.legal, o) && Settled(s, ms) == Verdict(Answered(o, AskedAll(s, o[..Stop(s, o, 0)])), 0)
    ensures forall m :: m in InOrder(ms) <==> m in ms
  {
    var o := InOrder(ms);
    var asked := AskedAll(s, o[..Stop(s, o, 0)]);
    LazyIsEager(s, ms);
    AnswersDoNotRefuse(s.legal, ms, asked);
    RefusedIff(s.legal, ms);
    assert Acceptable(s.legal, ms);
    AcceptablePermutes(s.legal, ms, o);
    OrderAnswered(s.legal, ms, asked);
  }

  lemma CapturedInOrder(s: Setting, o: seq<Member>) returns (m: Member)
    requires Acceptable(s.legal, o) && forall k {:trigger o[k]} :: 0 <= k < |o| ==> o[k].outcome.Unasked?
    requires Verdict(Answered(o, AskedAll(s, o[..Stop(s, o, 0)])), 0).GroupServed?
    ensures m in o && Verdict(Answered(o, AskedAll(s, o[..Stop(s, o, 0)])), 0).member == m.repository
    ensures Captured(s, o).Some? && s.answer(m) == Content(Captured(s, o).value)
  {
    var n := Stop(s, o, 0);
    StopServes(s, o, 0);
    var k := ServedAt(Answered(o, AskedAll(s, o[..n])), 0);
    AskedHas(s, s.legal, o, n, k);
    m := o[k];
  }

  method Serve(s: Setting, stored: seq<Stored>, remainder: string) returns (reply: Reply)
    ensures !Rowed(s, stored) ==> reply.MemberUnreadable?
    ensures Rowed(s, stored) ==>
              var ms := Visible(s.readable, MembersFor(s, stored, remainder));
              Obeys(s, ms, Settled(s, ms), reply)
  {
    var candidates, missing := Candidates(s, stored, remainder);
    if missing.Some? { return MemberUnreadable(missing.value); }
    var ms := VisibleMembers(s.readable, candidates);
    var outcomes, captured := AskMembers(s, ms);
    var answered := With(ms, outcomes);
    var r := Resolve(s.legal, answered);
    SettledAnyway(s, ms, outcomes);
    VisibleUnasked(s, candidates, ms);
    match r {
      case GroupServed(_, _, _) =>
        CapturedIsNamed(s, ms);
        reply := Found(captured.value);
      case GroupNotFound(_) => reply := Unknown;
      case GroupUnavailable(_, _, _, _) => reply := Unavailable;
      case GroupInvalid(e) => reply := Misconfigured(e);
    }
  }

  /** An unusable list resolves the same whatever anybody answered. */
  lemma SettledAnyway(s: Setting, ms: seq<Member>, outcomes: map<string, MemberOutcome>)
    requires Acceptable(s.legal, ms) ==> outcomes == AskedAll(s, InOrder(ms)[..Stop(s, InOrder(ms), 0)])
    ensures Resolved(s.legal, Answered(ms, outcomes)) == Settled(s, ms)
    ensures Settled(s, ms).GroupServed? ==> Acceptable(s.legal, ms)
  {
    LazyIsEager(s, ms);
    AnswersDoNotRefuse(s.legal, ms, outcomes);
    AnswersDoNotRefuse(s.legal, ms, AskedAll(s, InOrder(ms)));
    RefusedIff(s.legal, ms);
  }

  lemma VisibleUnasked(s: Setting, all: seq<Member>, ms: seq<Member>)
    requires ms == Visible(s.readable, all)
    requires forall k {:trigger all[k]} :: 0 <= k < |all| ==> all[k].outcome.Unasked?
    ensures forall m {:trigger m in ms} :: m in ms ==> m.outcome.Unasked?
  {
    VisibleFrom(s.readable, all);
  }

  lemma {:induction false} VisibleFrom(readable: string -> bool, ms: seq<Member>)
    ensures forall m {:trigger m in Visible(readable, ms)} ::
          m in Visible(readable, ms) <==> m in ms && readable(m.content)
  {
    if ms != [] {
      var front := ms[..|ms| - 1];
      VisibleFrom(readable, front);
      assert ms == front + [ms[|ms| - 1]];
    }
  }

  /** Inserting a member the subject cannot read changes nothing about who is asked and
      how the group resolves. */
  lemma HiddenMembersChangeNothing(s: Setting, a: seq<Stored>, hidden: Stored, b: seq<Stored>, remainder: string)
    requires Rowed(s, a + [hidden] + b) && Rowed(s, a + b)
    requires !s.readable(ContentNameFor(hidden.repository, remainder))
    ensures Visible(s.readable, MembersFor(s, a + [hidden] + b, remainder)) ==
          Visible(s.readable, MembersFor(s, a + b, remainder))
  {
    var l, r := a + [hidden] + b, a + b;
    forall i | 0 <= i < |a| ensures a[i].repository in s.kinds { assert r[i] == a[i]; }
    forall i | 0 <= i < |b| ensures b[i].repository in s.kinds { assert r[|a| + i] == b[i]; }
    assert l[|a|] == hidden;
    var ma, mb, h := MembersFor(s, a, remainder), MembersFor(s, b, remainder), MemberFor(s, hidden, remainder);
    assert MembersFor(s, l, remainder) == ma + [h] + mb;
    assert MembersFor(s, r, remainder) == ma + mb;
    VisibleAround(s.readable, ma, h, mb);
  }

  lemma VisibleAround(readable: string -> bool, a: seq<Member>, h: Member, b: seq<Member>)
    requires !readable(h.content)
    ensures Visible(readable, a + [h] + b) == Visible(readable, a + b)
  {
    VisibleConcat(readable, a + [h], b);
    VisibleConcat(readable, a, b);
    assert (a + [h])[..|a|] == a;
  }

  /** But its row is read all the same: the group still answers exactly when that row is there. */
  lemma HiddenMemberMustHaveRow(s: Setting, a: seq<Stored>, hidden: Stored, b: seq<Stored>)
    requires Rowed(s, a + b)
    ensures Rowed(s, a + [hidden] + b) <==> hidden.repository in s.kinds
  {
    var l, r := a + [hidden] + b, a + b;
    assert l[|a|] == hidden;
    if hidden.repository in s.kinds {
      forall i | 0 <= i < |l| ensures l[i].repository in s.kinds {
        if i < |a| { assert l[i] == r[i]; } else if i > |a| { assert l[i] == r[i - 1]; }
      }
    }
  }
}
