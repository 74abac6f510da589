/**
 Resolving a reference across a group's members.
 Models internal/repo/group.go, internal/repo/group_filter.go and
 internal/groupserve/groupserve.go.
 */
module GroupResolution {
  import opened Wrappers
  import opened Order

  datatype MemberType = Hosted | Proxy | Group | UnknownType(name: string)

  datatype MemberOutcome = Unasked | Served | NotFound | Down | Malformed

  datatype Member = Member(
    repository: string, content: string, kind: MemberType, position: int, required: bool, outcome: MemberOutcome)

  datatype SkipReason = SkippedDown | SkippedMalformed

  datatype Skipped = Skipped(repository: string, position: int, reason: SkipReason)

  datatype GroupError =
    | IllegalName(member: string)
    | NestedGroup(member: string)
    | UnknownKind(member: string)
    | ListedTwice(member: string)
    | PositionTaken(member: string)
    | NeverAsked(member: string)

  datatype Resolution =
    | GroupInvalid(error: GroupError)
    | GroupServed(member: string, position: int, skipped: seq<Skipped>)
    | GroupNotFound(skipped: seq<Skipped>)
    | GroupUnavailable(member: string, position: int, reason: SkipReason, skipped: seq<Skipped>)

  // ----- ordering -----

  predicate ByPosition(a: Member, b: Member) { a.position <= b.position }

  /** Legal names and kinds, and no two members sharing a name or a position. */
  ghost predicate Acceptable(legal: string -> bool, ms: seq<Member>) {
    && (forall i {:trigger ms[i]} ::
          0 <= i < |ms| ==> legal(ms[i].repository) && (ms[i].kind.Hosted? || ms[i].kind.Proxy?))
    && (forall i, j {:trigger ms[i], ms[j]} ::
          0 <= i < j < |ms| ==> ms[i].repository != ms[j].repository && ms[i].position != ms[j].position)
  }

  /** In position order. */
  function InOrder(ms: seq<Member>): (r: seq<Member>)
    ensures multiset(r) == multiset(ms) && SortedBy(ByPosition, r)
  {
    assert TotalPreorder(ByPosition);
    SortBy(ByPosition, ms)
  }

  function Refusal(legal: string -> bool, m: Member, names: set<string>, positions: set<int>): (e: Option<GroupError>) {
    if !legal(m.repository) then Some(IllegalName(m.repository))
    else if m.kind.Group? then Some(NestedGroup(m.repository))
    else if m.kind.UnknownType? then Some(UnknownKind(m.repository))
    else if m.repository in names then Some(ListedTwice(m.repository))
    else if m.position in positions then Some(PositionTaken(m.repository))
    else None
  }

  ghost function NamesOf(ms: seq<Member>): (r: set<string>) { set m | m in ms :: m.repository }

  ghost function PositionsOf(ms: seq<Member>): (r: set<int>) { set m | m in ms :: m.position }

  /** The first member that makes the list unusable, and why. */
  ghost function RefusalIn(legal: string -> bool, ms: seq<Member>): (e: Option<GroupError>) {
    if ms == [] then None
    else
      var front := ms[..|ms| - 1];
      if RefusalIn(legal, front).Some? then RefusalIn(legal, front)
      else Refusal(legal, ms[|ms| - 1], NamesOf(front), PositionsOf(front))
  }

  lemma {:induction false} RefusedIff(legal: string -> bool, ms: seq<Member>)
    ensures RefusalIn(legal, ms).None? <==> Acceptable(legal, ms)
  {
    if ms != [] {
      var front, last := ms[..|ms| - 1], ms[|ms| - 1];
      RefusedIff(legal, front);
      AcceptableSnoc(legal, front, last);
      assert ms == front + [last];
    }
  }

  lemma AcceptableSnoc(legal: string -> bool, front: seq<Member>, last: Member)
    ensures Acceptable(legal, front + [last]) <==>
        Acceptable(legal, front) && Refusal(legal, last, NamesOf(front), PositionsOf(front)).None?
  {
    var ms := front + [last];
    if Acceptable(legal, ms) {
      forall i | 0 <= i < |front| ensures front[i].repository != last.repository && front[i].position != last.position {
        assert ms[i] == front[i] && ms[|front|] == last;
      }
      assert Acceptable(legal, front) by { assert forall i :: 0 <= i < |front| ==> front[i] == ms[i]; }
      assert legal(ms[|front|].repository);
    }
    if Acceptable(legal, front) && Refusal(legal, last, NamesOf(front), PositionsOf(front)).None? {
      forall i | 0 <= i < |front| ensures front[i].repository != last.repository && front[i].position != last.position {
        assert front[i] in front;
        assert front[i].repository in NamesOf(front) && front[i].position in PositionsOf(front);
      }
    }
  }

  method OrderMembers(legal: string -> bool, ms: seq<Member>) returns (ordered: seq<Member>, err: Option<GroupError>)
    ensures err == RefusalIn(legal, ms)
    ensures err.None? ==> ordered == InOrder(ms)
  {
    ordered, err := [], None;
    var seenName: set<string>, seenPosition: set<int> := {}, {};
    assert ms[..0] == [];
    for i := 0 to |ms|
      invariant RefusalIn(legal, ms[..i]).None? && err.None?
      invariant seenName == NamesOf(ms[..i]) && seenPosition == PositionsOf(ms[..i])
    {
      var m := ms[i];
      RefusalSnoc(legal, ms, i);
      err := Refusal(legal, m, seenName, seenPosition);
      if err.Some? {
        RefusalStays(legal, ms, i + 1);
        return;
      }
      seenName, seenPosition := seenName + {m.repository}, seenPosition + {m.position};
    }
    assert ms[..|ms|] == ms;
    ordered := InOrder(ms);
  }

  lemma RefusalSnoc(legal: string -> bool, ms: seq<Member>, i: nat)
    requires i < |ms| && RefusalIn(legal, ms[..i]).None?
    ensures RefusalIn(legal, ms[..i + 1]) == Refusal(legal, ms[i], NamesOf(ms[..i]), PositionsOf(ms[..i]))
    ensures NamesOf(ms[..i + 1]) == NamesOf(ms[..i]) + {ms[i].repository}
    ensures PositionsOf(ms[..i + 1]) == PositionsOf(ms[..i]) + {ms[i].position}
  {
    assert ms[..i + 1][..i] == ms[..i] && ms[..i + 1] == ms[..i] + [ms[i]];
    SetsSnoc(ms[..i], ms[i]);
  }

  lemma {:induction false} RefusalStays(legal: string -> bool, ms: seq<Member>, n: nat)
    requires n <= |ms| && RefusalIn(legal, ms[..n]).Some?
    ensures RefusalIn(legal, ms) == RefusalIn(legal, ms[..n])
  {
    if n == |ms| {
      assert ms[..n] == ms;
    } else {
      assert ms[..|ms| - 1][..n] == ms[..n];
      RefusalStays(legal, ms[..|ms| - 1], n);
    }
  }

  // ----- the fold -----

  function ReasonOf(o: MemberOutcome): (r: SkipReason) { if o.Malformed? then SkippedMalformed else SkippedDown }

  function SkipOf(m: Member): (r: Skipped) { Skipped(m.repository, m.position, ReasonOf(m.outcome)) }

  /** The group goes past this member. */
  predicate PassedOver(m: Member) { m.outcome.NotFound? || ((m.outcome.Down? || m.outcome.Malformed?) && !m.required) }

  predicate Skips(m: Member) { PassedOver(m) && !m.outcome.NotFound? }

  ghost function SkippedIn(ms: seq<Member>): (r: seq<Skipped>) {
    if ms == [] then []
    else SkippedIn(ms[..|ms| - 1]) + (if Skips(ms[|ms| - 1]) then [SkipOf(ms[|ms| - 1])] else [])
  }

  /** What stops the resolution at `m`, having gone past `before`. */
  ghost function StopAt(before: seq<Member>, m: Member): (r: Resolution)
    requires !PassedOver(m)
  {
    if m.outcome.Served? then GroupServed(m.repository, m.position, SkippedIn(before))
    else if m.outcome.Unasked? then GroupInvalid(NeverAsked(m.repository))
    else GroupUnavailable(m.repository, m.position, ReasonOf(m.outcome), SkippedIn(before))
  }

  /** The first member not passed over decides; if none, nobody has it. */
  ghost function Verdict(ms: seq<Member>, n: nat): (r: Resolution)
    requires n <= |ms|
    decreases |ms| - n
  {
    if n == |ms| then GroupNotFound(SkippedIn(ms))
    else if PassedOver(ms[n]) then Verdict(ms, n + 1)
    else StopAt(ms[..n], ms[n])
  }

  ghost function Resolved(legal: string -> bool, ms: seq<Member>): (r: Resolution) {
    if RefusalIn(legal, ms).Some? then GroupInvalid(RefusalIn(legal, ms).value) else Verdict(InOrder(ms), 0)
  }

  method Resolve(legal: string -> bool, ms: seq<Member>) returns (r: Resolution)
    ensures r == Resolved(legal, ms)
  {
    var ordered, err := OrderMembers(legal, ms);
    if err.Some? { return GroupInvalid(err.value); }
    var skipped: seq<Skipped> := [];
    assert ordered[..0] == [];
    for i := 0 to |ordered|
      invariant skipped == SkippedIn(ordered[..i]) && Verdict(ordered, 0) == Verdict(ordered, i)
    {
      var m := ordered[i];
      assert ordered[..i + 1][..i] == ordered[..i];
      match m.outcome {
        case Served => return GroupServed(m.repository, m.position, skipped);
        case NotFound =>
        case Unasked => return GroupInvalid(NeverAsked(m.repository));
        case _ =>
          if m.required { return GroupUnavailable(m.repository, m.position, ReasonOf(m.outcome), skipped); }
          skipped := skipped + [SkipOf(m)];
      }
    }
    assert ordered[..|ordered|] == ordered;
    r := GroupNotFound(skipped);
  }

  // ----- what a resolution means -----

  lemma SortedFirst(ms: seq<Member>, n: nat)
    requires SortedBy(ByPosition, ms) && n < |ms|
    requires forall i, j {:trigger ms[i], ms[j]} :: 0 <= i < j < |ms| ==> ms[i].position != ms[j].position
    ensures forall m {:trigger m in ms} :: m in ms ==> (m in ms[..n] <==> m.position < ms[n].position)
  {
    forall m | m in ms ensures m in ms[..n] <==> m.position < ms[n].position {
      var i :| 0 <= i < |ms| && ms[i] == m;
      if i < n { assert ByPosition(ms[i], ms[n]); assert ms[..n][i] == m; }
      if i > n { assert ByPosition(ms[n], ms[i]); }
    }
  }

  lemma {:induction false} VerdictAt(ms: seq<Member>, n: nat, k: nat)
    requires n <= k < |ms| && !PassedOver(ms[k]) && forall j {:trigger ms[j]} :: n <= j < k ==> PassedOver(ms[j])
    ensures Verdict(ms, n) == StopAt(ms[..k], ms[k])
    decreases k - n
  {
    if n < k { VerdictAt(ms, n + 1, k); }
  }

  lemma AcceptablePermutes(legal: string -> bool, ms: seq<Member>, r: seq<Member>)
    requires Acceptable(legal, ms) && multiset(ms) == multiset(r)
    ensures Acceptable(legal, r)
    ensures forall m :: m in r <==> m in ms
  {
    SameElems(ms, r);
    assert Distinct(ms);
    PermutationDistinct(ms, r);
    forall i, j | 0 <= i < j < |r|
      ensures r[i].repository != r[j].repository && r[i].position != r[j].position
    {
      assert r[i] in ms && r[j] in ms && r[i] != r[j];
      var a :| 0 <= a < |ms| && ms[a] == r[i];
      var b :| 0 <= b < |ms| && ms[b] == r[j];
    }
    forall i | 0 <= i < |r| ensures legal(r[i].repository) && (r[i].kind.Hosted? || r[i].kind.Proxy?) {
      assert r[i] in ms;
      var a :| 0 <= a < |ms| && ms[a] == r[i];
    }
  }

  /** The order of an acceptable list. */
  lemma OrderUnique(legal: string -> bool, ms: seq<Member>, r: seq<Member>)
    requires Acceptable(legal, ms) && multiset(ms) == multiset(r) && SortedBy(ByPosition, r)
    ensures InOrder(ms) == r
  {
    var o := InOrder(ms);
    AcceptablePermutes(legal, ms, o);
    forall x, y | x in o && y in o && ByPosition(x, y) && ByPosition(y, x)
      ensures x == y
    {
      var i :| 0 <= i < |o| && o[i] == x;
      var j :| 0 <= j < |o| && o[j] == y;
    }
    SortedUnique(ByPosition, o, r);
  }

  /** The answer does not depend on the order of the list; an unusable list stays one. */
  lemma ListOrderIrrelevant(legal: string -> bool, ms: seq<Member>, ns: seq<Member>)
    requires multiset(ms) == multiset(ns)
    ensures Acceptable(legal, ms) ==> Resolved(legal, ns) == Resolved(legal, ms)
    ensures !Acceptable(legal, ms) ==> Resolved(legal, ns).GroupInvalid? && Resolved(legal, ms).GroupInvalid?
  {
    RefusedIff(legal, ms);
    RefusedIff(legal, ns);
    if Acceptable(legal, ms) {
      AcceptablePermutes(legal, ms, ns);
      OrderUnique(legal, ms, InOrder(ns));
    }
    if Acceptable(legal, ns) { AcceptablePermutes(legal, ns, ms); }
  }

  /** `m` decides: it is not passed over and everything before it is. */
  ghost predicate Decides(ms: seq<Member>, m: Member) {
    m in ms && !PassedOver(m) && forall x {:trigger x in ms} :: x in ms && x.position < m.position ==> PassedOver(x)
  }

  /** Whatever the order of the list: the member that is not passed over and has every
      earlier position passed over decides, and without one nobody has the reference. */
  lemma ResolutionMeaning(legal: string -> bool, ms: seq<Member>)
    requires Acceptable(legal, ms)
    ensures forall m {:trigger Decides(ms, m)} :: Decides(ms, m) ==>
              var r := Resolved(legal, ms);
              && (m.outcome.Served? ==> r.GroupServed? && r.member == m.repository && r.position == m.position)
              && (m.outcome.Unasked? ==> r == GroupInvalid(NeverAsked(m.repository)))
              && (m.outcome.Down? || m.outcome.Malformed? ==>
                    && r.GroupUnavailable?
                    && r.member == m.repository
                    && r.position == m.position
                    && r.reason == ReasonOf(m.outcome))
    ensures (forall m {:trigger m in ms} :: m in ms ==> PassedOver(m)) <==> Resolved(legal, ms).GroupNotFound?
  {
    RefusedIff(legal, ms);
    var o := InOrder(ms);
    AcceptablePermutes(legal, ms, o);
    forall m | Decides(ms, m)
      ensures exists k :: 0 <= k < |o| && o[k] == m && Verdict(o, 0) == StopAt(o[..k], o[k])
    {
      assert m in o;
      var k :| 0 <= k < |o| && o[k] == m;
      SortedFirst(o, k);
      forall j | 0 <= j < k ensures PassedOver(o[j]) { assert o[j] in o && o[..k][j] == o[j]; assert o[j] in ms; }
      VerdictAt(o, 0, k);
    }
    NotFoundIff(o, 0);
    assert forall k {:trigger o[k]} :: 0 <= k < |o| ==> o[k] in ms;
  }

  lemma {:induction false} NotFoundIff(ms: seq<Member>, n: nat)
    requires n <= |ms|
    ensures Verdict(ms, n).GroupNotFound? <==> forall k {:trigger ms[k]} :: n <= k < |ms| ==> PassedOver(ms[k])
    decreases |ms| - n
  {
    if n < |ms| && PassedOver(ms[n]) { NotFoundIff(ms, n + 1); }
  }

  // ----- asking -----

  /** The list with answers filled in, keyed by name. */
  function Answered(ms: seq<Member>, outcomes: map<string, MemberOutcome>): (r: seq<Member>)
    ensures |r| == |ms|
    ensures forall i {:trigger r[i]} :: 0 <= i < |ms| ==> r[i] == Fill(ms[i], outcomes)
  {
    seq(|ms|, i requires 0 <= i < |ms| => Fill(ms[i], outcomes))
  }

  function Fill(m: Member, outcomes: map<string, MemberOutcome>): (r: Member) {
    if m.repository in outcomes then m.(outcome := outcomes[m.repository]) else m
  }

  method With(ms: seq<Member>, outcomes: map<string, MemberOutcome>) returns (r: seq<Member>)
    ensures r == Answered(ms, outcomes)
  {
    r := [];
    for i := 0 to |ms|
      invariant |r| == i && forall k {:trigger r[k]} :: 0 <= k < i ==> r[k] == Fill(ms[k], outcomes)
    {
      r := r + [Fill(ms[i], outcomes)];
    }
  }

  lemma {:induction false} AnswersDoNotRefuse(legal: string -> bool, ms: seq<Member>,
                                              outcomes: map<string, MemberOutcome>)
    ensures RefusalIn(legal, Answered(ms, outcomes)) == RefusalIn(legal, ms)
    ensures NamesOf(Answered(ms, outcomes)) == NamesOf(ms) && PositionsOf(Answered(ms, outcomes)) == PositionsOf(ms)
  {
    var r := Answered(ms, outcomes);
    if ms == [] {
      assert r == [];
    } else {
      var front, last := ms[..|ms| - 1], ms[|ms| - 1];
      AnswersDoNotRefuse(legal, front, outcomes);
      assert r[..|r| - 1] == Answered(front, outcomes);
      SameSets(front, last, Answered(front, outcomes), Fill(last, outcomes));
      assert ms == front + [last] && r == Answered(front, outcomes) + [Fill(last, outcomes)];
    }
  }

  lemma SameSets(a: seq<Member>, x: Member, b: seq<Member>, y: Member)
    requires
      && NamesOf(a) == NamesOf(b)
      && PositionsOf(a) == PositionsOf(b)
      && x.repository == y.repository
      && x.position == y.position
    ensures NamesOf(a + [x]) == NamesOf(b + [y]) && PositionsOf(a + [x]) == PositionsOf(b + [y])
  {
    SetsSnoc(a, x);
    SetsSnoc(b, y);
  }

  lemma SetsSnoc(front: seq<Member>, last: Member)
    ensures NamesOf(front + [last]) == NamesOf(front) + {last.repository}
    ensures PositionsOf(front + [last]) == PositionsOf(front) + {last.position}
  {
    var ms := front + [last];
    assert last in ms && forall m :: m in ms <==> m in front || m == last;
  }

  lemma {:induction false} AnsweredMultiset(a: seq<Member>, b: seq<Member>, outcomes: map<string, MemberOutcome>)
    requires multiset(a) == multiset(b)
    ensures multiset(Answered(a, outcomes)) == multiset(Answered(b, outcomes))
    decreases |a|
  {
    if a == [] {
      assert |multiset(b)| == 0;
      assert b == [];
    } else {
      var k := TakeOut(a, b);
      AnsweredMultiset(a[..|a| - 1], b[..k] + b[k + 1..], outcomes);
      AnsweredAround(b, k, outcomes);
      assert Answered(a, outcomes) == Answered(a[..|a| - 1], outcomes) + [Fill(a[|a| - 1], outcomes)];
    }
  }

  lemma AnsweredAround(b: seq<Member>, k: nat, outcomes: map<string, MemberOutcome>)
    requires k < |b|
    ensures multiset(Answered(b, outcomes)) ==
          multiset(Answered(b[..k] + b[k + 1..], outcomes)) + multiset{Fill(b[k], outcomes)}
  {
    var l, r := Answered(b[..k], outcomes), Answered(b[k + 1..], outcomes);
    assert Answered(b, outcomes) == l + [Fill(b[k], outcomes)] + r;
    assert Answered(b[..k] + b[k + 1..], outcomes) == l + r;
  }

  /** Filling in answers and putting in order commute. */
  lemma OrderAnswered(legal: string -> bool, ms: seq<Member>, outcomes: map<string, MemberOutcome>)
    requires Acceptable(legal, ms)
    ensures InOrder(Answered(ms, outcomes)) == Answered(InOrder(ms), outcomes)
  {
    var o := InOrder(ms);
    AnswersDoNotRefuse(legal, ms, outcomes);
    RefusedIff(legal, ms);
    RefusedIff(legal, Answered(ms, outcomes));
    AnsweredMultiset(ms, o, outcomes);
    forall i, j | 0 <= i < j < |o|
      ensures ByPosition(Answered(o, outcomes)[i], Answered(o, outcomes)[j])
    {
      assert ByPosition(o[i], o[j]);
    }
    OrderUnique(legal, Answered(ms, outcomes), Answered(o, outcomes));
  }

  /** Nothing after the member that decides is looked at. */
  lemma {:induction false} VerdictLocal(a: seq<Member>, b: seq<Member>, n: nat, k: nat)
    requires n <= k < |a| && k < |b| && a[..k + 1] == b[..k + 1] && !PassedOver(a[k])
    ensures Verdict(a, n) == Verdict(b, n)
    decreases k - n
  {
    assert a[..k + 1][n] == b[..k + 1][n] && a[..n] == a[..k + 1][..n] && b[..n] == b[..k + 1][..n];
    if PassedOver(a[n]) { VerdictLocal(a, b, n + 1, k); }
  }
}
