/**
 Orders and sorting shared by the models.

 Go compares strings byte by byte, which on valid UTF-8 is the code-point order
 written here.  Library sorts (`slices.Sort`, `slices.SortFunc`) are modelled by
 an insertion sort with the contract of a sort; `SortedSeq` is the order-free
 reference: the one increasing listing of a set.
 */
module Order {

  // ----- lexicographic order -----

  /** `a` and `b` first differ at `k`, where `a` is smaller. */
  predicate SmallerAt(a: string, b: string, k: nat) {
    k < |a| && k < |b| && a[..k] == b[..k] && a[k] < b[k]
  }

  predicate LexLe(a: string, b: string) {
    a <= b || exists k: nat | k < |a| :: SmallerAt(a, b, k)
  }

  predicate LexLt(a: string, b: string) {
    a != b && LexLe(a, b)
  }

  lemma LexTotal(a: string, b: string)
    ensures LexLe(a, b) || LexLe(b, a)
  {
    var k: nat := 0;
    while k < |a| && k < |b| && a[k] == b[k]
      invariant k <= |a| && k <= |b| && a[..k] == b[..k]
    {
      k := k + 1;
    }
    if k < |a| && k < |b| {
      assert SmallerAt(a, b, k) || SmallerAt(b, a, k);
    }
  }

  lemma SmallerIsStrict(a: string, b: string, k: nat)
    requires SmallerAt(a, b, k)
    ensures !LexLe(b, a)
  {
    assert a[k] != b[k];
    forall j: nat | j < |b|
      ensures !SmallerAt(b, a, j)
    {
      if j < k {
        assert a[..k][j] == b[..k][j];
      } else if k < j && j < |a| {
        assert a[..j][k] != b[..j][k];
      }
    }
  }

  lemma LexAntisymmetric(a: string, b: string)
    requires LexLe(a, b) && LexLe(b, a)
    ensures a == b
  {
    if k: nat :| k < |a| && SmallerAt(a, b, k) {
      SmallerIsStrict(a, b, k);
    } else if j: nat :| j < |b| && SmallerAt(b, a, j) {
      SmallerIsStrict(b, a, j);
    }
  }

  lemma LexTransitive(a: string, b: string, c: string)
    requires LexLe(a, b) && LexLe(b, c)
    ensures LexLe(a, c)
  {
    if a <= b {
      if j: nat :| j < |b| && SmallerAt(b, c, j) {
        if j < |a| {
          assert a[..j] == b[..j];
          assert SmallerAt(a, c, j);
        } else {
          assert a == b[..j][..|a|] == c[..j][..|a|] == c[..|a|];
        }
      }
    } else {
      var k: nat :| k < |a| && SmallerAt(a, b, k);
      if b <= c {
        assert SmallerAt(a, c, k);
      } else {
        var j: nat :| j < |b| && SmallerAt(b, c, j);
        var i := if k < j then k else j;
        assert a[..i] == a[..k][..i] == b[..k][..i] == b[..i] == b[..j][..i] == c[..j][..i] == c[..i];
        if k < j { assert b[..j][k] == c[..j][k]; }
        if j < k { assert a[..k][j] == b[..k][j]; }
        assert SmallerAt(a, c, i);
      }
    }
  }

  lemma LexLtTransitive(a: string, b: string, c: string)
    requires LexLt(a, b) && LexLt(b, c)
    ensures LexLt(a, c)
  {
    LexTransitive(a, b, c);
    if a == c { LexAntisymmetric(a, b); }
  }

  lemma LexOrder()
    ensures forall a, b :: LexLe(a, b) || LexLe(b, a)
    ensures forall a, b :: LexLe(a, b) && LexLe(b, a) ==> a == b
    ensures forall a, b, c :: LexLe(a, b) && LexLe(b, c) ==> LexLe(a, c)
  {
    forall a: string, b: string
      ensures LexLe(a, b) || LexLe(b, a)
      ensures LexLe(a, b) && LexLe(b, a) ==> a == b
    {
      LexTotal(a, b);
      if LexLe(a, b) && LexLe(b, a) { LexAntisymmetric(a, b); }
    }
    forall a: string, b: string, c: string | LexLe(a, b) && LexLe(b, c)
      ensures LexLe(a, c)
    {
      LexTransitive(a, b, c);
    }
  }

  // ----- sorting by a total preorder -----

  ghost predicate TotalPreorder<T(!new)>(le: (T, T) -> bool) {
    && (forall a, b :: le(a, b) || le(b, a))
    && (forall a, b, c :: le(a, b) && le(b, c) ==> le(a, c))
  }

  ghost predicate SortedBy<T>(le: (T, T) -> bool, s: seq<T>) {
    forall i, j {:trigger le(s[i], s[j])} :: 0 <= i < j < |s| ==> le(s[i], s[j])
  }

  lemma ConsSorted<T>(le: (T, T) -> bool, x: T, t: seq<T>)
    requires SortedBy(le, t) && forall i :: 0 <= i < |t| ==> le(x, t[i])
    ensures SortedBy(le, [x] + t)
  {
  }

  function InsertBy<T(!new)>(le: (T, T) -> bool, x: T, s: seq<T>): (r: seq<T>)
    requires TotalPreorder(le)
    requires SortedBy(le, s)
    ensures multiset(r) == multiset{x} + multiset(s)
    ensures |r| == |s| + 1
    ensures SortedBy(le, r)
  {
    if s == [] then [x]
    else if le(x, s[0]) then
      assert forall j :: 0 < j < |s| ==> le(s[0], s[j]);
      ConsSorted(le, x, s);
      [x] + s
    else
      TailSorted(le, s);
      var t := InsertBy(le, x, s[1..]);
      assert s == [s[0]] + s[1..];
      assert forall i :: 0 <= i < |t| ==> t[i] in multiset(t) && le(s[0], t[i]);
      ConsSorted(le, s[0], t);
      [s[0]] + t
  }

  /** What a library sort delivers: the same elements, in order. */
  function SortBy<T(!new)>(le: (T, T) -> bool, s: seq<T>): (r: seq<T>)
    requires TotalPreorder(le)
    ensures multiset(r) == multiset(s)
    ensures |r| == |s|
    ensures SortedBy(le, r)
  {
    if s == [] then []
    else
      assert s == [s[0]] + s[1..];
      InsertBy(le, s[0], SortBy(le, s[1..]))
  }

  lemma TailSorted<T>(le: (T, T) -> bool, s: seq<T>)
    requires SortedBy(le, s) && s != []
    ensures SortedBy(le, s[1..])
  {
    forall i, j | 0 <= i < j < |s[1..]|
      ensures le(s[1..][i], s[1..][j])
    {
      assert le(s[i + 1], s[j + 1]);
    }
  }

  lemma MultisetTail<T>(s: seq<T>)
    requires s != []
    ensures multiset(s[1..]) == multiset(s) - multiset{s[0]}
  {
    assert s == [s[0]] + s[1..];
  }

  lemma MultisetWithout<T>(s: seq<T>, k: nat)
    requires k < |s|
    ensures multiset(s[..k] + s[k + 1..]) == multiset(s) - multiset{s[k]}
  {
    assert s == s[..k] + [s[k]] + s[k + 1..];
  }

  /** Where the last element of one list sits in a permutation of it. */
  lemma TakeOut<T>(xs: seq<T>, ys: seq<T>) returns (k: nat)
    requires xs != [] && multiset(xs) == multiset(ys)
    ensures k < |ys| && ys[k] == xs[|xs| - 1]
    ensures multiset(xs[..|xs| - 1]) == multiset(ys[..k] + ys[k + 1..])
  {
    assert xs[|xs| - 1] in multiset(ys);
    k :| 0 <= k < |ys| && ys[k] == xs[|xs| - 1];
    MultisetWithout(ys, k);
    MultisetWithout(xs, |xs| - 1);
    assert xs[..|xs| - 1] + xs[|xs|..] == xs[..|xs| - 1];
  }

  /** The first elements agree when no two different elements are tied. */
  lemma SortedHeads<T(!new)>(le: (T, T) -> bool, a: seq<T>, b: seq<T>)
    requires SortedBy(le, a) && SortedBy(le, b) && a != []
    requires multiset(a) == multiset(b)
    requires forall x, y :: x in a && y in a && le(x, y) && le(y, x) ==> x == y
    ensures b != [] && a[0] == b[0]
  {
    assert a[0] in multiset(b);
    assert b[0] in multiset(a);
    var i :| 0 <= i < |b| && b[i] == a[0];
    var j :| 0 <= j < |a| && a[j] == b[0];
    if i > 0 && j > 0 { assert le(b[0], b[i]) && le(a[0], a[j]); }
  }

  /** Two sorted arrangements of the same elements agree when no two different
      elements of them are tied. */
  lemma {:induction false} SortedUnique<T(!new)>(le: (T, T) -> bool, a: seq<T>, b: seq<T>)
    requires SortedBy(le, a) && SortedBy(le, b)
    requires multiset(a) == multiset(b)
    requires forall x, y :: x in a && y in a && le(x, y) && le(y, x) ==> x == y
    ensures a == b
  {
    if a == [] {
      assert |multiset(b)| == 0;
    } else {
      SortedHeads(le, a, b);
      MultisetTail(a);
      MultisetTail(b);
      TailSorted(le, a);
      TailSorted(le, b);
      SortedUnique(le, a[1..], b[1..]);
      assert a == [a[0]] + a[1..] && b == [b[0]] + b[1..];
    }
  }

  // ----- increasing listings of sets of strings -----

  function Elems<T>(s: seq<T>): (r: set<T>) {
    set x | x in s
  }

  ghost predicate Increasing(s: seq<string>) {
    forall i, j {:trigger LexLt(s[i], s[j])} :: 0 <= i < j < |s| ==> LexLt(s[i], s[j])
  }

  lemma {:induction false} LeastBy<T(!new)>(le: (T, T) -> bool, X: set<T>) returns (m: T)
    requires TotalPreorder(le)
    requires X != {}
    ensures m in X && forall x :: x in X ==> le(m, x)
  {
    var x :| x in X;
    m := x;
    if X != {x} {
      var rest := LeastBy(le, X - {x});
      m := if le(x, rest) then x else rest;
      assert forall y :: y in X ==> y == x || y in X - {x};
    }
  }

  ghost function Least(X: set<string>): (m: string)
    requires X != {}
    ensures m in X
    ensures forall x :: x in X ==> LexLe(m, x)
  {
    LexOrder();
    assert exists m :: m in X && forall x :: x in X ==> LexLe(m, x) by {
      var m := LeastBy(LexLe, X);
    }
    var m :| m in X && forall x :: x in X ==> LexLe(m, x);
    m
  }

  ghost predicate Lists(s: seq<string>, X: set<string>) {
    && Increasing(s)
    && |s| == |X|
    && forall x :: x in X <==> x in s
  }

  lemma {:induction false} ListingExists(X: set<string>) returns (s: seq<string>)
    ensures Lists(s, X)
  {
    if X == {} {
      s := [];
    } else {
      var m := Least(X);
      var t := ListingExists(X - {m});
      assert forall i :: 0 <= i < |t| ==> t[i] in X - {m};
      s := [m] + t;
    }
  }

  /** The increasing listing of a set: every element once. */
  ghost function SortedSeq(X: set<string>): (s: seq<string>)
    ensures Increasing(s)
    ensures |s| == |X|
    ensures forall x :: x in X <==> x in s
  {
    assert exists s :: Lists(s, X) by {
      var s := ListingExists(X);
    }
    var s :| Lists(s, X);
    s
  }

  lemma TailIncreasing(s: seq<string>)
    requires Increasing(s) && s != []
    ensures Increasing(s[1..])
    ensures forall x :: x in s[1..] <==> x in s && x != s[0]
  {
    forall i, j | 0 <= i < j < |s[1..]|
      ensures LexLt(s[1..][i], s[1..][j])
    {
      assert LexLt(s[i + 1], s[j + 1]);
    }
    forall x ensures x in s[1..] <==> x in s && x != s[0] {
      if x in s[1..] {
        var i :| 0 < i < |s| && s[i] == x;
        assert LexLt(s[0], s[i]);
      }
      if x in s && x != s[0] {
        var i :| 0 <= i < |s| && s[i] == x;
        assert s[1..][i - 1] == x;
      }
    }
  }

  lemma {:induction false} IncreasingUnique(a: seq<string>, b: seq<string>)
    requires Increasing(a) && Increasing(b)
    requires forall x :: x in a <==> x in b
    ensures a == b
  {
    if b != [] {
      assert b[0] in a;
    }
    if a != [] {
      assert a[0] in b;
      var i :| 0 <= i < |b| && b[i] == a[0];
      var j :| 0 <= j < |a| && a[j] == b[0];
      if i > 0 && j > 0 {
        assert LexLt(a[0], a[j]) && LexLt(b[0], b[i]);
        LexAntisymmetric(a[0], b[0]);
      }
      TailIncreasing(a);
      TailIncreasing(b);
      IncreasingUnique(a[1..], b[1..]);
      assert a == [a[0]] + a[1..] && b == [b[0]] + b[1..];
    }
  }

  lemma SortedSeqUnique(a: seq<string>)
    requires Increasing(a)
    ensures a == SortedSeq(Elems(a))
  {
    SortedSeqOf(Elems(a), a);
  }

  lemma SortedSeqOf(X: set<string>, a: seq<string>)
    requires Increasing(a) && forall x :: x in X <==> x in a
    ensures a == SortedSeq(X)
  {
    IncreasingUnique(a, SortedSeq(X));
  }

  /** `slices.Sort` on strings. */
  function SortStrings(s: seq<string>): (r: seq<string>)
    ensures multiset(r) == multiset(s)
    ensures |r| == |s|
    ensures SortedBy(LexLe, r)
  {
    LexOrder();
    SortBy(LexLe, s)
  }

  ghost predicate Distinct<T>(s: seq<T>) {
    forall i, j :: 0 <= i < j < |s| ==> s[i] != s[j]
  }

  lemma DistinctMultiset<T>(s: seq<T>, x: T)
    ensures Distinct(s) ==> multiset(s)[x] <= 1
    ensures x in s <==> multiset(s)[x] >= 1
  {
    if s != [] {
      assert s == [s[0]] + s[1..];
      DistinctMultiset(s[1..], x);
      assert x in s <==> x == s[0] || x in s[1..];
      if Distinct(s) { assert s[0] !in s[1..]; }
    }
  }

  lemma MultisetDistinct<T>(s: seq<T>)
    requires forall x :: multiset(s)[x] <= 1
    ensures Distinct(s)
  {
    forall i, j | 0 <= i < j < |s|
      ensures s[i] != s[j]
    {
      assert s == s[..j] + s[j..];
      assert multiset(s) == multiset(s[..j]) + multiset(s[j..]);
      assert s[..j][i] in multiset(s[..j]) && s[j..][0] in multiset(s[j..]);
      assert multiset(s)[s[i]] <= 1;
    }
  }

  lemma {:induction false} DistinctSize<T>(s: seq<T>)
    requires Distinct(s)
    ensures |Elems(s)| == |s|
  {
    if s != [] {
      DistinctSize(s[1..]);
      assert s == [s[0]] + s[1..];
      assert Elems(s) == {s[0]} + Elems(s[1..]);
    }
  }

  lemma PermutationDistinct<T>(s: seq<T>, t: seq<T>)
    requires multiset(s) == multiset(t) && Distinct(s)
    ensures Distinct(t)
    ensures Elems(s) == Elems(t)
    ensures forall x :: x in s <==> x in t
  {
    forall x ensures multiset(t)[x] <= 1 { DistinctMultiset(s, x); }
    MultisetDistinct(t);
    SameElems(s, t);
  }

  lemma SameElems<T>(s: seq<T>, t: seq<T>)
    requires multiset(s) == multiset(t)
    ensures Elems(s) == Elems(t)
    ensures forall x :: x in s <==> x in t
  {
    forall x ensures x in s <==> x in t {
      assert x in s <==> x in multiset(s);
      assert x in t <==> x in multiset(t);
    }
  }

  lemma IncreasingDistinct(s: seq<string>)
    requires Increasing(s)
    ensures Distinct(s)
  {
    forall i, j | 0 <= i < j < |s|
      ensures s[i] != s[j]
    {
      assert LexLt(s[i], s[j]);
    }
  }

  /** Sorting a listing changes nothing. */
  lemma SortIncreasing(s: seq<string>)
    requires Increasing(s)
    ensures SortStrings(s) == s
  {
    IncreasingDistinct(s);
    SortStringsDistinct(s);
    SortedSeqUnique(s);
  }

  /** Sorting distinct strings lists their set. */
  lemma SortStringsDistinct(s: seq<string>)
    requires Distinct(s)
    ensures SortStrings(s) == SortedSeq(Elems(s))
  {
    var r := SortStrings(s);
    PermutationDistinct(s, r);
    forall i, j | 0 <= i < j < |r|
      ensures LexLt(r[i], r[j])
    {
      assert LexLe(r[i], r[j]);
    }
    SortedSeqOf(Elems(s), r);
  }

  lemma {:induction false} SubsetSize<T>(a: set<T>, b: set<T>)
    requires a <= b
    ensures |a| <= |b|
  {
    if a != {} {
      var x :| x in a;
      SubsetSize(a - {x}, b - {x});
    }
  }

  /** The keys of a map, collected in any order and sorted. */
  method ListKeys(keys: set<string>) returns (names: seq<string>)
    ensures names == SortedSeq(keys)
  {
    names := [];
    var todo := keys;
    while todo != {}
      invariant todo <= keys && Distinct(names)
      invariant forall x :: x in names <==> x in keys && x !in todo
      decreases |todo|
    {
      var x :| x in todo;
      todo := todo - {x};
      names := names + [x];
    }
    SortStringsDistinct(names);
    assert Elems(names) == keys;
    names := SortStrings(names);
  }
}
