/**
 Keeping the cache inside its budgets: least-recently-used eviction in pages,
 shared bytes, and the orphan pass. Models internal/cache/evict.go and
 internal/cache/orphan.go over the contracts of internal/meta/store.go.
 */
module CacheEviction {
  import opened Order

  type Digest = string
  type Time = int

  datatype Kind = Blob | Manifest

  datatype Key = Key(repository: string, digest: Digest, kind: Kind)

  datatype Row = Row(size: int, lastAccess: Time)

  type Rows = map<Key, Row>

  datatype Item = Item(key: Key, size: int, lastAccess: Time)

  datatype OrphanResult = OrphanResult(scanned: int, reclaimed: int, failed: int, truncated: bool)

  datatype Result = Result(manifests: int, blobs: int, bytes: int, shared: int, skipped: int, failed: int)

  // ----- scopes and usage -----

  predicate InScope(repository: string, entity: string) {
    entity == "" || repository == entity || entity + "/" <= repository
  }

  function Scope(rows: Rows, entity: string): (r: set<Key>) {
    set k | k in rows && InScope(k.repository, entity)
  }

  ghost function Sum(rows: Rows, ks: set<Key>): (n: int)
    requires ks <= rows.Keys
  {
    if ks == {} then 0
    else
      var k :| k in ks;
      rows[k].size + Sum(rows, ks - {k})
  }

  lemma {:induction false} SumWithout(rows: Rows, ks: set<Key>, k: Key)
    requires ks <= rows.Keys && k in ks
    ensures Sum(rows, ks) == rows[k].size + Sum(rows, ks - {k})
    decreases ks
  {
    var j :| j in ks && Sum(rows, ks) == rows[j].size + Sum(rows, ks - {j});
    if j != k {
      SumWithout(rows, ks - {j}, k);
      SumWithout(rows, ks - {k}, j);
      assert ks - {j} - {k} == ks - {k} - {j};
    }
  }

  /** Sums depend only on the rows summed. */
  lemma {:induction false} SumAgrees(a: Rows, b: Rows, ks: set<Key>)
    requires ks <= a.Keys && ks <= b.Keys && forall k {:trigger a[k]} :: k in ks ==> a[k] == b[k]
    ensures Sum(a, ks) == Sum(b, ks)
    decreases ks
  {
    if ks != {} {
      var k :| k in ks;
      SumWithout(a, ks, k);
      SumWithout(b, ks, k);
      SumAgrees(a, b, ks - {k});
    }
  }

  ghost predicate NonNegative(rows: Rows) {
    forall k {:trigger rows[k]} :: k in rows ==> rows[k].size >= 0
  }

  ghost function Weightless(rows: Rows): (r: set<Key>) { set k | k in rows && rows[k].size == 0 }

  /** Fewer rows of size zero than a page holds. */
  ghost predicate Sized(rows: Rows, pageSize: int) { NonNegative(rows) && |Weightless(rows)| < pageSize }

  lemma {:induction false} SumMonotone(rows: Rows, a: set<Key>, b: set<Key>)
    requires a <= b <= rows.Keys && NonNegative(rows)
    ensures 0 <= Sum(rows, a) <= Sum(rows, b)
    decreases b
  {
    if b != {} {
      var k :| k in b;
      SumWithout(rows, b, k);
      if k in a {
        SumWithout(rows, a, k);
        SumMonotone(rows, a - {k}, b - {k});
      } else {
        SumMonotone(rows, a, b - {k});
      }
    }
  }

  ghost function Usage(rows: Rows, entity: string): (n: int) { Sum(rows, Scope(rows, entity)) }

  method CachedUsage(rows: Rows, entity: string) returns (n: int)
    ensures n == Usage(rows, entity)
  {
    n := 0;
    var todo := Scope(rows, entity);
    while todo != {}
      invariant todo <= Scope(rows, entity) && n + Sum(rows, todo) == Usage(rows, entity)
      decreases |todo|
    {
      var k :| k in todo;
      SumWithout(rows, todo, k);
      n := n + rows[k].size;
      todo := todo - {k};
    }
  }

  // ----- least recently used first -----

  function KindRank(k: Kind): (r: int) { if k.Blob? then 0 else 1 }

  /** Oldest access first; ties by name, then digest, then kind. */
  predicate ColderEq(a: Item, b: Item) {
    if a.lastAccess != b.lastAccess then a.lastAccess < b.lastAccess
    else if a.key.repository != b.key.repository then LexLt(a.key.repository, b.key.repository)
    else if a.key.digest != b.key.digest then LexLt(a.key.digest, b.key.digest)
    else KindRank(a.key.kind) <= KindRank(b.key.kind)
  }

  lemma ColderTotal(a: Item, b: Item)
    ensures ColderEq(a, b) || ColderEq(b, a)
  {
    LexTotal(a.key.repository, b.key.repository);
    LexTotal(a.key.digest, b.key.digest);
  }

  lemma ColderTransitive(a: Item, b: Item, c: Item)
    requires ColderEq(a, b) && ColderEq(b, c)
    ensures ColderEq(a, c)
  {
    if LexLt(a.key.repository, b.key.repository) && LexLt(b.key.repository, c.key.repository) {
      LexLtTransitive(a.key.repository, b.key.repository, c.key.repository);
    }
    if LexLt(a.key.digest, b.key.digest) && LexLt(b.key.digest, c.key.digest) {
      LexLtTransitive(a.key.digest, b.key.digest, c.key.digest);
    }
  }

  lemma ColderOrder()
    ensures TotalPreorder(ColderEq)
  {
    forall a, b ensures ColderEq(a, b) || ColderEq(b, a) { ColderTotal(a, b); }
    forall a, b, c | ColderEq(a, b) && ColderEq(b, c) ensures ColderEq(a, c) { ColderTransitive(a, b, c); }
  }

  function ItemAt(rows: Rows, k: Key): (i: Item)
    requires k in rows
  {
    Item(k, rows[k].size, rows[k].lastAccess)
  }

  /** `k` goes before every other key of `rest`. */
  ghost predicate Coldest(rows: Rows, k: Key, rest: set<Key>)
    requires k in rows && rest <= rows.Keys
  {
    forall j {:trigger j in rest} :: j in rest ==> ColderEq(ItemAt(rows, k), ItemAt(rows, j))
  }

  /** A page lists scope rows coldest first, and whatever it leaves out comes after. */
  ghost predicate Listed(rows: Rows, entity: string, limit: int, items: seq<Item>) {
    && (forall i {:trigger items[i]} ::
          0 <= i < |items| ==> items[i].key in Scope(rows, entity) && items[i] == ItemAt(rows, items[i].key))
    && (forall i, j {:trigger items[i], items[j]} :: 0 <= i < j < |items| ==> items[i].key != items[j].key)
    && (forall i {:trigger items[i]} ::
          0 <= i < |items| ==> Coldest(rows, items[i].key, Scope(rows, entity) - Keys(items[..i])))
    && (limit > 0 ==> |items| <= limit) && (|items| < limit ==> Scope(rows, entity) <= Keys(items))
  }

  ghost function Keys(items: seq<Item>): (r: set<Key>) { set i | 0 <= i < |items| :: items[i].key }

  lemma KeysSnoc(items: seq<Item>, i: nat)
    requires i < |items|
    ensures Keys(items[..i + 1]) == Keys(items[..i]) + {items[i].key}
  {
    assert items[..i + 1] == items[..i] + [items[i]];
    forall k ensures k in Keys(items[..i + 1]) <==> k in Keys(items[..i]) + {items[i].key} {
      if k == items[i].key { assert items[..i + 1][i].key == k; }
      if k in Keys(items[..i]) {
        var j :| 0 <= j < i && items[..i][j].key == k;
        assert items[..i + 1][j].key == k;
      }
    }
  }

  /** Every row of the scope once. */
  ghost predicate Collected(rows: Rows, ks: set<Key>, items: seq<Item>) {
    && ks <= rows.Keys
    && (forall i {:trigger items[i]} ::
          0 <= i < |items| ==> items[i].key in ks && items[i] == ItemAt(rows, items[i].key))
    && (forall k {:trigger k in ks} :: k in ks ==> ItemAt(rows, k) in items)
    && Distinct(items)
  }

  method Collect(rows: Rows, entity: string) returns (items: seq<Item>)
    ensures Collected(rows, Scope(rows, entity), items)
  {
    items := [];
    ghost var done: set<Key> := {};
    var todo := Scope(rows, entity);
    while todo != {}
      invariant todo <= Scope(rows, entity) && done == Scope(rows, entity) - todo
      invariant Collected(rows, done, items)
      decreases |todo|
    {
      var k :| k in todo;
      assert ItemAt(rows, k) !in items;
      items := items + [ItemAt(rows, k)];
      todo, done := todo - {k}, done + {k};
    }
    assert done == Scope(rows, entity);
  }

  lemma CollectedPermutes(rows: Rows, ks: set<Key>, a: seq<Item>, b: seq<Item>)
    requires Collected(rows, ks, a) && multiset(a) == multiset(b)
    ensures Collected(rows, ks, b)
  {
    PermutationDistinct(a, b);
    forall i | 0 <= i < |b| ensures b[i].key in ks && b[i] == ItemAt(rows, b[i].key) {
      assert b[i] in a;
      var j :| 0 <= j < |a| && a[j] == b[i];
    }
  }

  method ListEvictable(rows: Rows, entity: string, limit: int) returns (items: seq<Item>)
    ensures Listed(rows, entity, limit, items)
  {
    if limit <= 0 { return []; }
    var all := Collect(rows, entity);
    ColderOrder();
    var sorted := SortBy(ColderEq, all);
    CollectedPermutes(rows, Scope(rows, entity), all, sorted);
    FirstPage(rows, entity, limit, sorted);
    items := if |sorted| > limit then sorted[..limit] else sorted;
  }

  lemma FirstPage(rows: Rows, entity: string, limit: int, sorted: seq<Item>)
    requires limit > 0 && Collected(rows, Scope(rows, entity), sorted) && SortedBy(ColderEq, sorted)
    ensures Listed(rows, entity, limit, if |sorted| > limit then sorted[..limit] else sorted)
  {
    var items := if |sorted| > limit then sorted[..limit] else sorted;
    SortedListing(rows, entity, sorted);
    forall i | 0 <= i < |items|
      ensures Coldest(rows, items[i].key, Scope(rows, entity) - Keys(items[..i]))
    {
      assert items[..i] == sorted[..i] && items[i] == sorted[i];
    }
    assert forall k {:trigger k in Scope(rows, entity)} :: k in Scope(rows, entity) ==> ItemAt(rows, k) in sorted;
  }

  lemma SortedListing(rows: Rows, entity: string, sorted: seq<Item>)
    requires Collected(rows, Scope(rows, entity), sorted) && SortedBy(ColderEq, sorted)
    ensures forall i, j {:trigger sorted[i], sorted[j]} :: 0 <= i < j < |sorted| ==> sorted[i].key != sorted[j].key
    ensures forall i {:trigger sorted[i]} ::
          0 <= i < |sorted| ==> Coldest(rows, sorted[i].key, Scope(rows, entity) - Keys(sorted[..i]))
  {
    forall i, j | 0 <= i < j < |sorted| ensures sorted[i].key != sorted[j].key {
      assert sorted[i] == ItemAt(rows, sorted[i].key) && sorted[j] == ItemAt(rows, sorted[j].key);
    }
    forall i, k | 0 <= i < |sorted| && k in Scope(rows, entity) - Keys(sorted[..i])
      ensures ColderEq(ItemAt(rows, sorted[i].key), ItemAt(rows, k))
    {
      assert ItemAt(rows, k) in sorted;
      var j :| 0 <= j < |sorted| && sorted[j] == ItemAt(rows, k);
      assert i <= j;
      ColderTotal(sorted[i], sorted[i]);
      if i < j { assert ColderEq(sorted[i], sorted[j]); }
    }
  }

  // ----- what one pass evicts -----

  /** Coldest first, each once. */
  ghost predicate ColdPrefix(rows: Rows, entity: string, order: seq<Key>) {
    && (forall i {:trigger order[i]} ::
          0 <= i < |order| ==> order[i] in Scope(rows, entity) && order[i] !in Elems(order[..i]))
    && (forall i {:trigger order[i]} ::
          0 <= i < |order| ==> Coldest(rows, order[i], Scope(rows, entity) - Elems(order[..i])))
  }

  /** Taken one at a time, each the coldest left and each while still over target. */
  ghost predicate TakenInOrder(rows: Rows, entity: string, target: int, order: seq<Key>) {
    && ColdPrefix(rows, entity, order)
    && (forall i {:trigger order[..i]} ::
          0 <= i < |order| ==> Sum(rows, Scope(rows, entity) - Elems(order[..i])) > target)
  }

  lemma TakeOne(rows: Rows, entity: string, target: int, order: seq<Key>, k: Key)
    requires TakenInOrder(rows, entity, target, order)
    requires k in Scope(rows, entity) && k !in Elems(order)
    requires Coldest(rows, k, Scope(rows, entity) - Elems(order))
    requires Sum(rows, Scope(rows, entity) - Elems(order)) > target
    ensures TakenInOrder(rows, entity, target, order + [k])
    ensures Sum(rows, Scope(rows, entity) - Elems(order + [k])) ==
          Sum(rows, Scope(rows, entity) - Elems(order)) - rows[k].size
  {
    var next, left := order + [k], Scope(rows, entity) - Elems(order);
    assert next[..|order|] == order;
    forall i | 0 <= i < |order| ensures next[..i] == order[..i] { }
    SumWithout(rows, left, k);
    assert Scope(rows, entity) - Elems(next) == left - {k};
  }

  /** The pass has removed exactly the rows of `order`, and `after` is what they leave. */
  ghost predicate Accounts(start: Rows, rows: Rows, entity: string, order: seq<Key>, after: int) {
    && Elems(order) <= Scope(start, entity) && Distinct(order)
    && rows == start - Elems(order)
    && after == Sum(start, Scope(start, entity) - Elems(order))
  }

  lemma AccountOne(start: Rows, rows: Rows, entity: string, order: seq<Key>, after: int, k: Key)
    requires Accounts(start, rows, entity, order, after) && k in Scope(rows, entity)
    ensures k in start && Accounts(start, rows - {k}, entity, order + [k], after - start[k].size)
    ensures rows[k] == start[k]
  {
    var left := Scope(start, entity) - Elems(order);
    SumWithout(start, left, k);
    assert Elems(order + [k]) == Elems(order) + {k};
    assert Scope(start, entity) - Elems(order + [k]) == left - {k};
    assert rows - {k} == start - Elems(order + [k]);
  }

  /** The coldest row of what is left is the coldest of what the pass has not taken. */
  lemma ColdestLeft(start: Rows, rows: Rows, entity: string, order: seq<Key>, after: int, listed: Rows,
                    items: seq<Item>, limit: int, i: nat)
    requires Accounts(start, rows, entity, order, after) && Listed(listed, entity, limit, items) && i < |items|
    requires rows == listed - Keys(items[..i])
    ensures items[i].key in Scope(rows, entity) && items[i] == ItemAt(rows, items[i].key)
    ensures items[i].key in Scope(start, entity) && Coldest(start, items[i].key, Scope(start, entity) - Elems(order))
  {
    var k := items[i].key;
    assert forall j {:trigger items[j]} :: 0 <= j < i ==> items[j].key != k;
    assert k in rows && start[k] == rows[k];
    assert Coldest(listed, k, Scope(listed, entity) - Keys(items[..i]));
    forall j | j in Scope(start, entity) - Elems(order)
      ensures ColderEq(ItemAt(start, k), ItemAt(start, j))
    {
      assert j in rows && start[j] == rows[j] == listed[j];
      assert j in Scope(listed, entity) - Keys(items[..i]);
    }
  }

  // ----- pages that free nothing -----

  ghost predicate ZeroRows(rows: Rows, ks: seq<Key>) {
    forall i {:trigger ks[i]} :: 0 <= i < |ks| ==> ks[i] in rows && rows[ks[i]].size == 0
  }

  /** Over target, a whole page of the coldest rows has size zero. */
  ghost predicate Stalls(rows: Rows, entity: string, target: int, pageSize: int)
    requires pageSize > 0
  {
    exists p {:trigger ColdPrefix(rows, entity, p)} ::
      ColdPrefix(rows, entity, p) && StallsAt(rows, entity, target, pageSize, p)
  }

  ghost predicate StallsAt(rows: Rows, entity: string, target: int, pageSize: int, p: seq<Key>)
    requires pageSize > 0
  {
    && |p| >= pageSize && |p| % pageSize == 0 && ZeroRows(rows, p[|p| - pageSize..])
    && Sum(rows, Scope(rows, entity) - Elems(p)) > target
  }

  /** What a pass leaves: the coldest rows taken while over target, down to it exactly when
      no page stalls. */
  ghost predicate Drained(rows: Rows, entity: string, target: int, pageSize: int, order: seq<Key>)
    requires pageSize > 0
  {
    && TakenInOrder(rows, entity, target, order)
    && (Sum(rows, Scope(rows, entity) - Elems(order)) <= target <==> !Stalls(rows, entity, target, pageSize))
  }

  /** No page taken so far freed nothing. */
  ghost predicate Cleared(rows: Rows, order: seq<Key>, pageSize: int)
    requires pageSize > 0
  {
    forall n {:trigger order[..n]} ::
      pageSize <= n <= |order| && n % pageSize == 0 ==> !ZeroRows(rows, order[n - pageSize..n])
  }

  /** Between pages: stuck is stalled, and otherwise every page so far freed something. */
  ghost predicate Going(rows: Rows, entity: string, target: int, pageSize: int, order: seq<Key>, after: int,
                        stuck: bool)
  {
    NonNegative(rows) && pageSize > 0 ==>
      if stuck then after > target && Stalls(rows, entity, target, pageSize)
      else Cleared(rows, order, pageSize) && (after > target ==> |order| % pageSize == 0)
  }

  lemma {:induction false} SumZeroIff(rows: Rows, ks: set<Key>)
    requires ks <= rows.Keys && NonNegative(rows)
    ensures Sum(rows, ks) == 0 <==> forall k {:trigger k in ks} :: k in ks ==> rows[k].size == 0
    decreases ks
  {
    if ks != {} {
      var k :| k in ks;
      SumWithout(rows, ks, k);
      SumMonotone(rows, {}, ks - {k});
      SumZeroIff(rows, ks - {k});
      assert forall j {:trigger j in ks} :: j in ks ==> j == k || j in ks - {k};
    }
  }

  /** Taking more rows frees nothing exactly when they all have size zero. */
  lemma FreedNothingIff(rows: Rows, entity: string, order0: seq<Key>, order: seq<Key>)
    requires NonNegative(rows) && order0 <= order && ColdPrefix(rows, entity, order)
    ensures Sum(rows, Scope(rows, entity) - Elems(order0)) == Sum(rows, Scope(rows, entity) - Elems(order)) <==>
        ZeroRows(rows, order[|order0|..])
  {
    var page := order[|order0|..];
    var left := Scope(rows, entity) - Elems(order0);
    PageIsNew(rows, entity, order0, order);
    SumSplit(rows, left, Elems(page));
    SumZeroIff(rows, Elems(page));
    assert left - Elems(page) == Scope(rows, entity) - Elems(order);
    ZeroElems(rows, page);
  }

  lemma ZeroElems(rows: Rows, page: seq<Key>)
    requires Elems(page) <= rows.Keys
    ensures ZeroRows(rows, page) <==> forall k {:trigger k in Elems(page)} :: k in Elems(page) ==> rows[k].size == 0
  {
    if forall k {:trigger k in Elems(page)} :: k in Elems(page) ==> rows[k].size == 0 {
      forall i | 0 <= i < |page| ensures page[i] in rows && rows[page[i]].size == 0 { assert page[i] in Elems(page); }
    }
    if ZeroRows(rows, page) {
      forall k | k in Elems(page) ensures rows[k].size == 0 { var i :| 0 <= i < |page| && page[i] == k; }
    }
  }

  lemma PageIsNew(rows: Rows, entity: string, order0: seq<Key>, order: seq<Key>)
    requires order0 <= order && ColdPrefix(rows, entity, order)
    ensures Elems(order) == Elems(order0) + Elems(order[|order0|..])
    ensures Elems(order[|order0|..]) <= Scope(rows, entity) - Elems(order0)
  {
    var page := order[|order0|..];
    assert order == order0 + page;
    forall i | 0 <= i < |page|
      ensures page[i] in Scope(rows, entity) && page[i] !in Elems(order0)
    {
      var n := |order0| + i;
      assert page[i] == order[n] && order[n] !in Elems(order[..n]);
      assert order[..n] == order0 + page[..i];
    }
  }

  lemma NextMultiple(a: int, n: int, size: int)
    requires size > 0 && a % size == 0
    ensures (a + size) % size == 0
    ensures a < n <= a + size && n % size == 0 ==> n == a + size
  {
    var q := a / size;
    assert a == q * size && a + size == (q + 1) * size;
    Multiple(q + 1, size);
    if a < n <= a + size && n % size == 0 {
      var m := n / size;
      assert n == m * size;
      Between(q, m, size);
    }
  }

  lemma Multiple(q: int, size: int)
    requires size > 0
    ensures (q * size) % size == 0
  {
    var m := (q * size) % size;
    var d := (q * size) / size;
    assert q * size == d * size + m;
    assert m == (q - d) * size;
    SmallMultiple(q - d, size);
  }

  lemma SmallMultiple(x: int, size: int)
    requires size > 0 && 0 <= x * size < size
    ensures x == 0
  {
  }

  lemma Between(q: int, m: int, size: int)
    requires size > 0 && q * size < m * size <= q * size + size
    ensures m == q + 1
  {
    var x := 1 - (m - q);
    assert x * size == size - (m * size - q * size);
    SmallMultiple(x, size);
  }

  /** The next page, taken from a page boundary, was not a waste. */
  lemma ClearedOn(rows: Rows, order0: seq<Key>, order: seq<Key>, pageSize: int)
    requires pageSize > 0 && Cleared(rows, order0, pageSize) && |order0| % pageSize == 0
    requires order0 <= order && |order| <= |order0| + pageSize && !ZeroRows(rows, order[|order0|..])
    ensures Cleared(rows, order, pageSize)
  {
    forall n | pageSize <= n <= |order| && n % pageSize == 0
      ensures !ZeroRows(rows, order[n - pageSize..n])
    {
      if n <= |order0| {
        assert order0[..n] == order[..n] && order0[n - pageSize..n] == order[n - pageSize..n];
      } else {
        NextMultiple(|order0|, n, pageSize);
        assert order[n - pageSize..n] == order[|order0|..];
      }
    }
  }

  /** After a page: nothing freed means the pass has stalled, and otherwise it was no waste. */
  lemma TurnDone(rows: Rows, entity: string, target: int, order0: seq<Key>, order: seq<Key>, before: int, after: int,
                 pageSize: int)
    requires
      && pageSize > 0
      && NonNegative(rows)
      && ColdPrefix(rows, entity, order)
      && order0 <= order
      && |order| <= |order0| + pageSize
    requires Cleared(rows, order0, pageSize) && |order0| % pageSize == 0 && before > target
    requires
      && before == Sum(rows, Scope(rows, entity) - Elems(order0))
      && after == Sum(rows, Scope(rows, entity) - Elems(order))
    requires after > target ==> |order| == |order0| + pageSize
    ensures after != before ==> Cleared(rows, order, pageSize)
    ensures after > target ==> |order| % pageSize == 0
    ensures after == before ==> Stalls(rows, entity, target, pageSize)
  {
    FreedNothingIff(rows, entity, order0, order);
    NextMultiple(|order0|, |order|, pageSize);
    if after == before {
      assert order[|order| - pageSize..] == order[|order0|..];
      assert StallsAt(rows, entity, target, pageSize, order);
    } else {
      ClearedOn(rows, order0, order, pageSize);
    }
  }

  /** A page with room to spare holds everything left, and that comes to nothing. */
  lemma PageWasFull(start: Rows, listed: Rows, entity: string, items: seq<Item>, pageSize: int, rows: Rows,
                    order: seq<Key>, after: int, target: int)
    requires Listed(listed, entity, pageSize, items) && rows == listed - Keys(items)
    requires Accounts(start, rows, entity, order, after) && after > target >= 0 && pageSize > 0
    ensures |items| == pageSize
  {
    if |items| < pageSize {
      assert Scope(rows, entity) == {};
      NothingLeft(start, rows, entity, order, after);
    }
  }

  lemma PageDone(start: Rows, listed: Rows, rows: Rows, entity: string, items: seq<Item>, target: int, order0: seq<Key>,
                 order: seq<Key>,
                 before: int, after: int, pageSize: int)
    requires
      && pageSize > 0
      && NonNegative(start)
      && target >= 0
      && before > target
      && Listed(listed, entity, pageSize, items)
    requires ColdPrefix(start, entity, order) && order0 <= order && |order| <= |order0| + |items|
    requires Cleared(start, order0, pageSize) && |order0| % pageSize == 0
    requires before == Sum(start, Scope(start, entity) - Elems(order0)) && Accounts(start, rows, entity, order, after)
    requires after > target ==> |order| == |order0| + |items| && rows == listed - Keys(items)
    ensures after != before ==> Cleared(start, order, pageSize)
    ensures after > target ==> |order| % pageSize == 0
    ensures after == before ==> Stalls(start, entity, target, pageSize)
  {
    if after > target { PageWasFull(start, listed, entity, items, pageSize, rows, order, after, target); }
    TurnDone(start, entity, target, order0, order, before, after, pageSize);
  }

  lemma NotStalled(rows: Rows, entity: string, target: int, order: seq<Key>, pageSize: int)
    requires pageSize > 0 && NonNegative(rows) && ColdPrefix(rows, entity, order) && Cleared(rows, order, pageSize)
    requires Sum(rows, Scope(rows, entity) - Elems(order)) <= target
    ensures !Stalls(rows, entity, target, pageSize)
  {
    forall p | ColdPrefix(rows, entity, p)
      ensures !StallsAt(rows, entity, target, pageSize, p)
    {
      var n := if |p| < |order| then |p| else |order|;
      SameSoFar(rows, entity, p, order, n);
      assert p[..|p|] == p && order[..|order|] == order;
      if |p| <= |order| {
        if pageSize <= |p| && |p| % pageSize == 0 {
          assert order[|p| - pageSize..|p|] == p[|p| - pageSize..] by { assert order[..|p|] == p; }
        }
      } else {
        PageIsNew(rows, entity, order, p);
        SumMonotone(rows, Scope(rows, entity) - Elems(p), Scope(rows, entity) - Elems(order));
      }
    }
  }

  /** With fewer rows of size zero than a page holds, no page stalls. */
  lemma SizedNeverStalls(rows: Rows, entity: string, target: int, pageSize: int)
    requires pageSize > 0 && Sized(rows, pageSize)
    ensures !Stalls(rows, entity, target, pageSize)
  {
    forall p | ColdPrefix(rows, entity, p)
      ensures !StallsAt(rows, entity, target, pageSize, p)
    {
      if |p| >= pageSize {
        var page := p[|p| - pageSize..];
        ColdPrefixDistinct(rows, entity, p);
        if ZeroRows(rows, page) {
          assert Distinct(page) by { forall i, j | 0 <= i < j < |page| ensures page[i] != page[j] { } }
          DistinctSize(page);
          SubsetSize(Elems(page), Weightless(rows));
        }
      }
    }
  }

  lemma ColdPrefixDistinct(rows: Rows, entity: string, p: seq<Key>)
    requires ColdPrefix(rows, entity, p)
    ensures Distinct(p)
  {
    forall i, j | 0 <= i < j < |p|
      ensures p[i] != p[j]
    {
      assert p[j] !in Elems(p[..j]) && p[..j][i] == p[i];
    }
  }

  lemma SizedShrinks(was: Rows, rows: Rows, pageSize: int)
    requires Sized(was, pageSize) && Shrunk(was, rows)
    ensures Sized(rows, pageSize)
  {
    SubsetSize(Weightless(rows), Weightless(was));
  }

  const COLD := Key("r", "a", Manifest)
  const WARM := Key("r", "b", Manifest)
  const WASTE: Rows := map[COLD := Row(0, 1), WARM := Row(10, 2)]

  lemma WasteSums()
    ensures Scope(WASTE, "") == {COLD, WARM} && Sum(WASTE, {WARM}) == 10 && Sum(WASTE, {COLD, WARM}) == 10
  {
    assert {WARM} - {WARM} == {} && {COLD, WARM} - {COLD} == {WARM};
    SumWithout(WASTE, {WARM}, WARM);
    SumWithout(WASTE, {COLD, WARM}, COLD);
  }

  lemma ColdGoesFirst()
    ensures ColdPrefix(WASTE, "", [COLD])
  {
    var p := [COLD];
    WasteSums();
    assert p[..0] == [] && Scope(WASTE, "") - Elems(p[..0]) == {COLD, WARM};
    assert ColderEq(ItemAt(WASTE, COLD), ItemAt(WASTE, COLD)) && ColderEq(ItemAt(WASTE, COLD), ItemAt(WASTE, WARM));
    assert Coldest(WASTE, COLD, {COLD, WARM});
  }

  lemma ColdPageIsWaste()
    ensures StallsAt(WASTE, "", 5, 1, [COLD])
  {
    var p := [COLD];
    WasteSums();
    assert p[|p| - 1..] == p && ZeroRows(WASTE, p);
    assert Elems(p) == {COLD} && Scope(WASTE, "") - Elems(p) == {WARM};
  }

  lemma StallsBy(rows: Rows, entity: string, target: int, pageSize: int, p: seq<Key>)
    requires pageSize > 0 && ColdPrefix(rows, entity, p) && StallsAt(rows, entity, target, pageSize, p)
    ensures Stalls(rows, entity, target, pageSize)
  {
  }

  /** A coldest row of size zero, pages of one: the pass stops over its target. */
  lemma WeightlessPageStalls()
    ensures Usage(WASTE, "") == 10 && Stalls(WASTE, "", 5, 1)
  {
    WasteSums();
    ColdGoesFirst();
    ColdPageIsWaste();
    StallsBy(WASTE, "", 5, 1, [COLD]);
  }

  // ----- the evictor -----

  /** More was taken, or nothing was and nothing freed. */
  ghost predicate Advances(order0: seq<Key>, order: seq<Key>, after0: int, after: int) {
    order0 <= order && (order == order0 ==> after == after0)
  }

  /** The rest of the page is still there. */
  ghost predicate Waiting(rows: Rows, entity: string, items: seq<Item>, i: int) {
    forall j {:trigger items[j]} ::
      0 <= i <= j < |items| ==> items[j].key in Scope(rows, entity) && items[j] == ItemAt(rows, items[j].key)
  }

  lemma WaitingStep(rows: Rows, entity: string, items: seq<Item>, i: nat, listed: Rows, limit: int)
    requires Waiting(rows, entity, items, i) && i < |items| && Listed(listed, entity, limit, items)
    ensures items[i].key in Scope(rows, entity) && items[i] == ItemAt(rows, items[i].key)
    ensures Waiting(rows, entity, items, i + 1) && Waiting(rows - {items[i].key}, entity, items, i + 1)
  {
    var next := rows - {items[i].key};
    forall j | i < j < |items|
      ensures items[j].key in Scope(next, entity) && items[j] == ItemAt(next, items[j].key)
    {
      assert items[i].key != items[j].key;
    }
  }

  /** The counters grew by the rows removed and the bytes they held. */
  ghost predicate Tallies(r0: Result, r: Result, removed: int, bytes: int) {
    r.manifests + r.blobs == r0.manifests + r0.blobs + removed && r.bytes == r0.bytes + bytes
  }

  function Claims(rows: Rows, d: Digest): (r: set<Key>) { set k | k in rows && k.kind.Blob? && k.digest == d }

  /** The digest lost its last claim. */
  ghost predicate Orphaned(was: Rows, rows: Rows, d: Digest) { Claims(was, d) != {} && Claims(rows, d) == {} }

  /** The rows of the cache and the digests it holds bytes for. */
  datatype Stock = Stock(rows: Rows, bytes: set<Digest>)

  /** Bytes went only with their last claim and, with nothing failing, always did. */
  ghost predicate BytesFollow(was: Stock, now: Stock, quiet: bool) {
    && now.rows.Keys <= was.rows.Keys && now.bytes <= was.bytes
    && (forall d {:trigger Orphaned(was.rows, now.rows, d)} ::
          d in was.bytes && d !in now.bytes ==> Orphaned(was.rows, now.rows, d))
    && (quiet ==>
          forall d {:trigger Orphaned(was.rows, now.rows, d)} :: d in now.bytes ==> !Orphaned(was.rows, now.rows, d))
  }

  lemma ClaimsShrink(was: Rows, rows: Rows, d: Digest)
    requires rows.Keys <= was.Keys
    ensures Claims(rows, d) <= Claims(was, d)
  {
  }

  lemma FollowOn(was: Stock, mid: Stock, now: Stock, quiet: bool)
    requires BytesFollow(was, mid, quiet) && BytesFollow(mid, now, quiet)
    ensures BytesFollow(was, now, quiet)
  {
    forall d | d in was.bytes
      ensures d !in now.bytes ==> Orphaned(was.rows, now.rows, d)
      ensures quiet && d in now.bytes ==> !Orphaned(was.rows, now.rows, d)
    {
      ClaimsShrink(was.rows, mid.rows, d);
      ClaimsShrink(mid.rows, now.rows, d);
      assert d !in mid.bytes ==> Orphaned(was.rows, mid.rows, d);
      assert d in mid.bytes && d !in now.bytes ==> Orphaned(mid.rows, now.rows, d);
      assert quiet && d in mid.bytes ==> !Orphaned(was.rows, mid.rows, d);
      assert quiet && d in now.bytes ==> !Orphaned(mid.rows, now.rows, d);
    }
  }

  lemma FollowNothing(now: Stock, quiet: bool)
    ensures BytesFollow(now, now, quiet)
  {
  }

  /** Losing one blob row: its digest is the only one that may lose its last claim. */
  lemma RowGone(rows: Rows, k: Key, d: Digest)
    ensures Claims(rows - {k}, d) == Claims(rows, d) - {k}
    ensures Orphaned(rows, rows - {k}, d) <==>
      k in rows && k.kind.Blob? && d == k.digest && Claims(rows - {k}, d) == {}
  {
    assert k in Claims(rows, d) || Claims(rows - {k}, d) == Claims(rows, d);
  }

  lemma FollowRow(rows: Rows, k: Key, bytes: set<Digest>, left: set<Digest>, quiet: bool)
    requires left <= bytes && (left == bytes || (left == bytes - {k.digest} && Orphaned(rows, rows - {k}, k.digest)))
    requires quiet && Orphaned(rows, rows - {k}, k.digest) ==> k.digest !in left
    ensures BytesFollow(Stock(rows, bytes), Stock(rows - {k}, left), quiet)
  {
    forall d
      ensures Orphaned(rows, rows - {k}, d) <==>
        k in rows && k.kind.Blob? && d == k.digest && Claims(rows - {k}, d) == {}
    {
      RowGone(rows, k, d);
    }
  }

  const NONE := Result(0, 0, 0, 0, 0, 0)

  /** The counters grew by the rows gone and the bytes they held. */
  ghost predicate Frees(r0: Result, r: Result, was: Rows, rows: Rows) {
    && r.bytes - r0.bytes == Usage(was, "") - Usage(rows, "")
    && r.manifests + r.blobs - r0.manifests - r0.blobs == |was| - |rows|
  }

  /** Every budget on the list that is one holds. */
  ghost predicate Within(rows: Rows, budgets: map<string, int>, done: seq<string>) {
    forall k {:trigger done[k]} :: 0 <= k < |done| ==>
      done[k] in budgets && (budgets[done[k]] > 0 ==> Usage(rows, done[k]) <= budgets[done[k]])
  }

  lemma WithinSnoc(rows: Rows, budgets: map<string, int>, done: seq<string>, i: nat)
    requires i < |done| && Within(rows, budgets, done[..i])
    requires done[i] in budgets && (budgets[done[i]] > 0 ==> Usage(rows, done[i]) <= budgets[done[i]])
    ensures Within(rows, budgets, done[..i + 1])
  {
    assert done[..i + 1] == done[..i] + [done[i]];
  }

  lemma WithinAll(rows: Rows, budgets: map<string, int>, done: seq<string>)
    requires Within(rows, budgets, done) && forall e :: e in budgets ==> e in done
    ensures forall e {:trigger budgets[e]} :: e in budgets && budgets[e] > 0 ==> Usage(rows, e) <= budgets[e]
  {
    forall e | e in budgets && budgets[e] > 0 ensures Usage(rows, e) <= budgets[e] {
      var k :| 0 <= k < |done| && done[k] == e;
    }
  }

  lemma ElemsSnoc(ds: seq<Digest>, i: nat)
    requires i < |ds|
    ensures Elems(ds[..i + 1]) == Elems(ds[..i]) + {ds[i]}
  {
    assert ds[..i + 1] == ds[..i] + [ds[i]];
  }

  class Evictor {
    var rows: Rows
    var bytes: set<Digest>
    /** Which store calls fail, and which checks of the context find it cancelled. */
    const fails: nat -> bool
    var calls: nat
    const pageSize: int
    /** How much of a budget the headroom takes. */
    const headroom: int -> int

    constructor (rows: Rows, bytes: set<Digest>, fails: nat -> bool, pageSize: int, headroom: int -> int)
      ensures
        && this.rows == rows
        && this.bytes == bytes
        && this.fails == fails
        && this.pageSize == pageSize
        && this.headroom == headroom
    {
      this.rows, this.bytes, this.fails, calls, this.pageSize, this.headroom :=
        rows, bytes, fails, 0, pageSize, headroom;
    }

    ghost function Now(): (s: Stock)
      reads this
    {
      Stock(rows, bytes)
    }

    ghost predicate Quiet() {
      forall k {:trigger fails(k)} :: !fails(k)
    }

    method Fails() returns (b: bool)
      modifies this`calls
      ensures Quiet() ==> !b
    {
      b := fails(calls);
      calls := calls + 1;
    }

    /** Removes a row and, when it was the last claim on them, its bytes. */
    method EvictItem(item: Item, r0: Result) returns (gone: bool, r: Result)
      modifies this`rows, this`bytes, this`calls
      ensures BytesFollow(old(Now()), Now(), Quiet()) && (Quiet() ==> gone)
      ensures rows == if gone then old(rows) - {item.key} else old(rows)
      ensures !gone ==> r == r0.(failed := r0.failed + 1)
      ensures gone && item.key !in old(rows) ==> r == r0.(skipped := r0.skipped + 1)
      ensures gone && item.key in old(rows) && item.key.kind.Manifest? ==>
            r == r0.(manifests := r0.manifests + 1, bytes := r0.bytes + item.size)
      ensures gone && item.key in old(rows) && item.key.kind.Blob? ==>
                r ==
                  r0.(blobs := r0.blobs + 1, bytes := r0.bytes + item.size,
                    shared := r0.shared + (if Claims(rows, item.key.digest) != {} then 1 else 0))
    {
      FollowNothing(Now(), Quiet());
      var failed := Fails();
      if failed {
        return false, r0.(failed := r0.failed + 1);
      }
      if item.key !in rows {
        assert rows - {item.key} == rows;
        return true, r0.(skipped := r0.skipped + 1);
      }
      rows := rows - {item.key};
      RowGone(old(rows), item.key, item.key.digest);
      if item.key.kind.Manifest? {
        FollowRow(old(rows), item.key, bytes, bytes, Quiet());
        return true, r0.(manifests := r0.manifests + 1, bytes := r0.bytes + item.size);
      }
      r := r0.(blobs := r0.blobs + 1, bytes := r0.bytes + item.size);
      var claims := Claims(rows, item.key.digest);
      if claims != {} {
        r := r.(shared := r.shared + 1);
      } else {
        var _ := Reclaim(item.key.digest);
      }
      FollowRow(old(rows), item.key, old(bytes), bytes, Quiet());
      gone := true;
    }

    /** Deletes unclaimed bytes; a failure leaves them to the orphan pass. */
    method Reclaim(d: Digest) returns (ok: bool)
      modifies this`bytes, this`calls
      ensures bytes == (if ok then old(bytes) - {d} else old(bytes))
      ensures Quiet() ==> ok
    {
      var failed := Fails();
      ok := !failed;
      if ok { bytes := bytes - {d}; }
    }

    /** One page, until the target is reached. */
    method EvictPage(items: seq<Item>, entity: string, target: int, after0: int, r0: Result, ghost start: Rows,
                     ghost order0: seq<Key>, ghost origin: Stock)
      returns (after: int, r: Result, stopped: bool, ghost order: seq<Key>)
      requires Listed(rows, entity, pageSize, items)
      requires Accounts(start, rows, entity, order0, after0)
      requires Quiet() ==> TakenInOrder(start, entity, target, order0)
      requires BytesFollow(origin, Now(), Quiet())
      modifies this`rows, this`bytes, this`calls
      ensures BytesFollow(origin, Now(), Quiet()) && Accounts(start, rows, entity, order, after)
      ensures Quiet() ==> !stopped && TakenInOrder(start, entity, target, order)
      ensures Tallies(r0, r, |order| - |order0|, after0 - after)
      ensures Advances(order0, order, after0, after)
      ensures Quiet() ==> |order| <= |order0| + |items|
      ensures Quiet() && after > target ==> |order| == |order0| + |items| && rows == old(rows) - Keys(items)
    {
      after, r, stopped, order := after0, r0, false, order0;
      for i := 0 to |items|
        invariant BytesFollow(origin, Now(), Quiet()) && Accounts(start, rows, entity, order, after) && !stopped
        invariant Quiet() ==> TakenInOrder(start, entity, target, order) && rows == old(rows) - Keys(items[..i])
        invariant Tallies(r0, r, |order| - |order0|, after0 - after)
        invariant Advances(order0, order, after0, after)
        invariant Quiet() ==> |order| == |order0| + i
        invariant Waiting(rows, entity, items, i)
      {
        if after <= target { return; }
        stopped := Fails();
        if stopped { return; }
        after, r, order := EvictNext(items, i, entity, target, after, r, start, order, old(rows), origin);
      }
      assert items[..|items|] == items;
    }

    /** The next row of a page. */
    method EvictNext(items: seq<Item>, i: nat, entity: string, target: int, after0: int, r0: Result, ghost start: Rows,
                     ghost order0: seq<Key>, ghost listed: Rows, ghost origin: Stock)
      returns (after: int, r: Result, ghost order: seq<Key>)
      requires Accounts(start, rows, entity, order0, after0) && after0 > target
      requires i < |items| && Listed(listed, entity, pageSize, items) && Waiting(rows, entity, items, i)
      requires Quiet() ==> TakenInOrder(start, entity, target, order0) && rows == listed - Keys(items[..i])
      requires BytesFollow(origin, Now(), Quiet())
      modifies this`rows, this`bytes, this`calls
      ensures
        && BytesFollow(origin, Now(), Quiet())
        && Accounts(start, rows, entity, order, after)
        && Waiting(rows, entity, items, i + 1)
      ensures Quiet() ==>
          TakenInOrder(start, entity, target, order) && rows == listed - Keys(items[..i + 1]) && |order| == |order0| + 1
      ensures Tallies(r0, r, |order| - |order0|, after0 - after)
      ensures Advances(order0, order, after0, after)
    {
      if Quiet() { ColdestLeft(start, rows, entity, order0, after0, listed, items, pageSize, i); }
      WaitingStep(rows, entity, items, i, listed, pageSize);
      after, r, order := TakeItem(items[i], entity, target, after0, r0, start, order0, origin);
      KeysSnoc(items, i);
    }

    /** One row of a page. */
    method TakeItem(item: Item, entity: string, target: int, after0: int, r0: Result, ghost start: Rows,
                    ghost order0: seq<Key>, ghost origin: Stock)
      returns (after: int, r: Result, ghost order: seq<Key>)
      requires Accounts(start, rows, entity, order0, after0) && after0 > target
      requires item.key in Scope(rows, entity) && item == ItemAt(rows, item.key)
      requires Quiet() ==>
            && TakenInOrder(start, entity, target, order0)
            && item.key in start
            && Coldest(start, item.key, Scope(start, entity) - Elems(order0))
      requires BytesFollow(origin, Now(), Quiet())
      modifies this`rows, this`bytes, this`calls
      ensures BytesFollow(origin, Now(), Quiet()) && Accounts(start, rows, entity, order, after)
      ensures Quiet() ==> order != order0 && TakenInOrder(start, entity, target, order)
      ensures if order == order0 then after == after0 && rows == old(rows)
          else
            && order == order0 + [item.key]
            && after == after0 - item.size
            && rows == old(rows) - {item.key}
            && item.size == start[item.key].size
      ensures Tallies(r0, r, |order| - |order0|, after0 - after)
    {
      after, order := after0, order0;
      AccountOne(start, rows, entity, order, after, item.key);
      if Quiet() { TakeOne(start, entity, target, order, item.key); }
      var gone;
      gone, r := EvictItem(item, r0);
      FollowOn(origin, old(Now()), Now(), Quiet());
      if gone {
        after, order := after - item.size, order + [item.key];
      }
    }

    /** Enforces one budget over one scope, coldest rows first, down to the target. */
    method SweepScope(entity: string, budget: int, r0: Result, ghost origin: Stock)
      returns (r: Result, failed: bool, ghost order: seq<Key>)
      requires (budget > 0 ==> 0 <= headroom(budget) <= budget / 2)
      requires BytesFollow(origin, Now(), Quiet())
      modifies this`rows, this`bytes, this`calls
      ensures
        && BytesFollow(origin, Now(), Quiet())
        && Accounts(old(rows), rows, entity, order, Usage(old(rows), entity) - (r.bytes - r0.bytes))
      ensures r.manifests + r.blobs == r0.manifests + r0.blobs + |order|
      ensures Quiet() ==> !failed
      ensures Quiet() && (budget <= 0 || Usage(old(rows), entity) <= budget) ==> order == []
      ensures Quiet() && budget > 0 && Usage(old(rows), entity) > budget && NonNegative(old(rows)) && pageSize > 0 ==>
                Drained(old(rows), entity, budget - headroom(budget), pageSize, order)
    {
      r, failed, order := r0, false, [];
      ghost var start := rows;
      assert Scope(start, entity) - Elems(order) == Scope(start, entity) && start - Elems(order) == start;
      if budget <= 0 { return; }
      failed := Fails();
      if failed { return; }
      var after := CachedUsage(rows, entity);
      var target := budget - headroom(budget);
      if after <= budget { return; }
      r, failed, order := Drain(entity, target, after, r, start, origin);
    }

    /** Page after page until the target is reached or a whole page yields nothing. */
    method Drain(entity: string, target: int, usage: int, r0: Result, ghost start: Rows, ghost origin: Stock)
      returns (r: Result, failed: bool, ghost order: seq<Key>)
      requires start == rows && usage == Usage(rows, entity) && target >= 0
      requires BytesFollow(origin, Now(), Quiet())
      modifies this`rows, this`bytes, this`calls
      ensures BytesFollow(origin, Now(), Quiet()) && Accounts(start, rows, entity, order, usage - (r.bytes - r0.bytes))
      ensures r.manifests + r.blobs == r0.manifests + r0.blobs + |order|
      ensures Quiet() ==> !failed
      ensures Quiet() && NonNegative(start) && pageSize > 0 ==> Drained(start, entity, target, pageSize, order)
    {
      r, failed, order := r0, false, [];
      var after, stuck := usage, false;
      assert Scope(start, entity) - Elems(order) == Scope(start, entity) && start - Elems(order) == start;
      while after > target && !stuck
        invariant BytesFollow(origin, Now(), Quiet()) && Accounts(start, rows, entity, order, after) && !failed
        invariant Quiet() ==>
              TakenInOrder(start, entity, target, order) && Going(start, entity, target, pageSize, order, after, stuck)
        invariant Tallies(r0, r, |order|, usage - after)
        decreases !stuck, |Scope(start, entity)| - |order|
      {
        after, r, failed, stuck, order := DrainPage(entity, target, after, r, start, order, origin);
        if failed { return; }
        OrderFits(start, entity, order);
      }
      if Quiet() && NonNegative(start) && pageSize > 0 && !stuck { NotStalled(start, entity, target, order, pageSize); }
    }

    /** One page of a pass; stuck if there is none left or it frees nothing. */
    method DrainPage(entity: string, target: int, after0: int, r0: Result, ghost start: Rows, ghost order0: seq<Key>,
                     ghost origin: Stock)
      returns (after: int, r: Result, failed: bool, stuck: bool, ghost order: seq<Key>)
      requires Accounts(start, rows, entity, order0, after0) && after0 > target >= 0
      requires Quiet() ==>
            TakenInOrder(start, entity, target, order0) && Going(start, entity, target, pageSize, order0, after0, false)
      requires BytesFollow(origin, Now(), Quiet())
      modifies this`rows, this`bytes, this`calls
      ensures BytesFollow(origin, Now(), Quiet()) && Accounts(start, rows, entity, order, after)
      ensures Tallies(r0, r, |order| - |order0|, after0 - after)
      ensures !failed && !stuck ==> |order| > |order0|
      ensures Quiet() ==>
            && !failed
            && TakenInOrder(start, entity, target, order)
            && Going(start, entity, target, pageSize, order, after, stuck)
    {
      after, r, stuck, order := after0, r0, true, order0;
      failed := Fails();
      if failed { return; }
      var items := ListEvictable(rows, entity, pageSize);
      if items == [] {
        if pageSize > 0 { NothingLeft(start, rows, entity, order, after); }
        return;
      }
      ghost var listed := rows;
      after, r, failed, order := EvictPage(items, entity, target, after, r, start, order, origin);
      stuck := after == after0;
      if Quiet() && NonNegative(start) && pageSize > 0 {
        PageDone(start, listed, rows, entity, items, target, order0, order, after0, after, pageSize);
      }
    }

    /** Every carve-out in name order, then the whole cache. With nothing failing and fewer
        rows of size zero than a page holds, all the budgets hold at once when it returns. */
    method Sweep(perEntity: map<string, int>, global: int) returns (r: Result, failed: bool)
      requires forall b {:trigger headroom(b)} :: b > 0 ==> 0 <= headroom(b) <= b / 2
      modifies this`rows, this`bytes, this`calls
      ensures BytesFollow(old(Now()), Now(), Quiet()) && Shrunk(old(rows), rows)
      ensures r.bytes == Usage(old(rows), "") - Usage(rows, "") && r.manifests + r.blobs == |old(rows)| - |rows|
      ensures Quiet() ==> !failed
      ensures Quiet() && Sized(old(rows), pageSize) ==>
                && (forall e {:trigger perEntity[e]} ::
                      e in perEntity && perEntity[e] > 0 ==> Usage(rows, e) <= perEntity[e])
                && (global > 0 ==> Usage(rows, "") <= global)
    {
      var entities := ListKeys(perEntity.Keys);
      ghost var fit := Quiet() && Sized(rows, pageSize);
      FollowNothing(Now(), Quiet());
      r, failed := CarveOuts(perEntity, entities, old(Now()), fit);
      if !failed {
        r, failed := Pass("", global, r, entities, perEntity, old(Now()), fit);
      }
      if fit { WithinAll(rows, perEntity, entities); }
    }

    method CarveOuts(perEntity: map<string, int>, entities: seq<string>, ghost origin: Stock, ghost fit: bool)
      returns (r: Result, failed: bool)
      requires forall b {:trigger headroom(b)} :: b > 0 ==> 0 <= headroom(b) <= b / 2
      requires forall k {:trigger entities[k]} :: 0 <= k < |entities| ==> entities[k] in perEntity
      requires
        && Shrunk(origin.rows, rows)
        && BytesFollow(origin, Now(), Quiet())
        && (fit ==> Quiet() && Sized(origin.rows, pageSize))
      modifies this`rows, this`bytes, this`calls
      ensures BytesFollow(origin, Now(), Quiet()) && Shrunk(origin.rows, rows) && Frees(NONE, r, old(rows), rows)
      ensures Quiet() ==> !failed
      ensures fit ==> Within(rows, perEntity, entities)
    {
      r, failed := NONE, false;
      for i := 0 to |entities|
        invariant BytesFollow(origin, Now(), Quiet()) && Shrunk(origin.rows, rows) && !failed
        invariant Frees(NONE, r, old(rows), rows)
        invariant fit ==> Within(rows, perEntity, entities[..i])
      {
        r, failed := Pass(entities[i], perEntity[entities[i]], r, entities[..i], perEntity, origin, fit);
        if failed { return; }
        if fit { WithinSnoc(rows, perEntity, entities, i); }
      }
      assert entities[..|entities|] == entities;
    }

    /** One pass of the sweep: its own budget holds afterwards and the ones before it
        still do. */
    method Pass(entity: string, budget: int, r0: Result, ghost done: seq<string>, ghost budgets: map<string, int>,
                ghost origin: Stock,
                ghost fit: bool) returns (r: Result, failed: bool)
      requires Shrunk(origin.rows, rows) && (budget > 0 ==> 0 <= headroom(budget) <= budget / 2)
      requires fit ==> Quiet() && Sized(origin.rows, pageSize) && Within(rows, budgets, done)
      requires BytesFollow(origin, Now(), Quiet())
      modifies this`rows, this`bytes, this`calls
      ensures BytesFollow(origin, Now(), Quiet()) && Shrunk(origin.rows, rows)
      ensures Frees(r0, r, old(rows), rows)
      ensures Quiet() ==> !failed
      ensures fit ==> Within(rows, budgets, done) && (budget > 0 ==> Usage(rows, entity) <= budget)
    {
      ghost var start := rows;
      ghost var order;
      r, failed, order := SweepScope(entity, budget, r0, origin);
      UsageAfter(start, rows, order, entity);
      UsageAfter(start, rows, order, "");
      SameDrop(start, entity, order);
      RowsAfter(start, rows, order);
      if fit {
        SizedShrinks(origin.rows, start, pageSize);
        NothingGrows(start, rows, order);
        if budget > 0 { SizedNeverStalls(start, entity, budget - headroom(budget), pageSize); }
      }
    }

    /** Collects unclaimed digests first and deletes afterwards. Claimed bytes are never
        touched; with nothing failing and nothing cut short, only claimed bytes remain. */
    method SweepOrphans(maxOrphans: int) returns (o: OrphanResult, failed: bool)
      requires maxOrphans > 0
      modifies this`bytes, this`calls
      ensures bytes <= old(bytes)
      ensures forall d {:trigger Claims(rows, d)} :: d in old(bytes) && Claims(rows, d) != {} ==> d in bytes
      ensures o.reclaimed == |old(bytes)| - |bytes| && o.reclaimed + o.failed <= maxOrphans
      ensures Quiet() ==> !failed && o.failed == 0
      ensures Quiet() && !o.truncated ==> forall d {:trigger d in bytes} :: d in bytes ==> Claims(rows, d) != {}
    {
      var orphans;
      o, orphans, failed := FindOrphans(maxOrphans);
      if failed { return; }
      o, failed := DeleteOrphans(o, orphans);
    }

    method DeleteOrphans(o0: OrphanResult, orphans: seq<Digest>) returns (o: OrphanResult, failed: bool)
      requires Distinct(orphans) && o0.reclaimed == 0 && o0.failed == 0
      requires forall k {:trigger orphans[k]} ::
            0 <= k < |orphans| ==> orphans[k] in bytes && Claims(rows, orphans[k]) == {}
      modifies this`bytes, this`calls
      ensures old(bytes) - Elems(orphans) <= bytes <= old(bytes)
      ensures
        && o.reclaimed == |old(bytes)| - |bytes|
        && o.reclaimed + o.failed <= |orphans|
        && o.truncated == o0.truncated
      ensures Quiet() ==> !failed && o.failed == 0 && bytes == old(bytes) - Elems(orphans)
    {
      o, failed := o0, false;
      for i := 0 to |orphans|
        invariant old(bytes) - Elems(orphans[..i]) <= bytes <= old(bytes) && !failed
        invariant forall k {:trigger orphans[k]} :: i <= k < |orphans| ==> orphans[k] in bytes
        invariant Quiet() ==> bytes == old(bytes) - Elems(orphans[..i]) && o.failed == 0
        invariant o.reclaimed == |old(bytes)| - |bytes| && o.reclaimed + o.failed == i && o.truncated == o0.truncated
      {
        failed := Fails();
        if failed { return; }
        ElemsSnoc(orphans, i);
        var ok := Reclaim(orphans[i]);
        o := if ok then o.(reclaimed := o.reclaimed + 1) else o.(failed := o.failed + 1);
      }
      assert orphans[..|orphans|] == orphans;
    }

    /** The walk: unclaimed digests, in whatever order the driver lists them. */
    method FindOrphans(maxOrphans: int) returns (o: OrphanResult, orphans: seq<Digest>, failed: bool)
      requires maxOrphans > 0
      modifies this`calls
      ensures o.reclaimed == 0 && o.failed == 0 && |orphans| <= maxOrphans && Distinct(orphans)
      ensures forall k {:trigger orphans[k]} ::
            0 <= k < |orphans| ==> orphans[k] in bytes && Claims(rows, orphans[k]) == {}
      ensures Quiet() ==> !failed
      ensures !failed && !o.truncated ==>
            forall d {:trigger d in bytes} :: d in bytes && Claims(rows, d) == {} ==> d in orphans
    {
      o, orphans, failed := OrphanResult(0, 0, 0, false), [], false;
      var todo := bytes;
      while todo != {} && !o.truncated
        invariant todo <= bytes && !failed && o.reclaimed == 0 && o.failed == 0 && Distinct(orphans)
        invariant |orphans| <= maxOrphans && (|orphans| == maxOrphans ==> o.truncated)
        invariant forall k {:trigger orphans[k]} ::
              0 <= k < |orphans| ==> orphans[k] in bytes && orphans[k] !in todo && Claims(rows, orphans[k]) == {}
        invariant forall d {:trigger d in bytes} :: d in bytes && d !in todo && Claims(rows, d) == {} ==> d in orphans
        decreases |todo|
      {
        var d :| d in todo;
        failed := Fails();
        if failed { return; }
        todo := todo - {d};
        o := o.(scanned := o.scanned + 1);
        failed := Fails();
        if failed { return; }
        var claims := Claims(rows, d);
        if claims == {} {
          orphans := orphans + [d];
          o := o.(truncated := |orphans| >= maxOrphans);
        }
      }
    }
  }

  lemma ColderAntisymmetric(a: Item, b: Item)
    requires ColderEq(a, b) && ColderEq(b, a)
    ensures a.key == b.key
  {
    if LexLt(a.key.repository, b.key.repository) && LexLt(b.key.repository, a.key.repository) {
      LexAntisymmetric(a.key.repository, b.key.repository);
    }
    if LexLt(a.key.digest, b.key.digest) && LexLt(b.key.digest, a.key.digest) {
      LexAntisymmetric(a.key.digest, b.key.digest);
    }
  }

  lemma {:induction false} SameSoFar(rows: Rows, entity: string, a: seq<Key>, b: seq<Key>, n: nat)
    requires ColdPrefix(rows, entity, a) && ColdPrefix(rows, entity, b) && n <= |a| && n <= |b|
    ensures a[..n] == b[..n]
  {
    if n > 0 {
      SameSoFar(rows, entity, a, b, n - 1);
      var left := Scope(rows, entity) - Elems(a[..n - 1]);
      assert Elems(a[..n - 1]) == Elems(b[..n - 1]);
      assert a[n - 1] in left && Coldest(rows, a[n - 1], left);
      assert b[n - 1] in left && Coldest(rows, b[n - 1], left);
      OneColdest(rows, left, a[n - 1], b[n - 1]);
      assert a[..n] == a[..n - 1] + [a[n - 1]] && b[..n] == b[..n - 1] + [b[n - 1]];
    }
  }

  lemma OneColdest(rows: Rows, left: set<Key>, x: Key, y: Key)
    requires left <= rows.Keys && x in left && y in left && Coldest(rows, x, left) && Coldest(rows, y, left)
    ensures x == y
  {
    ColderAntisymmetric(ItemAt(rows, x), ItemAt(rows, y));
  }

  /** A pass evicts one determined prefix: pages of any size take the same rows. */
  lemma PagesDoNotMatter(rows: Rows, entity: string, target: int, a: seq<Key>, b: seq<Key>)
    requires TakenInOrder(rows, entity, target, a) && TakenInOrder(rows, entity, target, b)
    requires Sum(rows, Scope(rows, entity) - Elems(a)) <= target && Sum(rows, Scope(rows, entity) - Elems(b)) <= target
    ensures a == b
  {
    var n := if |a| < |b| then |a| else |b|;
    SameSoFar(rows, entity, a, b, n);
    assert a[..|a|] == a && b[..|b|] == b;
  }

  /** What is left are rows that were there, unchanged. */
  ghost predicate Shrunk(was: Rows, rows: Rows) {
    forall k {:trigger rows[k]} {:trigger k in rows} :: k in rows ==> k in was && rows[k] == was[k]
  }

  lemma UsageAfter(start: Rows, rows: Rows, order: seq<Key>, entity: string)
    requires rows == start - Elems(order)
    ensures Usage(rows, entity) == Sum(start, Scope(start, entity) - Elems(order))
  {
    assert Scope(rows, entity) == Scope(start, entity) - Elems(order);
    SumAgrees(rows, start, Scope(rows, entity));
  }

  /** Removing rows raises no scope's usage. */
  lemma NothingGrows(start: Rows, rows: Rows, order: seq<Key>)
    requires rows == start - Elems(order) && NonNegative(start)
    ensures forall e {:trigger Usage(rows, e)} :: Usage(rows, e) <= Usage(start, e)
  {
    forall e ensures Usage(rows, e) <= Usage(start, e) {
      UsageAfter(start, rows, order, e);
      SumMonotone(start, Scope(start, e) - Elems(order), Scope(start, e));
    }
  }

  lemma {:induction false} SumSplit(rows: Rows, ks: set<Key>, gone: set<Key>)
    requires gone <= ks <= rows.Keys
    ensures Sum(rows, ks) == Sum(rows, ks - gone) + Sum(rows, gone)
    decreases gone
  {
    if gone == {} {
      assert ks - gone == ks;
    } else {
      var k :| k in gone;
      SumWithout(rows, gone, k);
      SumWithout(rows, ks, k);
      SumSplit(rows, ks - {k}, gone - {k});
      assert ks - {k} - (gone - {k}) == ks - gone;
    }
  }

  /** Evicting from a scope frees the same bytes in the whole cache. */
  lemma SameDrop(start: Rows, entity: string, order: seq<Key>)
    requires Elems(order) <= Scope(start, entity)
    ensures Elems(order) <= Scope(start, "")
    ensures Usage(start, entity) - Sum(start, Scope(start, entity) - Elems(order)) ==
          Usage(start, "") - Sum(start, Scope(start, "") - Elems(order))
  {
    assert Scope(start, entity) <= Scope(start, "");
    SumSplit(start, Scope(start, entity), Elems(order));
    SumSplit(start, Scope(start, ""), Elems(order));
  }

  lemma RowsAfter(start: Rows, rows: Rows, order: seq<Key>)
    requires rows == start - Elems(order) && Elems(order) <= start.Keys && Distinct(order)
    ensures |order| == |start| - |rows|
  {
    DistinctSize(order);
    assert rows.Keys == start.Keys - Elems(order);
    assert |start.Keys - Elems(order)| == |start.Keys| - |Elems(order)|;
  }

  lemma OrderFits(start: Rows, entity: string, order: seq<Key>)
    requires Elems(order) <= Scope(start, entity) && Distinct(order)
    ensures |order| <= |Scope(start, entity)|
  {
    DistinctSize(order);
    SubsetSize(Elems(order), Scope(start, entity));
  }

  lemma NothingLeft(start: Rows, rows: Rows, entity: string, order: seq<Key>, after: int)
    requires Accounts(start, rows, entity, order, after) && Scope(rows, entity) == {}
    ensures after == 0
  {
    assert forall k :: k in Scope(start, entity) - Elems(order) ==> k in Scope(rows, entity);
    assert Scope(start, entity) - Elems(order) == {};
  }
}
