/**
 Hosted content as pushes, deletes and a garbage collector see it, one atomic
 store operation at a time. Models the contracts of internal/meta/store.go, the
 push path of internal/registry/uploads.go and internal/registry/manifests.go,
 and the deletes of internal/gc/sweep.go.
 */
module GcWorld {
  import opened Wrappers

  type Digest = string
  type Time = int

  datatype Blob = Blob(size: int, createdAt: Time)

  /** A manifest to store and the blobs it names as config or layers. */
  datatype Put = Put(manifest: string, blobs: set<Digest>)

  /** A put being checked, and the blobs whose rows it has found so far. */
  datatype Checking = Checking(put: Put, seen: set<Digest>)

  datatype World = World(
    rows: map<Digest, Blob>,
    bytes: set<Digest>,
    refs: map<string, set<Digest>>,
    uploads: map<string, Digest>,
    publishing: map<string, Digest>,
    checking: map<string, Checking>,
    doomed: Option<Digest>)

  datatype Step =
    | CommitBytes(request: string, digest: Digest)
    | RecordBlob(request: string, blob: Blob)
    | Forget(request: string)
    | OpenUpload(id: string, digest: Digest)
    | CloseUpload(id: string)
    | PutManifest(put: Put)
    | DeleteManifest(manifest: string)
    | StartPut(request: string, put: Put)
    | CheckRef(request: string, digest: Digest)
    | StoreRefs(request: string)
    | DeleteRow(digest: Digest, before: Time)
    | DeleteBytes
    | LeakBytes

  predicate Referenced(w: World, d: Digest) { exists m :: m in w.refs && d in w.refs[m] }

  predicate Pinned(w: World, d: Digest) { exists u :: u in w.uploads && w.uploads[u] == d }

  predicate Sweepable(w: World, before: Time, d: Digest) {
    d in w.rows && w.rows[d].createdAt < before && !Referenced(w, d) && !Pinned(w, d)
  }

  /** Every blob of the put has been looked up and found. */
  predicate Ready(w: World, q: string) { q in w.checking && w.checking[q].put.blobs <= w.checking[q].seen }

  /** One operation. Recording a blob follows the bytes its own request committed
      and never replaces a row; the atomic manifest put stores nothing unless every
      blob has its row; `StartPut`, `CheckRef` and `StoreRefs` are the same put with
      the check made beforehand. */
  function Apply(w: World, s: Step): (r: World) {
    match s
    case CommitBytes(q, d) => w.(bytes := w.bytes + {d}, publishing := w.publishing[q := d])
    case RecordBlob(q, blob) =>
      if q !in w.publishing then w
      else
        var d := w.publishing[q];
        w.(publishing := w.publishing - {q}, rows := if d == "" || d in w.rows then w.rows else w.rows[d := blob])
    case Forget(q) => w.(publishing := w.publishing - {q}, checking := w.checking - {q})
    case OpenUpload(id, d) => w.(uploads := w.uploads[id := d])
    case CloseUpload(id) => w.(uploads := w.uploads - {id})
    case PutManifest(put) => if put.blobs <= w.rows.Keys then w.(refs := w.refs[put.manifest := put.blobs]) else w
    case DeleteManifest(m) => w.(refs := w.refs - {m})
    case StartPut(q, put) => w.(checking := w.checking[q := Checking(put, {})])
    case CheckRef(q, d) =>
      if q !in w.checking then w
      else if d in w.rows then w.(checking := w.checking[q := w.checking[q].(seen := w.checking[q].seen + {d})])
      else w.(checking := w.checking - {q})
    case StoreRefs(q) =>
      if !Ready(w, q) then w.(checking := w.checking - {q})
      else w.(checking := w.checking - {q}, refs := w.refs[w.checking[q].put.manifest := w.checking[q].put.blobs])
    case DeleteRow(d, before) =>
      if w.doomed.None? && Sweepable(w, before, d) then w.(rows := w.rows - {d}, doomed := Some(d)) else w
    case DeleteBytes => if w.doomed.Some? then w.(bytes := w.bytes - {w.doomed.value}, doomed := None) else w
    case LeakBytes => w.(doomed := None)
  }

  function Play(w: World, t: seq<Step>): (r: World) {
    if t == [] then w else Apply(Play(w, t[..|t| - 1]), t[|t| - 1])
  }

  lemma {:induction false} PlayOn(w: World, t: seq<Step>, more: seq<Step>)
    ensures Play(w, t + more) == Play(Play(w, t), more)
  {
    if more == [] {
      assert t + more == t;
    } else {
      PlayOn(w, t, more[..|more| - 1]);
      assert (t + more)[..|t + more| - 1] == t + more[..|more| - 1];
    }
  }

  lemma PlayNext(w: World, t: seq<Step>, n: nat)
    requires n < |t|
    ensures Play(w, t[..n + 1]) == Apply(Play(w, t[..n]), t[n])
  {
    assert t[..n + 1][..n] == t[..n];
  }

  /** From one point of a run to a later one. */
  lemma PlayBetween(w: World, t: seq<Step>, i: nat, n: nat)
    requires i < n <= |t|
    ensures Play(w, t[..n]) == Play(Apply(Play(w, t[..i]), t[i]), t[i + 1..n])
  {
    assert t[..n] == t[..i + 1] + t[i + 1..n];
    PlayOn(w, t[..i + 1], t[i + 1..n]);
    PlayNext(w, t, i);
  }

  // ----- what holds at every point of a run -----

  /** `inv` holds at the start and after every step. */
  ghost predicate Always(inv: World -> bool, w: World, t: seq<Step>) {
    if t == [] then inv(w) else Always(inv, w, t[..|t| - 1]) && inv(Play(w, t))
  }

  /** `ok` holds of every step where it is taken. */
  ghost predicate Each(ok: (World, Step) -> bool, w: World, t: seq<Step>) {
    t == [] || (Each(ok, w, t[..|t| - 1]) && ok(Play(w, t[..|t| - 1]), t[|t| - 1]))
  }

  /** A step keeps `inv` exactly when `ok` holds of it. */
  ghost predicate Exact(inv: World -> bool, ok: (World, Step) -> bool) {
    forall w, s {:trigger ok(w, s)} {:trigger Apply(w, s)} :: inv(w) ==> (inv(Apply(w, s)) <==> ok(w, s))
  }

  lemma {:induction false} ExactOverRuns(inv: World -> bool, ok: (World, Step) -> bool, w: World, t: seq<Step>)
    requires Exact(inv, ok) && inv(w)
    ensures Always(inv, w, t) <==> Each(ok, w, t)
  {
    if t != [] {
      var front := t[..|t| - 1];
      ExactOverRuns(inv, ok, w, front);
      if Always(inv, w, front) {
        AlwaysLast(inv, w, front);
        assert inv(Apply(Play(w, front), t[|t| - 1])) <==> ok(Play(w, front), t[|t| - 1]);
      }
    }
  }

  lemma {:induction false} EachAt(ok: (World, Step) -> bool, w: World, t: seq<Step>)
    requires forall n {:trigger t[n]} :: 0 <= n < |t| ==> ok(Play(w, t[..n]), t[n])
    ensures Each(ok, w, t)
  {
    if t != [] {
      var front := t[..|t| - 1];
      forall n | 0 <= n < |front| ensures ok(Play(w, front[..n]), front[n]) {
        assert front[..n] == t[..n] && front[n] == t[n];
      }
      EachAt(ok, w, front);
    }
  }

  lemma AlwaysLast(inv: World -> bool, w: World, t: seq<Step>)
    requires Always(inv, w, t)
    ensures inv(Play(w, t))
  {
  }

  // ----- references keep their rows -----

  ghost predicate RefsHaveRows(w: World) {
    forall m {:trigger w.refs[m]} :: m in w.refs ==> w.refs[m] <= w.rows.Keys
  }

  /** A checked put still finds every row it was checked against. */
  ghost predicate PutHolds(w: World, s: Step) {
    s.StoreRefs? && Ready(w, s.request) ==> w.checking[s.request].put.blobs <= w.rows.Keys
  }

  lemma RefsStep(w: World, s: Step)
    requires RefsHaveRows(w)
    ensures RefsHaveRows(Apply(w, s)) <==> PutHolds(w, s)
  {
    var r := Apply(w, s);
    if PutHolds(w, s) {
      forall m | m in r.refs
        ensures r.refs[m] <= r.rows.Keys
      {
        if s.DeleteRow? && r != w {
          assert s.digest !in w.refs[m] by { assert !Referenced(w, s.digest); }
        }
      }
    } else {
      assert r.refs[w.checking[s.request].put.manifest] == w.checking[s.request].put.blobs;
    }
  }

  /** Over every interleaving, stored references always have rows exactly when every
      put checked beforehand still finds, as it writes, every row it saw. */
  lemma RefsHaveRowsIff(w: World, t: seq<Step>)
    requires RefsHaveRows(w)
    ensures Always(RefsHaveRows, w, t) <==> Each(PutHolds, w, t)
  {
    forall v, s | RefsHaveRows(v) ensures RefsHaveRows(Apply(v, s)) <==> PutHolds(v, s) { RefsStep(v, s); }
    ExactOverRuns(RefsHaveRows, PutHolds, w, t);
  }

  /** With the put atomic, as its contract says, no interleaving loses a referenced row. */
  lemma AtomicPutsAreSafe(w: World, t: seq<Step>)
    requires RefsHaveRows(w) && forall k {:trigger t[k]} :: 0 <= k < |t| ==> !t[k].StoreRefs?
    ensures Always(RefsHaveRows, w, t)
  {
    NoStoresHold(w, t);
    RefsHaveRowsIff(w, t);
  }

  lemma {:induction false} NoStoresHold(w: World, t: seq<Step>)
    requires forall k {:trigger t[k]} :: 0 <= k < |t| ==> !t[k].StoreRefs?
    ensures Each(PutHolds, w, t)
  {
    if t != [] {
      var front := t[..|t| - 1];
      assert forall k {:trigger front[k]} :: 0 <= k < |front| ==> front[k] == t[k];
      NoStoresHold(w, front);
    }
  }

  /** Nothing between the two ends the request the first belongs to, or starts it over. */
  ghost predicate Undisturbed(t: seq<Step>, q: string, i: int, j: int) {
    forall m {:trigger t[m]} ::
      0 <= i < m < j <= |t| ==> t[m] != StoreRefs(q) && t[m] != Forget(q) && !(t[m].StartPut? && t[m].request == q)
  }

  /** No row is deleted between a put's look at it and that put's write. */
  ghost predicate PutsUncrossed(t: seq<Step>) {
    forall i, k, j {:trigger t[i], t[k], t[j]} ::
      (&& 0 <= i < k < j < |t|
       && t[i].CheckRef?
       && t[k].DeleteRow?
       && t[j] == StoreRefs(t[i].request)
       && Undisturbed(t, t[i].request, i, j)) ==> t[k].digest != t[i].digest
  }

  ghost predicate Seen(w: World, q: string, d: Digest) { q in w.checking && d in w.checking[q].seen }

  lemma SeenStep(w: World, s: Step, q: string, d: Digest)
    requires Seen(Apply(w, s), q, d)
    ensures
      || (s == CheckRef(q, d) && d in w.rows)
      || (Seen(w, q, d) && s != StoreRefs(q) && s != Forget(q) && !(s.StartPut? && s.request == q))
  {
  }

  /** A row a put has found was looked up earlier in the run, when it was there. */
  lemma {:induction false} SeenBefore(w: World, t: seq<Step>, n: nat, q: string, d: Digest) returns (i: nat)
    requires n <= |t| && w.checking == map[] && Seen(Play(w, t[..n]), q, d)
    ensures i < n && t[i] == CheckRef(q, d) && d in Play(w, t[..i]).rows
    ensures Undisturbed(t, q, i, n)
  {
    assert t[..0] == [];
    var was, s := Play(w, t[..n - 1]), t[n - 1];
    PlayNext(w, t, n - 1);
    SeenStep(was, s, q, d);
    if s == CheckRef(q, d) && d in was.rows {
      i := n - 1;
      assert Undisturbed(t, q, i, n);
    } else {
      i := SeenBefore(w, t, n - 1, q, d);
    }
  }

  lemma RowStep(w: World, s: Step, d: Digest)
    requires d in w.rows && !(s.DeleteRow? && s.digest == d)
    ensures d in Apply(w, s).rows
  {
  }

  lemma {:induction false} RowStays(w: World, t: seq<Step>, i: nat, n: nat, d: Digest)
    requires i <= n <= |t| && d in Play(w, t[..i]).rows
    requires forall k {:trigger t[k]} :: i <= k < n ==> !(t[k].DeleteRow? && t[k].digest == d)
    ensures d in Play(w, t[..n]).rows
  {
    if i < n {
      RowStays(w, t, i, n - 1, d);
      PlayNext(w, t, n - 1);
      RowStep(Play(w, t[..n - 1]), t[n - 1], d);
    }
  }

  /** Puts that look their blobs up one by one and write afterwards lose nothing, in any
      interleaving in which no sweep takes a row between the look at it and the write. */
  lemma UncrossedPutsAreSafe(w: World, t: seq<Step>)
    requires RefsHaveRows(w) && w.checking == map[] && PutsUncrossed(t)
    ensures Always(RefsHaveRows, w, t)
  {
    forall n | 0 <= n < |t|
      ensures PutHolds(Play(w, t[..n]), t[n])
    {
      if t[n].StoreRefs? { UncrossedPutHolds(w, t, n); }
    }
    EachAt(PutHolds, w, t);
    RefsHaveRowsIff(w, t);
  }

  lemma UncrossedPutHolds(w: World, t: seq<Step>, n: nat)
    requires w.checking == map[] && PutsUncrossed(t) && n < |t| && t[n].StoreRefs?
    ensures PutHolds(Play(w, t[..n]), t[n])
  {
    var v, q := Play(w, t[..n]), t[n].request;
    if Ready(v, q) {
      forall d | d in v.checking[q].put.blobs
        ensures d in v.rows
      {
        assert Seen(v, q, d);
        var i := SeenBefore(w, t, n, q, d);
        RowStays(w, t, i, n, d);
      }
    }
  }

  // ----- rows keep their bytes -----

  /** Rows have bytes, and so does everything a request is about to record. */
  ghost predicate RowsHaveBytes(w: World) {
    w.rows.Keys <= w.bytes && forall q {:trigger w.publishing[q]} :: q in w.publishing ==> w.publishing[q] in w.bytes
  }

  /** The bytes deleted belong to no row and to no request between its commit and its row. */
  ghost predicate BytesUnclaimed(w: World, d: Digest) { d !in w.rows && NobodyPublishing(w, d) }

  ghost predicate NobodyPublishing(w: World, d: Digest) {
    forall q {:trigger w.publishing[q]} :: q in w.publishing ==> w.publishing[q] != d
  }

  ghost predicate DeleteIsQuiet(w: World, s: Step) {
    s.DeleteBytes? && w.doomed.Some? ==> BytesUnclaimed(w, w.doomed.value)
  }

  lemma PublishingStep(w: World, s: Step, q: string)
    requires q in Apply(w, s).publishing
    ensures if s.CommitBytes? && q == s.request then Apply(w, s).publishing[q] == s.digest
            else q in w.publishing && Apply(w, s).publishing[q] == w.publishing[q]
  {
  }

  lemma BytesAfter(w: World, s: Step)
    ensures Apply(w, s).bytes == if s.CommitBytes? then w.bytes + {s.digest}
                                 else if s.DeleteBytes? && w.doomed.Some? then w.bytes - {w.doomed.value} else w.bytes
  {
  }

  lemma RowsAfter(w: World, s: Step, d: Digest)
    requires d in Apply(w, s).rows
    ensures d in w.rows || (s.RecordBlob? && s.request in w.publishing && d == w.publishing[s.request])
  {
  }

  lemma QuietKeeps(w: World, s: Step)
    requires RowsHaveBytes(w) && DeleteIsQuiet(w, s)
    ensures RowsHaveBytes(Apply(w, s))
  {
    BytesAfter(w, s);
    forall d | d in Apply(w, s).rows ensures d in Apply(w, s).bytes { RowsAfter(w, s, d); }
    forall q | q in Apply(w, s).publishing
      ensures Apply(w, s).publishing[q] in Apply(w, s).bytes
    {
      PublishingStep(w, s, q);
    }
  }

  lemma BytesStep(w: World, s: Step)
    requires RowsHaveBytes(w)
    ensures RowsHaveBytes(Apply(w, s)) <==> DeleteIsQuiet(w, s)
  {
    if DeleteIsQuiet(w, s) {
      QuietKeeps(w, s);
    } else {
      var r, d := Apply(w, s), w.doomed.value;
      assert d !in r.bytes;
      if d !in w.rows {
        var q :| q in w.publishing && w.publishing[q] == d;
        assert r.publishing[q] == d;
      }
    }
  }

  /** Over every interleaving, rows always have bytes exactly when every byte delete
      finds its digest unclaimed again. */
  lemma RowsHaveBytesIff(w: World, t: seq<Step>)
    requires RowsHaveBytes(w)
    ensures Always(RowsHaveBytes, w, t) <==> Each(DeleteIsQuiet, w, t)
  {
    forall v, s | RowsHaveBytes(v) ensures RowsHaveBytes(Apply(v, s)) <==> DeleteIsQuiet(v, s) { BytesStep(v, s); }
    ExactOverRuns(RowsHaveBytes, DeleteIsQuiet, w, t);
  }

  /** A digest nobody claims stays so while nobody commits it. */
  lemma {:induction false} StaysUnclaimed(w: World, t: seq<Step>, d: Digest)
    requires BytesUnclaimed(w, d)
    requires forall k {:trigger t[k]} :: 0 <= k < |t| ==> !(t[k].CommitBytes? && t[k].digest == d)
    ensures BytesUnclaimed(Play(w, t), d)
  {
    if t != [] {
      var front := t[..|t| - 1];
      assert forall k {:trigger front[k]} :: 0 <= k < |front| ==> front[k] == t[k];
      StaysUnclaimed(w, front, d);
      UnclaimedStep(Play(w, front), t[|t| - 1], d);
    }
  }

  lemma UnclaimedStep(w: World, s: Step, d: Digest)
    requires BytesUnclaimed(w, d) && !(s.CommitBytes? && s.digest == d)
    ensures BytesUnclaimed(Apply(w, s), d)
  {
    if d in Apply(w, s).rows { RowsAfter(w, s, d); }
    forall q | q in Apply(w, s).publishing ensures Apply(w, s).publishing[q] != d { PublishingStep(w, s, q); }
  }

  /** The byte delete is safe when no request was between its commit and its row as
      the row went, and no commit of the digest has landed since. */
  lemma QuietWindow(w: World, d: Digest, before: Time, between: seq<Step>)
    requires w.doomed.None? && Sweepable(w, before, d) && NobodyPublishing(w, d)
    requires forall k {:trigger between[k]} ::
          0 <= k < |between| ==> !(between[k].CommitBytes? && between[k].digest == d)
    ensures BytesUnclaimed(Play(Apply(w, DeleteRow(d, before)), between), d)
  {
    StaysUnclaimed(Apply(w, DeleteRow(d, before)), between, d);
  }

  ghost predicate Dooms(w: World, s: Step) { s.DeleteRow? && w.doomed.None? && Sweepable(w, s.before, s.digest) }

  /** Neither end of the pair of deletes lies between the two. */
  ghost predicate StillDoomed(t: seq<Step>, i: int, j: int) {
    forall m {:trigger t[m]} :: 0 <= i < m < j <= |t| ==> !t[m].DeleteBytes? && !t[m].LeakBytes?
  }

  /** Around every pair of a row delete and its byte delete, nobody publishes the digest. */
  ghost predicate WindowsQuiet(w: World, t: seq<Step>) {
    forall i, j {:trigger t[i], t[j]} ::
      (0 <= i < j < |t| && Dooms(Play(w, t[..i]), t[i]) && t[j].DeleteBytes? && StillDoomed(t, i, j)) ==>
        NobodyPublishing(Play(w, t[..i]), t[i].digest) && NoCommit(t, t[i].digest, i + 1, j)
  }

  ghost predicate NoCommit(t: seq<Step>, d: Digest, i: int, j: int) {
    forall k {:trigger t[k]} :: 0 <= i <= k < j <= |t| ==> !(t[k].CommitBytes? && t[k].digest == d)
  }

  lemma DoomedStep(w: World, s: Step)
    requires Apply(w, s).doomed.Some?
    ensures if Dooms(w, s) then Apply(w, s).doomed.value == s.digest
        else Apply(w, s).doomed == w.doomed && !s.DeleteBytes? && !s.LeakBytes?
  {
  }

  /** A digest waiting for its bytes to go lost its row earlier in the run. */
  lemma {:induction false} DoomedBefore(w: World, t: seq<Step>, n: nat) returns (i: nat)
    requires n <= |t| && w.doomed.None? && Play(w, t[..n]).doomed.Some?
    ensures i < n && Dooms(Play(w, t[..i]), t[i]) && t[i].digest == Play(w, t[..n]).doomed.value && StillDoomed(t, i, n)
  {
    assert t[..0] == [];
    var was, s := Play(w, t[..n - 1]), t[n - 1];
    PlayNext(w, t, n - 1);
    DoomedStep(was, s);
    if Dooms(was, s) {
      i := n - 1;
    } else {
      i := DoomedBefore(w, t, n - 1);
    }
  }

  /** The two deletes of a sweep lose no bytes, in any interleaving in which nobody
      publishes a digest between losing its row and losing its bytes. */
  lemma QuietWindowsAreSafe(w: World, t: seq<Step>)
    requires RowsHaveBytes(w) && w.doomed.None? && WindowsQuiet(w, t)
    ensures Always(RowsHaveBytes, w, t)
  {
    forall n | 0 <= n < |t|
      ensures DeleteIsQuiet(Play(w, t[..n]), t[n])
    {
      if t[n].DeleteBytes? && Play(w, t[..n]).doomed.Some? {
        var i := DoomedBefore(w, t, n);
        var between := t[i + 1..n];
        assert NobodyPublishing(Play(w, t[..i]), t[i].digest) && NoCommit(t, t[i].digest, i + 1, n);
        forall k | 0 <= k < |between|
          ensures !(between[k].CommitBytes? && between[k].digest == t[i].digest)
        {
          assert between[k] == t[i + 1 + k];
        }
        QuietWindow(Play(w, t[..i]), t[i].digest, t[i].before, between);
        PlayBetween(w, t, i, n);
      }
    }
    EachAt(DeleteIsQuiet, w, t);
    RowsHaveBytesIff(w, t);
  }

  // ----- where the code falls short of its contracts -----

  const PUSHED := World(map["a" := Blob(1, 0)], {"a"}, map[], map[], map[], map[], None)

  /** The put as the handler makes it: the sweep takes a blob between the look at it and
      the write, and a stored manifest names a blob with no row. */
  lemma CheckedPutLosesBlob()
    ensures RefsHaveRows(PUSHED)
    ensures var t := [StartPut("put", Put("m", {"a"})), CheckRef("put", "a"), DeleteRow("a", 1)];
            !RefsHaveRows(Apply(Play(PUSHED, t), StoreRefs("put")))
  {
    var b, c, d, s := StartPut("put", Put("m", {"a"})), CheckRef("put", "a"), DeleteRow("a", 1), StoreRefs("put");
    PlayThree(PUSHED, b, c, d);
    var r := Apply(Apply(Apply(Apply(PUSHED, b), c), d), s);
    assert r.refs["m"] == {"a"} && "a" !in r.rows;
  }

  /** A push of the same content between the two deletes: a row with no bytes. */
  lemma PushBetweenDeletesLosesBytes()
    ensures RowsHaveBytes(PUSHED)
    ensures var t := [DeleteRow("a", 1), CommitBytes("push", "a"), RecordBlob("push", Blob(1, 2))];
            !RowsHaveBytes(Apply(Play(PUSHED, t), DeleteBytes))
  {
    var d, c, b := DeleteRow("a", 1), CommitBytes("push", "a"), RecordBlob("push", Blob(1, 2));
    PlayThree(PUSHED, d, c, b);
    var r := Apply(Apply(Apply(Apply(PUSHED, d), c), b), DeleteBytes);
    assert "a" in r.rows && "a" !in r.bytes;
  }

  lemma PlayThree(w: World, a: Step, b: Step, c: Step)
    ensures Play(w, [a, b, c]) == Apply(Apply(Apply(w, a), b), c)
  {
    assert [a][..0] == [] && [a, b][..1] == [a] && [a, b, c][..2] == [a, b];
    assert Play(w, [a]) == Apply(w, a);
    assert Play(w, [a, b]) == Apply(Play(w, [a]), b);
  }
}
