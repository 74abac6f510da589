/**
 A blob streamed to a client and into the cache at once.
 Models the `fill` tee of internal/proxy/fill.go over the verified reader of
 internal/blob/verify.go.
 */
module CacheFills {
  import opened Wrappers
  import opened VerifiedReads

  /** What the storage and the metadata store will do when asked: `writes(k)` is
      how far the k-th session write gets before failing, if it fails. */
  datatype Faults = Faults(writes: nat -> Option<nat>, commit: bool, row: bool)

  datatype CachedBlob = CachedBlob(repository: string, digest: Digest, size: nat)

  /** An upload session, by the contract of internal/blob/store.go. */
  class Session {
    const faults: Faults
    const hash: seq<byte> -> Digest
    var contents: seq<byte>
    var attempts: nat
    var commits: nat
    var cancels: nat
    var published: Option<seq<byte>>

    constructor (faults: Faults, hash: seq<byte> -> Digest)
      ensures this.faults == faults && this.hash == hash
      ensures contents == [] && attempts == 0 && commits == 0 && cancels == 0 && published == None
    {
      this.faults, this.hash := faults, hash;
      contents, attempts, commits, cancels, published := [], 0, 0, 0, None;
    }

    /** Some write so far has failed. */
    ghost predicate Faulted()
      reads this`attempts
    {
      exists k: nat :: k < attempts && faults.writes(k).Some?
    }

    method Write(bytes: seq<byte>) returns (ok: bool)
      modifies this`contents, this`attempts
      ensures ok ==> contents == old(contents) + bytes
      ensures ok <==> faults.writes(old(attempts)).None?
      ensures attempts == old(attempts) + 1
      ensures Faulted() <==> old(Faulted()) || !ok
    {
      var fault := faults.writes(attempts);
      attempts := attempts + 1;
      ok := fault.None?;
      assert !ok ==> faults.writes(attempts - 1).Some?;
      contents := contents + (if fault.None? || |bytes| <= fault.value then bytes else bytes[..fault.value]);
    }

    /** Publishes what the session holds if it matches; discards it otherwise. */
    method Commit(expected: Digest) returns (ok: bool)
      modifies this`commits, this`published
      ensures commits == old(commits) + 1
      ensures ok <==> !faults.commit && hash(contents) == expected
      ensures published == if ok then Some(contents) else old(published)
    {
      commits := commits + 1;
      ok := !faults.commit && hash(contents) == expected;
      if ok { published := Some(contents); }
    }

    method Cancel()
      modifies this`cancels
      ensures cancels == old(cancels) + 1
    {
      cancels := cancels + 1;
    }
  }

  class Fill {
    const repository: string
    const digest: Digest
    const src: VerifiedReader
    const session: Session
    var abandoned: bool
    var settled: bool
    var row: Option<CachedBlob>
    /** Whether the stream ended cleanly before it was closed. */
    ghost var reachedEnd: bool
    ghost var closed: bool

    constructor (repository: string, src: VerifiedReader, session: Session)
      requires src.Valid() && !src.done && src.delivered == []
      requires
        && session.contents == []
        && session.attempts == 0
        && session.commits == 0
        && session.cancels == 0
        && session.published == None
      requires session.hash == src.verifier.hash
      ensures Valid() && this.repository == repository && this.src == src && this.session == session
      ensures !closed && !settled && !abandoned && !reachedEnd && row == None
    {
      this.repository, this.digest, this.src, this.session := repository, src.verifier.expected, src, session;
      abandoned, settled, row, reachedEnd, closed := false, false, None, false, false;
    }

    ghost predicate Valid()
      reads this, session, src, src.src, src.verifier
    {
      Consistent() && (src.done || closed ==> settled)
    }

    ghost predicate Consistent()
      reads this, session, src, src.src, src.verifier
    {
      && src.Valid()
      && digest == src.verifier.expected && session.hash == src.verifier.hash
      && (!settled ==> Streaming())
      && (settled ==> Settled())
      && (abandoned <==> session.Faulted())
    }

    /** While it streams, the session holds exactly what the client was given. */
    ghost predicate Streaming()
      reads this, session, src
    {
      && !abandoned && !reachedEnd && row == None
      && session.commits == 0 && session.cancels == 0 && session.published == None
      && session.contents == src.delivered
    }

    /** Settled exactly once: committed when the stream ended cleanly and no write
        failed, cancelled otherwise; and the row only follows a published blob. */
    ghost predicate Settled()
      reads this, session, src
    {
      && session.commits == (if reachedEnd && !abandoned then 1 else 0)
      && session.cancels == 1 - session.commits
      && (!closed && !abandoned ==> src.done && (reachedEnd <==> src.err.Eof?))
      && (reachedEnd ==> src.done && src.delivered == src.whole && src.verifier.hash(src.whole) == digest)
      && session.published == (if session.commits == 1 && !session.faults.commit then Some(src.whole) else None)
      && row ==
           (if session.published.Some? && !session.faults.row then Some(CachedBlob(repository, digest, |src.whole|))
            else None)
    }

    /** Discards the session unless it has already been settled. */
    method Discard()
      modifies this`settled, session`cancels
      ensures settled
      ensures session.cancels == old(session.cancels) + (if old(settled) then 0 else 1)
    {
      if settled { return; }
      settled := true;
      session.Cancel();
    }

    /** Gives up on caching while the client keeps reading. */
    method Abandon()
      modifies this`settled, this`abandoned, session`cancels
      ensures settled && abandoned
      ensures session.cancels == old(session.cancels) + (if old(settled) then 0 else 1)
    {
      abandoned := true;
      Discard();
    }

    /** Publishes what the session holds: bytes first, then the row. */
    method Complete()
      modifies this`settled, this`row, session`commits, session`published
      ensures old(settled || abandoned) ==>
            && settled == old(settled)
            && row == old(row)
            && session.commits == old(session.commits)
            && session.published == old(session.published)
      ensures !old(settled || abandoned) ==>
                && settled && session.commits == old(session.commits) + 1
                && var ok := !session.faults.commit && session.hash(session.contents) == digest;
                && session.published == (if ok then Some(session.contents) else old(session.published))
                && row ==
                     (if ok && !session.faults.row then Some(CachedBlob(repository, digest, |session.contents|))
                      else old(row))
    {
      if settled || abandoned { return; }
      settled := true;
      var ok := session.Commit(digest);
      if !ok { return; }
      if session.faults.row { return; }
      row := Some(CachedBlob(repository, digest, |session.contents|));
    }

    /** Copies what is about to be returned into the session. */
    method Copy(bytes: seq<byte>)
      modifies this`settled, this`abandoned, session`contents, session`attempts, session`cancels
      ensures !abandoned ==>
            && !old(abandoned)
            && settled == old(settled)
            && session.contents == old(session.contents) + bytes
            && session.cancels == old(session.cancels)
      ensures old(abandoned) ==> abandoned && settled == old(settled)
      ensures bytes == [] ==> abandoned == old(abandoned)
      ensures abandoned && !old(abandoned) ==> settled
      ensures session.cancels == old(session.cancels) + (if old(settled) || !settled then 0 else 1)
      ensures old(settled) ==> settled
      ensures old(abandoned <==> session.Faulted()) ==> (abandoned <==> session.Faulted())
    {
      if |bytes| > 0 && !abandoned {
        var ok := session.Write(bytes);
        if !ok { Abandon(); }
      }
    }

    /** Passes bytes to the caller and copies them into the session first. */
    method Read(p: array<byte>) returns (n: nat, e: Option<ReadError>)
      requires Valid()
      modifies this, session, src, src.src, src.verifier, p
      ensures Valid() && closed == old(closed)
      ensures n <= p.Length && src.delivered == old(src.delivered) + p[..n]
      ensures reachedEnd == (old(reachedEnd) || (e == Some(Eof) && !old(closed)))
      ensures e.Some? ==> src.done && e.value == src.err
      ensures e.None? ==> src.done == old(src.done) && (p.Length > 0 ==> n > 0)
      ensures old(src.done) ==> src.err == old(src.err)
    {
      n, e := src.Read(p);
      Copy(p[..n]);
      Conclude(e);
    }

    /** Settles the fill if the stream has ended. */
    method Conclude(e: Option<ReadError>)
      requires
        && Consistent()
        && (e.Some? ==> src.done && e.value == src.err)
        && (e.None? && src.done ==> settled)
        && (closed ==> settled)
      modifies this`settled, this`row, this`reachedEnd, session`commits, session`cancels, session`published
      ensures Valid()
      ensures reachedEnd == (old(reachedEnd) || (e == Some(Eof) && !closed))
    {
      if e == Some(Eof) {
        assert src.delivered == src.whole && src.verifier.hash(src.whole) == digest;
        reachedEnd := reachedEnd || !closed;
        Complete();
      } else if e.Some? {
        Discard();
      }
    }

    /** Ends the fill; a stream closed before its end cached nothing. */
    method Close()
      requires Valid()
      modifies this, session
      ensures Valid() && settled && closed
      ensures reachedEnd == old(reachedEnd) && abandoned == old(abandoned)
    {
      closed := true;
      Discard();
    }
  }

  /** Where a fill ended. */
  datatype Outcome = Outcome(
    got: seq<byte>, end: Option<ReadError>, writes: nat, commits: nat, cancels: nat,
    published: Option<seq<byte>>, row: Option<CachedBlob>)

  ghost function Positive(sizes: seq<nat>): (n: nat) {
    if sizes == [] then 0 else Positive(sizes[..|sizes| - 1]) + (if sizes[|sizes| - 1] > 0 then 1 else 0)
  }

  /** A client reading with buffers of any sizes, for as long as it likes. */
  method Pull(f: Fill, sizes: seq<nat>) returns (got: seq<byte>, last: Option<ReadError>)
    requires f.Valid() && !f.closed && !f.src.done && !f.reachedEnd && f.src.delivered == []
    modifies f, f.session, f.src, f.src.src, f.src.verifier
    ensures f.Valid() && !f.closed && got == f.src.delivered
    ensures f.reachedEnd <==> last == Some(Eof)
    ensures last.Some? ==> f.src.done && last.value == f.src.err
    ensures last.None? ==> |got| >= Positive(sizes)
  {
    got, last := [], None;
    for k := 0 to |sizes|
      invariant f.Valid() && !f.closed && got == f.src.delivered
      invariant f.reachedEnd <==> last == Some(Eof)
      invariant last.Some? <==> f.src.done
      invariant last.Some? ==> last.value == f.src.err
      invariant last.None? ==> |got| >= Positive(sizes[..k])
    {
      assert sizes[..k + 1][..k] == sizes[..k];
      var p := new byte[sizes[k]](_ => 0);
      var n, e := f.Read(p);
      got := got + p[..n];
      last := if e.Some? then e else last;
    }
    assert sizes[..|sizes|] == sizes;
  }

  /** One response, read for as long as the client likes and then closed. It ends once as
      many buffers with room have been filled as there are bytes, and one more. */
  method Serve(repository: string, chunks: seq<seq<byte>>, end: ReadError, eager: bool, digest: Digest,
               hash: seq<byte> -> Digest, faults: Faults, sizes: seq<nat>)
    returns (o: Outcome)
    requires !end.DigestMismatch?
    ensures o.got <= Flatten(chunks) && (Positive(sizes) > |Flatten(chunks)| ==> o.end.Some?)
    ensures o.end.Some? ==> (o.got, o.end.value) == Verified(Flatten(chunks), end, hash, digest)
    ensures o.commits + o.cancels == 1
    ensures o.commits == 1 <==> o.end == Some(Eof) && forall k: nat :: k < o.writes ==> faults.writes(k).None?
    ensures o.published == if o.commits == 1 && !faults.commit then Some(o.got) else None
    ensures o.row == if o.published.Some? && !faults.row then Some(CachedBlob(repository, digest, |o.got|)) else None
  {
    var upstream := new Source(chunks, end, eager);
    var src := new VerifiedReader(upstream, digest, hash);
    var session := new Session(faults, hash);
    var f := new Fill(repository, src, session);
    var got, last := Pull(f, sizes);
    DeliveredPrefix(src);
    f.Close();
    o := Outcome(got, last, session.attempts, session.commits, session.cancels, session.published, f.row);
  }

  lemma DeliveredPrefix(r: VerifiedReader)
    requires r.Valid()
    ensures r.delivered <= r.whole
  {
  }
}
