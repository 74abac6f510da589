/**
 A blob streamed one byte behind its source, so that its last byte is only
 handed over once everything hashed to the expected digest.
 Models `Verifier` and `verifiedReader` of internal/blob/verify.go.
 */
module VerifiedReads {
  import opened Wrappers

  type Digest = string

  datatype ReadError = Eof | Failed(reason: string) | DigestMismatch(expected: Digest, actual: Digest, size: nat)

  ghost function Flatten(chunks: seq<seq<byte>>): (r: seq<byte>) {
    if chunks == [] then [] else chunks[0] + Flatten(chunks[1..])
  }

  /** The reader underneath: any chunking of any bytes, ending in any error,
      which may come with the last bytes or after them and then persists. */
  class Source {
    var chunks: seq<seq<byte>>
    const end: ReadError
    const eager: bool

    constructor (chunks: seq<seq<byte>>, end: ReadError, eager: bool)
      requires !end.DigestMismatch?
      ensures this.chunks == chunks && this.end == end && this.eager == eager
    {
      this.chunks, this.end, this.eager := chunks, end, eager;
    }

    ghost function Rest(): (r: seq<byte>)
      reads this
    {
      Flatten(chunks)
    }

    ghost function Steps(): (r: nat)
      reads this
    {
      |Flatten(chunks)| + |chunks|
    }

    /** Reads into `p[off..]`; what lies beyond the bytes read is not promised. */
    method Read(p: array<byte>, off: nat) returns (n: nat, err: Option<ReadError>)
      requires off < p.Length
      modifies this, p
      ensures off + n <= p.Length && p[..off] == old(p[..off])
      ensures old(Rest()) == p[off..off + n] + Rest()
      ensures err.Some? ==> err.value == end && Rest() == []
      ensures err.None? ==> Steps() < old(Steps())
    {
      n := 0;
      if chunks == [] {
        return n, Some(end);
      }
      var front := chunks[0];
      n := if |front| <= p.Length - off then |front| else p.Length - off;
      forall i | 0 <= i < n { p[off + i] := front[i]; }
      assert p[off..off + n] == front[..n];
      assert front == front[..n] + front[n..];
      if n == |front| {
        chunks := chunks[1..];
      } else {
        ghost var was := chunks;
        chunks := [front[n..]] + chunks[1..];
        assert chunks[1..] == was[1..];
      }
      err := if chunks == [] && eager then Some(end) else None;
    }
  }

  /** The running hash: what it has seen is what it will be asked about. */
  class Verifier {
    const expected: Digest
    const hash: seq<byte> -> Digest
    var hashed: seq<byte>
    var size: nat

    constructor (expected: Digest, hash: seq<byte> -> Digest)
      ensures this.expected == expected && this.hash == hash && hashed == [] && size == 0
    {
      this.expected, this.hash, hashed, size := expected, hash, [], 0;
    }

    method Write(bytes: seq<byte>)
      modifies this
      ensures hashed == old(hashed) + bytes && size == old(size) + |bytes|
    {
      hashed, size := hashed + bytes, size + |bytes|;
    }

    method Verify() returns (err: Option<ReadError>)
      ensures err.None? <==> hash(hashed) == expected
      ensures err.Some? ==> err.value == DigestMismatch(expected, hash(hashed), size)
    {
      var actual := hash(hashed);
      err := if actual != expected then Some(DigestMismatch(expected, actual, size)) else None;
    }
  }

  ghost function ButLast(s: seq<byte>): (r: seq<byte>) {
    if s == [] then [] else s[..|s| - 1]
  }

  /** What a client ends up with: everything and a clean end exactly when the
      stream is whole and matches; otherwise all but the last byte and an error. */
  ghost function Verified(whole: seq<byte>, end: ReadError, hash: seq<byte> -> Digest,
                          digest: Digest): (r: (seq<byte>, ReadError))
  {
    if !end.Eof? then (ButLast(whole), end)
    else if hash(whole) == digest then (whole, Eof)
    else (ButLast(whole), DigestMismatch(digest, hash(whole), |whole|))
  }

  lemma OneBehind(delivered: seq<byte>, front: seq<byte>, arrived: seq<byte>, hashed: seq<byte>)
    requires delivered + front == hashed && arrived != []
    ensures delivered + (front + arrived[..|arrived| - 1]) + [arrived[|arrived| - 1]] == hashed + arrived
  {
    assert arrived == arrived[..|arrived| - 1] + [arrived[|arrived| - 1]];
  }

  class VerifiedReader {
    const src: Source
    const verifier: Verifier
    var held: byte
    var hasHeld: bool
    var done: bool
    var err: ReadError
    /** Times the corruption hook was called. */
    var reports: nat
    ghost const whole: seq<byte>
    ghost var delivered: seq<byte>

    constructor (src: Source, digest: Digest, hash: seq<byte> -> Digest)
      requires !src.end.DigestMismatch?
      ensures Valid() && fresh(verifier) && this.src == src
      ensures verifier.expected == digest && verifier.hash == hash
      ensures whole == src.Rest() && delivered == [] && !done && reports == 0
    {
      this.src := src;
      verifier := new Verifier(digest, hash);
      held, hasHeld, done, err, reports := 0, false, false, Eof, 0;
      whole, delivered := src.Rest(), [];
    }

    /** The byte kept back, if any. */
    ghost function Held(): (r: seq<byte>)
      reads this
    {
      if hasHeld then [held] else []
    }

    ghost function Result(): (r: (seq<byte>, ReadError))
    {
      Verified(whole, src.end, verifier.hash, verifier.expected)
    }

    ghost predicate Valid()
      reads this, src, verifier
    {
      && !src.end.DigestMismatch?
      && verifier.hashed + src.Rest() == whole
      && verifier.size == |verifier.hashed|
      && (!done ==> Running())
      && (done ==> Ended())
    }

    /** One byte behind: what was delivered plus the held byte is what was hashed. */
    ghost predicate Running()
      reads this, verifier
    {
      && delivered + Held() == verifier.hashed
      && (verifier.hashed != [] ==> hasHeld)
      && reports == 0
    }

    ghost predicate Ended()
      reads this, verifier
    {
      && verifier.hashed == whole
      && (delivered, err) == Result()
      && reports == (if err.DigestMismatch? then 1 else 0)
    }

    /** Verifies at the end of the stream and decides what the caller sees. */
    method Finish(p: array<byte>, n: nat) returns (written: nat, e: Option<ReadError>)
      requires !done && src.end.Eof? && src.Rest() == [] && reports == 0
      requires verifier.hashed == whole && verifier.size == |whole|
      requires n < p.Length
      requires delivered + p[..n] + Held() == whole && (whole != [] ==> hasHeld)
      modifies this, p
      ensures n <= written <= p.Length && p[..n] == old(p[..n])
      ensures Valid() && done && e == Some(err)
      ensures delivered == old(delivered) + p[..written]
    {
      written := n;
      var mismatch := verifier.Verify();
      if mismatch.Some? {
        delivered := delivered + p[..n];
        done, err, hasHeld := true, mismatch.value, false;
        reports := reports + 1;
        return written, mismatch;
      }
      if hasHeld {
        p[written] := held;
        hasHeld := false;
        written := written + 1;
        assert p[..written] == old(p[..n]) + [old(held)];
      }
      assert delivered + p[..written] == whole;
      delivered := delivered + p[..written];
      done, err := true, Eof;
      e := Some(Eof);
    }

    /** The source is exhausted: verify, or end on its own error, in which case
        the held byte is never released. */
    method Stop(p: array<byte>, n: nat) returns (written: nat, e: Option<ReadError>)
      requires !done && !src.end.DigestMismatch? && src.Rest() == [] && reports == 0
      requires verifier.hashed == whole && verifier.size == |whole|
      requires n < p.Length
      requires delivered + p[..n] + Held() == whole && (whole != [] ==> hasHeld)
      modifies this, p
      ensures n <= written <= p.Length && p[..n] == old(p[..n])
      ensures Valid() && done && e == Some(err)
      ensures delivered == old(delivered) + p[..written]
    {
      if src.end.Eof? {
        written, e := Finish(p, n);
      } else {
        delivered := delivered + p[..n];
        done, err := true, src.end;
        written, e := n, Some(src.end);
      }
    }

    /** No room for the held byte and a new one: the source is read aside. */
    method ReadAside(p: array<byte>) returns (n: nat, e: Option<ReadError>, again: bool)
      requires Valid() && !done && hasHeld && p.Length == 1
      modifies this, src, verifier, p
      ensures Valid() && n <= p.Length && delivered == old(delivered) + p[..n]
      ensures done <==> e.Some?
      ensures e.Some? ==> e.value == err
      ensures again ==> n == 0 && !done && src.Steps() < old(src.Steps())
      ensures !again && !done ==> n > 0
    {
      var scratch := new byte[1];
      n, again := 0, false;
      var got, failure := src.Read(scratch, 0);
      if got > 0 {
        verifier.Write(scratch[..1]);
        p[0] := held;
        held := scratch[0];
        delivered := delivered + p[..1];
        assert scratch[0..got] == scratch[..1];
        return 1, None, false;
      }
      assert scratch[0..got] == [];
      if failure.None? {
        return 0, None, true;
      }
      n, e := Stop(p, 0);
    }

    /** Hashes what arrived, puts the held byte in front of it and holds the last
        byte instead. */
    method Shift(p: array<byte>, offset: nat, got: nat) returns (n: nat)
      requires offset == (if hasHeld then 1 else 0) && 0 < got && offset + got <= p.Length
      requires delivered + Held() == verifier.hashed
      modifies this`held, this`hasHeld, verifier, p
      ensures n < p.Length && hasHeld
      ensures verifier.hashed == old(verifier.hashed) + old(p[offset..offset + got])
      ensures verifier.size == old(verifier.size) + got
      ensures delivered + p[..n] + Held() == verifier.hashed
    {
      ghost var front, arrived := Held(), p[offset..offset + got];
      OneBehind(delivered, front, arrived, verifier.hashed);
      verifier.Write(p[offset..offset + got]);
      n := 0;
      if hasHeld {
        p[0] := held;
        hasHeld := false;
        n := 1;
      }
      assert p[..offset] == front && p[offset..offset + got] == arrived;
      held := p[offset + got - 1];
      hasHeld := true;
      n := n + got - 1;
      assert held == arrived[got - 1];
      assert p[..n] == front + arrived[..got - 1];
    }

    /** The held byte goes out in front of whatever came back, and the last byte
        that came back is held in its place. */
    method ReadThrough(p: array<byte>) returns (n: nat, e: Option<ReadError>, again: bool)
      requires Valid() && !done && p.Length > (if hasHeld then 1 else 0)
      modifies this, src, verifier, p
      ensures Valid() && n <= p.Length && delivered == old(delivered) + p[..n]
      ensures done <==> e.Some?
      ensures e.Some? ==> e.value == err
      ensures again ==> n == 0 && !done && src.Steps() < old(src.Steps())
      ensures !again && !done ==> n > 0
    {
      var offset := if hasHeld then 1 else 0;
      var got, failure := src.Read(p, offset);
      assert verifier.hashed + p[offset..offset + got] + src.Rest() == whole;
      n := 0;
      if got > 0 {
        n := Shift(p, offset, got);
      }
      n, e, again := Conclude(p, n, failure.Some?);
    }

    /** Hands over what was shifted, unless the source has ended. */
    method Conclude(p: array<byte>, shifted: nat, ended: bool) returns (n: nat, e: Option<ReadError>, again: bool)
      requires !done && !src.end.DigestMismatch? && reports == 0 && (ended ==> src.Rest() == [])
      requires verifier.hashed + src.Rest() == whole && verifier.size == |verifier.hashed| && shifted < p.Length
      requires delivered + p[..shifted] + Held() == verifier.hashed && (verifier.hashed != [] ==> hasHeld)
      modifies this, p
      ensures Valid() && n <= p.Length && delivered == old(delivered) + p[..n]
      ensures done <==> e.Some?
      ensures e.Some? ==> e.value == err
      ensures again ==> n == 0 && !done && !ended
      ensures !again && !done ==> n > 0
    {
      n, again := shifted, false;
      if ended {
        n, e := Stop(p, n);
      } else {
        delivered := delivered + p[..n];
        e, again := None, n == 0;
      }
    }

    /** Fills `p`, running one byte behind the source. Never writes outside `p`,
        never returns nothing without an error, and repeats its last error. */
    method Read(p: array<byte>) returns (n: nat, e: Option<ReadError>)
      requires Valid()
      modifies this, src, verifier, p
      ensures Valid() && n <= p.Length && delivered == old(delivered) + p[..n]
      ensures p.Length == 0 ==> e.None? && done == old(done)
      ensures p.Length > 0 ==> (done <==> e.Some?)
      ensures e.Some? ==> e.value == err
      ensures p.Length > 0 && e.None? ==> n > 0
      ensures old(done) ==> done && n == 0 && err == old(err)
    {
      if p.Length == 0 {
        return 0, None;
      }
      if done {
        return 0, Some(err);
      }
      var again := true;
      n, e := 0, None;
      while again
        invariant Valid() && n <= p.Length && delivered == old(delivered) + p[..n]
        invariant done <==> e.Some?
        invariant e.Some? ==> e.value == err
        invariant again ==> !done && n == 0
        invariant !again && !done ==> n > 0
        decreases again, src.Steps()
      {
        if hasHeld && p.Length == 1 {
          n, e, again := ReadAside(p);
        } else {
          n, e, again := ReadThrough(p);
        }
      }
    }
  }

  /** A client reading to the end with buffers of any positive sizes. */
  method ReadAll(chunks: seq<seq<byte>>, end: ReadError, eager: bool, digest: Digest, hash: seq<byte> -> Digest,
                 sizeOf: nat -> nat)
    returns (got: seq<byte>, err: ReadError)
    requires !end.DigestMismatch?
    requires forall k {:trigger sizeOf(k)} :: sizeOf(k) > 0
    ensures (got, err) == Verified(Flatten(chunks), end, hash, digest)
  {
    var src := new Source(chunks, end, eager);
    var r := new VerifiedReader(src, digest, hash);
    got := [];
    var e: Option<ReadError>, k := None, 0;
    while e.None?
      invariant fresh(r) && fresh(r.src) && fresh(r.verifier)
      invariant r.Valid() && got == r.delivered
      invariant
        && r.whole == Flatten(chunks)
        && r.src.end == end
        && r.verifier.expected == digest
        && r.verifier.hash == hash
      invariant e.Some? ==> r.done && e.value == r.err
      invariant e.None? ==> !r.done
      decreases e.None?, |r.whole| - |got|
    {
      var p := new byte[sizeOf(k)](_ => 0);
      var n;
      n, e := r.Read(p);
      got, k := got + p[..n], k + 1;
      DeliveredBound(r);
    }
    err := e.value;
  }

  lemma DeliveredBound(r: VerifiedReader)
    requires r.Valid()
    ensures |r.delivered| <= |r.whole|
  {
  }
}
