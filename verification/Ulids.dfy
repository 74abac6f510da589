/**
 Monotonic ULIDs: 48 bits of milliseconds and 80 bits of entropy as 26 base-32
 characters, increasing whatever the clock does.
 Models internal/event/id.go.
 */
module Ulids {
  import opened Wrappers
  import opened Order

  const ID_LENGTH := 26

  const ALPHABET: string := "0123456789ABCDEFGHJKMNPQRSTVWXYZ"

  // ----- big-endian bytes -----

  /** `a` comes before `b` at the first byte where they differ. */
  ghost predicate DifferAt(a: seq<byte>, b: seq<byte>, i: int) {
    0 <= i < |a| && i < |b| && a[..i] == b[..i] && a[i] < b[i]
  }

  ghost predicate BytesLt(a: seq<byte>, b: seq<byte>) {
    |a| == |b| && exists i :: DifferAt(a, b, i)
  }

  ghost function Value(b: seq<byte>): (n: int) {
    if b == [] then 0 else Value(b[..|b| - 1]) * 256 + b[|b| - 1] as int
  }

  ghost predicate AllOnes(b: seq<byte>) { forall i {:trigger b[i]} :: 0 <= i < |b| ==> b[i] == 255 }

  /** One more, wrapping to zero. */
  ghost function Incremented(b: seq<byte>): (r: seq<byte>)
    ensures |r| == |b|
  {
    if b == [] then []
    else if b[|b| - 1] < 255 then b[..|b| - 1] + [b[|b| - 1] + 1]
    else Incremented(b[..|b| - 1]) + [0]
  }

  lemma {:induction false} IncrementedMeaning(b: seq<byte>)
    ensures AllOnes(b) ==> AllZero(Incremented(b))
    ensures !AllOnes(b) ==> BytesLt(b, Incremented(b)) && Value(Incremented(b)) == Value(b) + 1
  {
    if b != [] {
      var front, last := b[..|b| - 1], b[|b| - 1];
      var r := Incremented(b);
      if last < 255 {
        assert r[..|b| - 1] == front;
        assert DifferAt(b, r, |b| - 1);
      } else {
        IncrementedMeaning(front);
        assert r[..|b| - 1] == Incremented(front);
        if !AllOnes(b) {
          assert !AllOnes(front);
          var i :| DifferAt(front, Incremented(front), i);
          assert b[..i] == front[..i] && r[..i] == Incremented(front)[..i];
          assert DifferAt(b, r, i);
        }
      }
    }
  }

  ghost predicate AllZero(b: seq<byte>) { forall i {:trigger b[i]} :: 0 <= i < |b| ==> b[i] == 0 }

  /** Adds one to a big-endian counter in place, reporting false if it wrapped. */
  method Increment(b: array<byte>) returns (ok: bool)
    modifies b
    ensures b[..] == Incremented(old(b[..]))
    ensures ok <==> !AllOnes(old(b[..]))
  {
    ghost var was := b[..];
    var i := b.Length - 1;
    assert b[..] == was[..i + 1] + Zeros(0);
    while i >= 0
      invariant -1 <= i < b.Length
      invariant b[..] == was[..i + 1] + Zeros(b.Length - 1 - i) && OnesFrom(was, i + 1)
    {
      assert b[i] == b[..][i] == was[i];
      b[i] := if b[i] == 255 then 0 else b[i] + 1;
      if b[i] != 0 {
        assert b[..] == was[..i] + [was[i] + 1] + Zeros(b.Length - 1 - i);
        CarryTo(was, i);
        return true;
      }
      assert b[..] == was[..i] + Zeros(b.Length - i);
      i := i - 1;
    }
    assert b[..] == Zeros(b.Length);
    WrapAll(was);
    return false;
  }

  ghost function Zeros(n: nat): (z: seq<byte>)
    ensures |z| == n
    ensures forall k {:trigger z[k]} :: 0 <= k < n ==> z[k] == 0
  {
    seq(n, _ => 0)
  }

  ghost predicate OnesFrom(b: seq<byte>, i: int) { forall k {:trigger b[k]} :: 0 <= i <= k < |b| ==> b[k] == 255 }

  /** The carry stops at the last byte that is not all ones. */
  lemma {:induction false} CarryTo(was: seq<byte>, i: nat)
    requires i < |was| && was[i] < 255 && OnesFrom(was, i + 1)
    ensures Incremented(was) == was[..i] + [was[i] + 1] + Zeros(|was| - 1 - i)
    decreases |was|
  {
    var n := |was| - 1;
    if i < n {
      var front := was[..n];
      assert was[n] == 255 && front[i] == was[i] && front[..i] == was[..i];
      forall k | i < k < n ensures front[k] == 255 { assert front[k] == was[k]; }
      CarryTo(front, i);
    }
  }

  lemma {:induction false} WrapAll(was: seq<byte>)
    requires OnesFrom(was, 0)
    ensures Incremented(was) == Zeros(|was|) && AllOnes(was)
  {
    if was != [] {
      var n := |was| - 1;
      var front := was[..n];
      assert was[n] == 255;
      forall k | 0 <= k < n ensures front[k] == 255 { assert front[k] == was[k]; }
      WrapAll(front);
    }
  }

  /** A number as `n` big-endian bytes. */
  ghost function BigEndian(x: nat, n: nat): (r: seq<byte>)
    ensures |r| == n
  {
    if n == 0 then [] else BigEndian(x / 256, n - 1) + [(x % 256) as byte]
  }

  lemma {:induction false} BigEndianOrder(x: nat, y: nat, n: nat)
    requires x < y && y < Pow256(n)
    ensures BytesLt(BigEndian(x, n), BigEndian(y, n))
  {
    if n > 0 {
      var a, b := BigEndian(x / 256, n - 1), BigEndian(y / 256, n - 1);
      var l, r := BigEndian(x, n), BigEndian(y, n);
      if x / 256 < y / 256 {
        BigEndianOrder(x / 256, y / 256, n - 1);
        var i :| DifferAt(a, b, i);
        assert l[..i] == a[..i] && r[..i] == b[..i];
        assert DifferAt(l, r, i);
      } else {
        assert l[..n - 1] == a && r[..n - 1] == b;
        assert DifferAt(l, r, n - 1);
      }
    }
  }

  ghost function Pow256(n: nat): (r: nat) { if n == 0 then 1 else 256 * Pow256(n - 1) }

  lemma ConcatOrder(a: seq<byte>, b: seq<byte>, x: seq<byte>, y: seq<byte>)
    requires |a| == |b| && |x| == |y|
    ensures BytesLt(a, b) ==> BytesLt(a + x, b + y)
    ensures a == b && BytesLt(x, y) ==> BytesLt(a + x, b + y)
  {
    if BytesLt(a, b) {
      var i :| DifferAt(a, b, i);
      assert (a + x)[..i] == a[..i] && (b + y)[..i] == b[..i];
      assert DifferAt(a + x, b + y, i);
    }
    if a == b && BytesLt(x, y) {
      var i :| DifferAt(x, y, i);
      assert (a + x)[..|a| + i] == a + x[..i] && (b + y)[..|a| + i] == b + y[..i];
      assert DifferAt(a + x, b + y, |a| + i);
    }
  }

  // ----- bits and digits -----

  function PowerOf2(r: int): (p: int)
    requires 0 <= r <= 8
    ensures p > 0
  {
    if r == 0 then 1 else if r == 1 then 2 else if r == 2 then 4 else if r == 3 then 8
    else if r == 4 then 16 else if r == 5 then 32 else if r == 6 then 64 else if r == 7 then 128 else 256
  }

  /** A byte shifted right. */
  function Shifted(x: byte, r: int): (h: int)
    requires 0 <= r <= 8
  {
    x as int / PowerOf2(r)
  }

  function Bit(x: byte, r: int): (b: int)
    requires 0 <= r < 8
    ensures 0 <= b <= 1
  {
    Shifted(x, r) % 2
  }

  lemma ShiftStep(x: byte, r: int)
    requires 0 <= r < 8
    ensures Shifted(x, r) == 2 * Shifted(x, r + 1) + Bit(x, r)
  {
  }

  lemma ShiftOrder(x: byte, y: byte, r: int)
    requires 0 <= r <= 8 && x < y
    ensures Shifted(x, r) <= Shifted(y, r)
  {
  }

  /** The highest bit where two bytes differ tells which is larger. */
  lemma FirstBit(x: byte, y: byte) returns (r: int)
    requires x < y
    ensures 0 <= r < 8 && Bit(x, r) == 0 && Bit(y, r) == 1
    ensures forall k {:trigger Bit(x, k)} {:trigger Bit(y, k)} :: r < k < 8 ==> Bit(x, k) == Bit(y, k)
  {
    r := 8;
    while Shifted(x, r) == Shifted(y, r)
      invariant 0 <= r <= 8
      invariant r == 8 || Shifted(x, r + 1) == Shifted(y, r + 1)
      invariant forall k {:trigger Bit(x, k)} {:trigger Bit(y, k)} :: r < k < 8 ==> Bit(x, k) == Bit(y, k)
      decreases r
    {
      assert r > 0;
      r := r - 1;
    }
    ShiftStep(x, r);
    ShiftStep(y, r);
    ShiftOrder(x, y, r);
  }

  /** Bit `n` of the value, counting from the least significant; padding is zero. */
  function BitAt(raw: seq<byte>, n: int): (b: int)
    requires |raw| == 16 && n >= 0
    ensures 0 <= b <= 1
  {
    if n >= 128 then 0 else Bit(raw[15 - n / 8], n % 8)
  }

  /** `a` and `b` agree above bit `n`, where `a` has none and `b` has one. */
  ghost predicate SplitAt(a: seq<byte>, b: seq<byte>, n: int) {
    && |a| == 16 && |b| == 16 && 0 <= n < 128 && BitAt(a, n) == 0 && BitAt(b, n) == 1
    && forall k {:trigger BitAt(a, k)} {:trigger BitAt(b, k)} :: n < k ==> BitAt(a, k) == BitAt(b, k)
  }

  lemma BytesSplit(a: seq<byte>, b: seq<byte>) returns (n: int)
    requires |a| == 16 && BytesLt(a, b)
    ensures SplitAt(a, b, n)
  {
    var i :| DifferAt(a, b, i);
    var r := FirstBit(a[i], b[i]);
    n := 8 * (15 - i) + r;
    forall k | n < k
      ensures BitAt(a, k) == BitAt(b, k)
    {
      if k < 128 {
        var j := 15 - k / 8;
        assert j <= i;
        if j < i { assert a[..i][j] == b[..i][j]; } else { assert k % 8 > r; }
      }
    }
  }

  function Digit(raw: seq<byte>, i: int): (d: int)
    requires |raw| == 16 && 0 <= i < ID_LENGTH
    ensures 0 <= d < 32
  {
    var shift := 5 * (ID_LENGTH - 1 - i);
    16 * BitAt(raw, shift + 4) + 8 * BitAt(raw, shift + 3) + 4 * BitAt(raw, shift + 2) + 2 * BitAt(raw, shift + 1) +
      BitAt(raw, shift)
  }

  function Symbol(d: int): (c: char)
    requires 0 <= d < 32
  {
    ALPHABET[d]
  }

  ghost function Encoded(raw: seq<byte>): (s: string)
    requires |raw| == 16
    ensures |s| == ID_LENGTH
    ensures forall i {:trigger s[i]} :: 0 <= i < ID_LENGTH ==> s[i] == Symbol(Digit(raw, i))
  {
    seq(ID_LENGTH, i requires 0 <= i < ID_LENGTH => Symbol(Digit(raw, i)))
  }

  /** Renders 128 bits as 26 base-32 digits, most significant first. */
  method EncodeCrockford(raw: seq<byte>) returns (out: string)
    requires |raw| == 16
    ensures out == Encoded(raw)
  {
    out := "";
    for i := 0 to ID_LENGTH
      invariant out == Encoded(raw)[..i]
    {
      var c := SymbolAt(raw, i);
      assert Encoded(raw)[..i + 1] == Encoded(raw)[..i] + [Encoded(raw)[i]];
      out := out + [c];
    }
  }

  method SymbolAt(raw: seq<byte>, i: int) returns (c: char)
    requires |raw| == 16 && 0 <= i < ID_LENGTH
    ensures c == Encoded(raw)[i]
  {
    var digit := FiveBits(raw, 5 * (ID_LENGTH - 1 - i));
    HighBitsDigit(raw, i);
    c := Symbol(digit);
  }

  method FiveBits(raw: seq<byte>, shift: int) returns (digit: int)
    requires |raw| == 16 && shift >= 0
    ensures digit == HighBits(raw, shift, 5)
  {
    digit := 0;
    var bit := 4;
    while bit >= 0
      invariant -1 <= bit <= 4 && digit == HighBits(raw, shift, 4 - bit)
    {
      digit := 2 * digit + BitAt(raw, shift + bit);
      bit := bit - 1;
    }
  }

  lemma HighBitsDigit(raw: seq<byte>, i: int)
    requires |raw| == 16 && 0 <= i < ID_LENGTH
    ensures HighBits(raw, 5 * (ID_LENGTH - 1 - i), 5) == Digit(raw, i)
  {
    var shift := 5 * (ID_LENGTH - 1 - i);
    assert HighBits(raw, shift, 1) == BitAt(raw, shift + 4);
    assert HighBits(raw, shift, 2) == 2 * BitAt(raw, shift + 4) + BitAt(raw, shift + 3);
    assert HighBits(raw, shift, 3) == 2 * HighBits(raw, shift, 2) + BitAt(raw, shift + 2);
    assert HighBits(raw, shift, 4) == 2 * HighBits(raw, shift, 3) + BitAt(raw, shift + 1);
    assert HighBits(raw, shift, 5) == 2 * HighBits(raw, shift, 4) + BitAt(raw, shift);
  }

  /** The top `n` of five bits, as a number. */
  ghost function HighBits(raw: seq<byte>, shift: int, n: int): (d: int)
    requires |raw| == 16 && shift >= 0 && 0 <= n <= 5
  {
    if n == 0 then 0 else 2 * HighBits(raw, shift, n - 1) + BitAt(raw, shift + 5 - n)
  }

  lemma Ascending(d: int, e: int)
    requires 0 <= d < e < 32
    ensures Symbol(d) < Symbol(e)
  {
  }

  /** Strictly order-preserving on 128-bit values. */
  lemma EncodingKeepsOrder(a: seq<byte>, b: seq<byte>)
    requires |a| == 16 && BytesLt(a, b)
    ensures LexLt(Encoded(a), Encoded(b))
  {
    var n := BytesSplit(a, b);
    var k := ID_LENGTH - 1 - n / 5;
    forall i | 0 <= i < k ensures Digit(a, i) == Digit(b, i) { }
    DigitGrows(a, b, n);
    Ascending(Digit(a, k), Digit(b, k));
    assert SmallerAt(Encoded(a), Encoded(b), k);
  }

  lemma DigitGrows(a: seq<byte>, b: seq<byte>, n: int)
    requires SplitAt(a, b, n)
    ensures Digit(a, ID_LENGTH - 1 - n / 5) < Digit(b, ID_LENGTH - 1 - n / 5)
  {
    var shift := 5 * (n / 5);
    assert n == shift || n == shift + 1 || n == shift + 2 || n == shift + 3 || n == shift + 4;
  }

  // ----- minting -----

  const MS_LIMIT: int := 0x1_0000_0000_0000

  function Low(x: int): (b: byte) { (x % 256) as byte }

  /** The low 48 bits of the milliseconds. */
  function Six(ms: int): (r: seq<byte>)
    ensures |r| == 6
  {
    [Low(ms / 0x100_0000_0000), Low(ms / 0x1_0000_0000), Low(ms / 0x100_0000), Low(ms / 0x1_0000), Low(ms / 0x100),
      Low(ms)]
  }

  lemma SixOrder(x: int, y: int)
    requires 0 <= x < y < MS_LIMIT
    ensures BytesLt(Six(x), Six(y))
  {
    SixIsBigEndian(x);
    SixIsBigEndian(y);
    assert Pow256(1) == 256 && Pow256(2) == 65536 && Pow256(3) == 0x100_0000;
    assert Pow256(4) == 0x1_0000_0000 && Pow256(5) == 0x100_0000_0000 && Pow256(6) == MS_LIMIT;
    BigEndianOrder(x, y, 6);
  }

  lemma SixIsBigEndian(x: int)
    requires 0 <= x < MS_LIMIT
    ensures Six(x) == BigEndian(x, 6)
  {
    var x1, x2, x3, x4, x5 := x / 0x100, x / 0x1_0000, x / 0x100_0000, x / 0x1_0000_0000, x / 0x100_0000_0000;
    assert BigEndian(x5, 1) == [Low(x5)];
    assert x4 / 256 == x5 && BigEndian(x4, 2) == [Low(x5), Low(x4)];
    assert x3 / 256 == x4 && BigEndian(x3, 3) == [Low(x5), Low(x4), Low(x3)];
    assert x2 / 256 == x3 && BigEndian(x2, 4) == [Low(x5), Low(x4), Low(x3), Low(x2)];
    assert x1 / 256 == x2 && BigEndian(x1, 5) == [Low(x5), Low(x4), Low(x3), Low(x2), Low(x1)];
  }

  function Raw(ms: int, last: seq<byte>): (r: seq<byte>)
    requires |last| == 10
    ensures |r| == 16
  {
    Six(ms) + last
  }

  /** Of two byte strings of one length, one comes first unless they are the same. */
  lemma BytesTotal(a: seq<byte>, b: seq<byte>)
    requires |a| == |b|
    ensures a == b || BytesLt(a, b) || BytesLt(b, a)
  {
    var i := 0;
    while i < |a| && a[i] == b[i]
      invariant 0 <= i <= |a| && a[..i] == b[..i]
    {
      i := i + 1;
    }
    if i < |a| { assert DifferAt(a, b, i) || DifferAt(b, a, i); }
  }

  lemma NothingAboveOnes(ones: seq<byte>, b: seq<byte>)
    requires AllOnes(ones)
    ensures !BytesLt(ones, b)
  {
  }

  lemma BytesIrreflexive(a: seq<byte>)
    ensures !BytesLt(a, a)
  {
  }

  /** The encoding orders exactly as the bytes do. */
  lemma EncodingOrderIff(a: seq<byte>, b: seq<byte>)
    requires |a| == 16 && |b| == 16
    ensures LexLt(Encoded(a), Encoded(b)) <==> BytesLt(a, b)
  {
    if BytesLt(a, b) {
      EncodingKeepsOrder(a, b);
    } else {
      BytesTotal(a, b);
      if a != b {
        EncodingKeepsOrder(b, a);
        if LexLt(Encoded(a), Encoded(b)) { LexAntisymmetric(Encoded(a), Encoded(b)); }
      }
    }
  }

  /** What an identifier keeps of an instant. */
  function Stamp(ms: int): (r: int)
    ensures 0 <= r < MS_LIMIT
  {
    ms % MS_LIMIT
  }

  lemma SixOfStamp(ms: int)
    ensures Six(ms) == Six(Stamp(ms))
  {
    var q, r := ms / MS_LIMIT, Stamp(ms);
    assert ms / 0x100_0000_0000 == q * 0x100 + r / 0x100_0000_0000;
    assert ms / 0x1_0000_0000 == q * 0x1_0000 + r / 0x1_0000_0000;
    assert ms / 0x100_0000 == q * 0x100_0000 + r / 0x100_0000;
    assert ms / 0x1_0000 == q * 0x1_0000_0000 + r / 0x1_0000;
    assert ms / 0x100 == q * 0x100_0000_0000 + r / 0x100;
    assert ms == q * MS_LIMIT + r;
    SameLow(q, r / 0x100_0000_0000);
    SameLow(q * 0x100, r / 0x1_0000_0000);
    SameLow(q * 0x1_0000, r / 0x100_0000);
    SameLow(q * 0x100_0000, r / 0x1_0000);
    SameLow(q * 0x1_0000_0000, r / 0x100);
    SameLow(q * 0x100_0000_0000, r);
  }

  lemma SameLow(k: int, x: int)
    ensures Low(k * 256 + x) == Low(x)
  {
  }

  ghost predicate Before(ms0: int, last0: seq<byte>, ms1: int, last1: seq<byte>) {
    Stamp(ms0) < Stamp(ms1) || (Stamp(ms0) == Stamp(ms1) && BytesLt(last0, last1))
  }

  /** One identifier sorts before another exactly when its stamp does, or its entropy
      under the same stamp. */
  lemma IdOrderIff(ms0: int, last0: seq<byte>, ms1: int, last1: seq<byte>)
    requires |last0| == 10 && |last1| == 10
    ensures LexLt(Encoded(Raw(ms0, last0)), Encoded(Raw(ms1, last1))) <==> Before(ms0, last0, ms1, last1)
  {
    var a, b := Raw(ms0, last0), Raw(ms1, last1);
    EncodingOrderIff(a, b);
    SixOfStamp(ms0);
    SixOfStamp(ms1);
    ConcatOrder(Six(ms0), Six(ms1), last0, last1);
    ConcatOrder(Six(ms1), Six(ms0), last1, last0);
    if Stamp(ms0) < Stamp(ms1) {
      SixOrder(Stamp(ms0), Stamp(ms1));
    } else if Stamp(ms0) > Stamp(ms1) {
      SixOrder(Stamp(ms1), Stamp(ms0));
      BytesAsymmetric(b, a);
    } else {
      BytesTotal(last0, last1);
      if last0 == last1 {
        BytesIrreflexive(a);
      } else if BytesLt(last1, last0) {
        BytesAsymmetric(b, a);
        BytesAsymmetric(last1, last0);
      }
    }
  }

  lemma BytesAsymmetric(a: seq<byte>, b: seq<byte>)
    requires BytesLt(a, b)
    ensures !BytesLt(b, a)
  {
    var i :| DifferAt(a, b, i);
    forall j | 0 <= j < |a|
      ensures !DifferAt(b, a, j)
    {
      if i < j {
        assert a[..j][i] == a[i] && b[..j][i] == b[i];
      } else if j < i {
        assert a[..i][j] == a[j] && b[..i][j] == b[j];
      }
    }
  }

  // ----- the source, call by call -----

  datatype Mint = Mint(started: bool, lastMS: int, last: seq<byte>, draws: nat)

  const UNSTARTED := Mint(false, 0, [0, 0, 0, 0, 0, 0, 0, 0, 0, 0], 0)

  /** A full read replaces the entropy; a short one leaves what it wrote and steps it. */
  ghost function Drawn(last: seq<byte>, got: seq<byte>): (r: seq<byte>)
    requires |last| == 10
    ensures |r| == 10
  {
    if |got| >= 10 then got[..10] else Incremented(got + last[|got|..])
  }

  /** The source after one call: an instant not after the last one is not honoured
      and steps the entropy, drawing anew only when that wraps. */
  ghost function Minted(entropy: nat -> seq<byte>, m: Mint, at: int): (r: Mint)
    requires |m.last| == 10
    ensures |r.last| == 10 && r.started
  {
    if !m.started || at > m.lastMS then Mint(true, at, Drawn(m.last, entropy(m.draws)), m.draws + 1)
    else if !AllOnes(m.last) then m.(last := Incremented(m.last))
    else m.(last := Drawn(Incremented(m.last), entropy(m.draws)), draws := m.draws + 1)
  }

  /** The source after a run of calls. */
  ghost function MintAfter(entropy: nat -> seq<byte>, times: seq<int>): (m: Mint)
    ensures |m.last| == 10 && m.started == (times != [])
  {
    if times == [] then UNSTARTED else Minted(entropy, MintAfter(entropy, times[..|times| - 1]), times[|times| - 1])
  }

  ghost function IdOf(m: Mint): (id: string)
    requires |m.last| == 10
  {
    Encoded(Raw(m.lastMS, m.last))
  }

  /** Every identifier of a run of calls. */
  ghost function Ids(entropy: nat -> seq<byte>, times: seq<int>): (ids: seq<string>)
    ensures |ids| == |times|
  {
    if times == [] then [] else Ids(entropy, times[..|times| - 1]) + [IdOf(MintAfter(entropy, times))]
  }

  /** The next call yields a greater identifier, from the state before it. */
  ghost predicate StepsUp(entropy: nat -> seq<byte>, m: Mint, at: int)
    requires |m.last| == 10
  {
    if at <= m.lastMS then !AllOnes(m.last) else Before(m.lastMS, m.last, at, Drawn(m.last, entropy(m.draws)))
  }

  lemma StepsUpIff(entropy: nat -> seq<byte>, m: Mint, at: int)
    requires m.started && |m.last| == 10
    ensures LexLt(IdOf(m), IdOf(Minted(entropy, m, at))) <==> StepsUp(entropy, m, at)
  {
    var r := Minted(entropy, m, at);
    IdOrderIff(m.lastMS, m.last, r.lastMS, r.last);
    if at <= m.lastMS {
      if AllOnes(m.last) { NothingAboveOnes(m.last, r.last); } else { IncrementedMeaning(m.last); }
    }
  }

  ghost predicate StepsUpAt(entropy: nat -> seq<byte>, times: seq<int>, i: nat)
    requires i < |times|
  {
    StepsUp(entropy, MintAfter(entropy, times[..i]), times[i])
  }

  lemma IncreasingStep(entropy: nat -> seq<byte>, times: seq<int>)
    requires |times| > 1
    ensures var n := |times| - 1;
        Increasing(Ids(entropy, times)) <==> Increasing(Ids(entropy, times[..n])) && StepsUpAt(entropy, times, n)
  {
    var front, at := times[..|times| - 1], times[|times| - 1];
    var m := MintAfter(entropy, front);
    StepsUpIff(entropy, m, at);
    IncreasingSnoc(Ids(entropy, front), IdOf(Minted(entropy, m, at)));
    assert Ids(entropy, front)[|front| - 1] == IdOf(m);
  }

  ghost predicate AlwaysUp(entropy: nat -> seq<byte>, times: seq<int>) {
    forall i {:trigger StepsUpAt(entropy, times, i)} :: 0 < i < |times| ==> StepsUpAt(entropy, times, i)
  }

  lemma AlwaysUpStep(entropy: nat -> seq<byte>, times: seq<int>)
    requires |times| > 1
    ensures var n := |times| - 1;
        AlwaysUp(entropy, times) <==> AlwaysUp(entropy, times[..n]) && StepsUpAt(entropy, times, n)
  {
    var front := times[..|times| - 1];
    forall i | 0 < i < |front|
      ensures StepsUpAt(entropy, front, i) <==> StepsUpAt(entropy, times, i)
    {
      assert front[..i] == times[..i];
    }
  }

  /** Whatever the clock does: the identifiers are strictly increasing exactly when, at
      every call after the first, an instant already reached finds entropy that can be
      stepped, and a new one has a later stamp or, 2^48 milliseconds on, greater entropy. */
  lemma {:induction false} IncreasingIff(entropy: nat -> seq<byte>, times: seq<int>)
    ensures Increasing(Ids(entropy, times)) <==> AlwaysUp(entropy, times)
  {
    if |times| > 1 {
      IncreasingIff(entropy, times[..|times| - 1]);
      IncreasingStep(entropy, times);
      AlwaysUpStep(entropy, times);
    }
  }

  ghost predicate InRange(times: seq<int>) {
    forall i {:trigger times[i]} :: 0 <= i < |times| ==> 0 <= times[i] < MS_LIMIT
  }

  /** A call at an instant already reached finds the entropy all ones. */
  ghost predicate Wraps(m: Mint, at: int) { at <= m.lastMS && AllOnes(m.last) }

  /** For instants from 1970 on that fit 48 bits the order is exactly the absence of a
      call that wraps. */
  lemma InRangeIncreasingIff(entropy: nat -> seq<byte>, times: seq<int>)
    requires InRange(times)
    ensures Increasing(Ids(entropy, times)) <==>
        forall i {:trigger times[i]} :: 0 < i < |times| ==> !Wraps(MintAfter(entropy, times[..i]), times[i])
  {
    forall i | 0 < i < |times|
      ensures StepsUpAt(entropy, times, i) <==> !Wraps(MintAfter(entropy, times[..i]), times[i])
    {
      LatestSoFar(entropy, times[..i]);
      StepInRange(entropy, MintAfter(entropy, times[..i]), times[i]);
    }
    IncreasingIff(entropy, times);
    if forall i {:trigger times[i]} :: 0 < i < |times| ==> !Wraps(MintAfter(entropy, times[..i]), times[i]) {
      forall i | 0 < i < |times|
        ensures StepsUpAt(entropy, times, i)
      {
        assert !Wraps(MintAfter(entropy, times[..i]), times[i]);
      }
    }
  }

  lemma StepInRange(entropy: nat -> seq<byte>, m: Mint, at: int)
    requires |m.last| == 10 && 0 <= m.lastMS < MS_LIMIT && 0 <= at < MS_LIMIT
    ensures StepsUp(entropy, m, at) <==> !Wraps(m, at)
  {
  }

  /** The instant the source holds is the latest it was given. */
  lemma {:induction false} LatestSoFar(entropy: nat -> seq<byte>, times: seq<int>)
    requires times != []
    ensures MintAfter(entropy, times).lastMS in times
    ensures forall k {:trigger times[k]} :: 0 <= k < |times| ==> times[k] <= MintAfter(entropy, times).lastMS
  {
    var front := times[..|times| - 1];
    if front != [] { LatestSoFar(entropy, front); }
    forall k | 0 <= k < |times| ensures times[k] <= MintAfter(entropy, times).lastMS {
      if k < |front| { assert front[k] == times[k]; }
    }
  }

  lemma {:induction false} OnesValue(b: seq<byte>)
    requires AllOnes(b)
    ensures Value(b) == Pow256(|b|) - 1
  {
    if b != [] {
      var front := b[..|b| - 1];
      forall k | 0 <= k < |front| ensures front[k] == 255 { assert front[k] == b[k]; }
      OnesValue(front);
    }
  }

  /** Full draws that leave room for that many steps. */
  ghost predicate Roomy(entropy: nat -> seq<byte>, calls: nat) {
    forall k {:trigger entropy(k)} :: |entropy(k)| >= 10 && Value(entropy(k)[..10]) + calls <= Pow256(10)
  }

  lemma RoomStep(entropy: nat -> seq<byte>, m: Mint, at: int, calls: nat, left: nat)
    requires Roomy(entropy, calls) && left < calls && |m.last| == 10
    requires m.started ==> Value(m.last) + left + 1 < Pow256(10)
    ensures Value(Minted(entropy, m, at).last) + left < Pow256(10)
  {
    assert |entropy(m.draws)| >= 10 && Value(entropy(m.draws)[..10]) + calls <= Pow256(10);
    if m.started {
      if AllOnes(m.last) { OnesValue(m.last); }
      IncrementedMeaning(m.last);
    }
  }

  lemma {:induction false} RoomLeft(entropy: nat -> seq<byte>, times: seq<int>, calls: nat)
    requires 0 < |times| <= calls && Roomy(entropy, calls)
    ensures Value(MintAfter(entropy, times).last) + (calls - |times|) < Pow256(10)
  {
    var front := times[..|times| - 1];
    if front != [] { RoomLeft(entropy, front, calls); }
    RoomStep(entropy, MintAfter(entropy, front), times[|times| - 1], calls, calls - |times|);
  }

  /** Draws that leave room for as many steps as there are calls keep the order. */
  lemma RoomyIncreases(entropy: nat -> seq<byte>, times: seq<int>)
    requires InRange(times) && Roomy(entropy, |times|)
    ensures Increasing(Ids(entropy, times))
  {
    InRangeIncreasingIff(entropy, times);
    forall i | 0 < i < |times| ensures !Wraps(MintAfter(entropy, times[..i]), times[i]) {
      RoomLeft(entropy, times[..i], |times|);
      if AllOnes(MintAfter(entropy, times[..i]).last) { OnesValue(MintAfter(entropy, times[..i]).last); }
    }
  }

  /** Entropy of all ones, twice in one millisecond: the same identifier twice. */
  lemma WrapRepeats(entropy: nat -> seq<byte>)
    requires |entropy(0)| == 10 && AllOnes(entropy(0)) && entropy(1) == entropy(0)
    ensures Ids(entropy, [7, 7])[0] == Ids(entropy, [7, 7])[1]
  {
    var ones := entropy(0);
    assert ones[..10] == ones;
    assert [7, 7][..1] == [7] && [7][..0] == [];
    assert MintAfter(entropy, [7]) == Minted(entropy, UNSTARTED, 7) == Mint(true, 7, ones, 1);
    assert MintAfter(entropy, [7, 7]) == Minted(entropy, MintAfter(entropy, [7]), 7) == Mint(true, 7, ones, 2);
    assert Ids(entropy, [7, 7]) == Ids(entropy, [7]) + [IdOf(MintAfter(entropy, [7, 7]))];
    assert Ids(entropy, [7]) == [IdOf(MintAfter(entropy, [7]))];
  }

  class IDSource {
    const last: array<byte>
    var lastMS: int
    var started: bool
    /** What the k-th read of the entropy supplies: ten bytes, or fewer if it fails. */
    const entropy: nat -> seq<byte>
    var draws: nat

    constructor (entropy: nat -> seq<byte>)
      ensures Valid() && fresh(last) && this.entropy == entropy && Now() == UNSTARTED
    {
      last := new byte[10](_ => 0);
      lastMS, started, this.entropy, draws := 0, false, entropy, 0;
    }

    ghost predicate Valid() { last.Length == 10 }

    ghost function Now(): (m: Mint)
      reads this, last
    {
      Mint(started, lastMS, last[..], draws)
    }

    /** Refills the entropy; a reader that fails leaves what it wrote and steps it. */
    method Draw()
      requires Valid()
      modifies last, this`draws
      ensures last[..] == Drawn(old(last[..]), entropy(old(draws))) && draws == old(draws) + 1
    {
      var got := entropy(draws);
      draws := draws + 1;
      var n := if |got| < 10 then |got| else 10;
      Fill(got, n);
      if n < 10 {
        assert got[..n] == got;
        var _ := Increment(last);
      }
    }

    method Fill(got: seq<byte>, n: nat)
      requires Valid() && n <= |got| && n <= 10
      modifies last
      ensures last[..] == got[..n] + old(last[..])[n..]
    {
      for i := 0 to n
        invariant forall k {:trigger last[k]} :: 0 <= k < i ==> last[k] == got[k]
        invariant forall k {:trigger last[k]} :: i <= k < 10 ==> last[k] == old(last[k])
      {
        last[i] := got[i];
      }
    }

    /** The identifier for an instant, which is not honoured if it lies in the past. */
    method New(at: int) returns (id: string)
      requires Valid()
      modifies this`lastMS, this`started, this`draws, last
      ensures Now() == Minted(entropy, old(Now()), at) && id == IdOf(Now())
    {
      var ms := at;
      if started && ms <= lastMS {
        ms := lastMS;
        var ok := Increment(last);
        if !ok { Draw(); }
      } else {
        Draw();
      }
      lastMS, started := ms, true;
      id := EncodeCrockford(Raw(ms, last[..]));
    }
  }

  /** Any sequence of calls to a new source, with a clock that may repeat or run
      backwards. */
  method MintAll(entropy: nat -> seq<byte>, times: seq<int>) returns (ids: seq<string>)
    ensures ids == Ids(entropy, times)
  {
    var source := new IDSource(entropy);
    ids := [];
    assert times[..0] == [];
    for i := 0 to |times|
      invariant fresh(source) && fresh(source.last) && source.Valid() && source.entropy == entropy
      invariant source.Now() == MintAfter(entropy, times[..i])
      invariant ids == Ids(entropy, times[..i])
    {
      assert times[..i + 1][..i] == times[..i];
      var id := source.New(times[i]);
      ids := ids + [id];
    }
    assert times[..|times|] == times;
  }

  lemma IncreasingSnoc(ids: seq<string>, id: string)
    ensures Increasing(ids + [id]) <==> Increasing(ids) && (ids == [] || LexLt(ids[|ids| - 1], id))
  {
    var next := ids + [id];
    if Increasing(next) {
      forall i, j | 0 <= i < j < |ids| ensures LexLt(ids[i], ids[j]) { assert LexLt(next[i], next[j]); }
      if ids != [] { assert LexLt(next[|ids| - 1], next[|ids|]); }
    }
    if Increasing(ids) && (ids == [] || LexLt(ids[|ids| - 1], id)) {
      forall i, j | 0 <= i < j < |next| ensures LexLt(next[i], next[j]) {
        if j < |ids| {
          assert LexLt(ids[i], ids[j]);
        } else if i < |ids| - 1 {
          assert LexLt(ids[i], ids[|ids| - 1]);
          LexLtTransitive(ids[i], ids[|ids| - 1], id);
        }
      }
    }
  }
}
