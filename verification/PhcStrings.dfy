/**
 Password verifiers as PHC strings: printed one way, parsed strictly.
 Models `Params.Validate`, `encode`, `decode` and `parseUint` of
 internal/authn/password.go, with Go's lenient base64 decoder.
 */
module PhcStrings {
  import opened Wrappers

  datatype Params = Params(memory: int, iterations: int, parallelism: int, saltLength: int, keyLength: int)

  datatype Verifier = Verifier(params: Params, salt: seq<byte>, digest: seq<byte>)

  const MAX_MEMORY := 0x4_0000
  const MAX_ITERATIONS := 16
  const MAX_WORK := 0x8_0000
  const MAX_LENGTH := 1024
  const VERSION := 19
  const TWO32 := 0x1_0000_0000

  // ----- parameters -----

  predicate WellTyped(p: Params) {
    && 0 <= p.memory < TWO32 && 0 <= p.iterations < TWO32 && 0 <= p.parallelism < 256
    && 0 <= p.saltLength < TWO32 && 0 <= p.keyLength < TWO32
  }

  predicate Validate(p: Params) {
    if p.memory < 8 then false
    else if p.parallelism == 0 then false
    else if p.parallelism > p.memory / 8 then false
    else if p.iterations == 0 then false
    else if p.saltLength < 8 then false
    else if p.keyLength < 16 then false
    else if p.memory > MAX_MEMORY then false
    else if p.iterations > MAX_ITERATIONS then false
    else if p.memory * p.iterations > MAX_WORK then false
    else p.saltLength <= MAX_LENGTH && p.keyLength <= MAX_LENGTH
  }

  // ----- decimals -----

  predicate IsDigit(c: char) { '0' <= c <= '9' }

  ghost predicate AllDigits(s: string) { forall i {:trigger s[i]} :: 0 <= i < |s| ==> IsDigit(s[i]) }

  function DigitChar(d: int): (c: char)
    requires 0 <= d < 10
    ensures IsDigit(c) && c as int - '0' as int == d
  {
    ('0' as int + d) as char
  }

  /** The usual decimal rendering. */
  function Decimal(n: nat): (s: string)
    ensures s != "" && AllDigits(s)
    ensures s[0] == '0' ==> n == 0 && |s| == 1
  {
    if n < 10 then [DigitChar(n)] else Decimal(n / 10) + [DigitChar(n % 10)]
  }

  /** What the digits denote; None if there is a character that is not one. */
  function Number(s: string): (n: Option<int>) {
    if s == "" then Some(0)
    else if !IsDigit(s[|s| - 1]) || Number(s[..|s| - 1]).None? then None
    else Some(10 * Number(s[..|s| - 1]).value + (s[|s| - 1] as int - '0' as int))
  }

  /** Plain decimal digits without a leading zero, within `limit`. */
  function ParseUint(s: string, limit: int): (n: Option<int>) {
    if s == "" || (|s| > 1 && s[0] == '0') then None
    else if Number(s).None? || Number(s).value >= limit then None
    else Number(s)
  }

  lemma {:induction false} NumberOfDecimal(n: nat)
    ensures Number(Decimal(n)) == Some(n)
  {
    if n < 10 {
      assert Decimal(n)[..0] == "";
    } else {
      NumberOfDecimal(n / 10);
      var s := Decimal(n);
      assert s[..|s| - 1] == Decimal(n / 10);
    }
  }

  lemma ParseDecimal(n: nat, limit: int)
    requires n < limit
    ensures ParseUint(Decimal(n), limit) == Some(n)
  {
    NumberOfDecimal(n);
  }

  // ----- base64 -----

  /** The standard alphabet. */
  function Symbol(v: int): (c: char) {
    if 0 <= v < 26 then ('A' as int + v) as char
    else if 26 <= v < 52 then ('a' as int + v - 26) as char
    else if 52 <= v < 62 then ('0' as int + v - 52) as char
    else if v == 62 then '+' else '/'
  }

  function ValueOf(c: char): (v: Option<int>) {
    if 'A' <= c <= 'Z' then Some(c as int - 'A' as int)
    else if 'a' <= c <= 'z' then Some(c as int - 'a' as int + 26)
    else if '0' <= c <= '9' then Some(c as int - '0' as int + 52)
    else if c == '+' then Some(62)
    else if c == '/' then Some(63)
    else None
  }

  predicate PlainChar(c: char) { c != '$' && c != '\r' && c != '\n' }

  ghost predicate Plain(s: string) { forall i {:trigger s[i]} :: 0 <= i < |s| ==> PlainChar(s[i]) }

  /** An alphabet and its reading agree. */
  ghost predicate Matched(sym: int -> char, val: char -> Option<int>) {
    && (forall v {:trigger sym(v)} :: 0 <= v < 64 ==> val(sym(v)) == Some(v) && PlainChar(sym(v)))
    && (forall c {:trigger val(c)} :: val(c).Some? ==> 0 <= val(c).value < 64)
  }

  lemma StandardMatched()
    ensures Matched(Symbol, ValueOf)
  {
  }

  function First(x: byte): (q: int) ensures 0 <= q < 64 { x as int / 4 }
  function Second(x: byte, y: byte): (q: int) ensures 0 <= q < 64 { x as int % 4 * 16 + y as int / 16 }
  function Third(y: byte, z: byte): (q: int) ensures 0 <= q < 64 { y as int % 16 * 4 + z as int / 64 }
  function Fourth(z: byte): (q: int) ensures 0 <= q < 64 { z as int % 64 }

  /** Unpadded base64 over an alphabet: three bytes to four symbols. */
  function Pack(sym: int -> char, b: seq<byte>): (s: string) {
    if b == [] then ""
    else if |b| == 1 then [sym(First(b[0])), sym(Second(b[0], 0))]
    else if |b| == 2 then [sym(First(b[0])), sym(Second(b[0], b[1])), sym(Third(b[1], 0))]
    else [sym(First(b[0])), sym(Second(b[0], b[1])), sym(Third(b[1], b[2])), sym(Fourth(b[2]))] + Pack(sym, b[3..])
  }

  function Upper(v0: int, v1: int): (x: byte) requires 0 <= v0 < 64 && 0 <= v1 < 64 { (v0 * 4 + v1 / 16) as byte }
  function Middle(v1: int, v2: int): (y: byte) requires 0 <= v1 < 64 && 0 <= v2 < 64 { (v1 % 16 * 16 + v2 / 4) as byte }
  function Lower(v2: int, v3: int): (z: byte) requires 0 <= v2 < 64 && 0 <= v3 < 64 { (v2 % 4 * 64 + v3) as byte }

  lemma Regroup(x: byte, y: byte, z: byte)
    ensures
      && Upper(First(x), Second(x, y)) == x
      && Middle(Second(x, y), Third(y, z)) == y
      && Lower(Third(y, z), Fourth(z)) == z
  {
  }

  /** The value of a symbol, if it is one. */
  function Sextet(val: char -> Option<int>, c: char): (v: Option<int>)
    ensures v.Some? ==> 0 <= v.value < 64 && val(c) == v
  {
    if val(c).Some? && 0 <= val(c).value < 64 then val(c) else None
  }

  /** The lenient decoder past its line breaks: trailing bits are dropped unseen. */
  function Unpack(val: char -> Option<int>, s: string): (b: Option<seq<byte>>) {
    if s == "" then Some([])
    else if |s| == 1 then None
    else
      var v0, v1 := Sextet(val, s[0]), Sextet(val, s[1]);
      if v0.None? || v1.None? then None
      else if |s| == 2 then Some([Upper(v0.value, v1.value)])
      else
        var v2 := Sextet(val, s[2]);
        if v2.None? then None
        else if |s| == 3 then Some([Upper(v0.value, v1.value), Middle(v1.value, v2.value)])
        else
          var v3, rest := Sextet(val, s[3]), Unpack(val, s[4..]);
          if v3.None? || rest.None? then None
          else Some([Upper(v0.value, v1.value), Middle(v1.value, v2.value), Lower(v2.value, v3.value)] + rest.value)
  }

  lemma {:induction false} PackRoundTrip(sym: int -> char, val: char -> Option<int>, b: seq<byte>)
    requires Matched(sym, val)
    ensures Unpack(val, Pack(sym, b)) == Some(b) && Plain(Pack(sym, b))
  {
    if |b| >= 3 {
      PackRoundTrip(sym, val, b[3..]);
      FullGroup(sym, val, b[0], b[1], b[2], Pack(sym, b[3..]));
      assert b == [b[0], b[1], b[2]] + b[3..];
    } else if |b| == 2 {
      LastTwo(sym, val, b[0], b[1]);
      assert b == [b[0], b[1]];
    } else if |b| == 1 {
      LastOne(sym, val, b[0], 0);
      assert b == [b[0]];
    }
  }

  lemma LastTwo(sym: int -> char, val: char -> Option<int>, x: byte, y: byte)
    requires Matched(sym, val)
    ensures Unpack(val, [sym(First(x)), sym(Second(x, y)), sym(Third(y, 0))]) == Some([x, y])
    ensures Plain([sym(First(x)), sym(Second(x, y)), sym(Third(y, 0))])
  {
    Regroup(x, y, 0);
  }

  lemma LastOne(sym: int -> char, val: char -> Option<int>, x: byte, y: byte)
    requires Matched(sym, val)
    ensures Unpack(val, [sym(First(x)), sym(Second(x, y))]) == Some([x])
    ensures Plain([sym(First(x)), sym(Second(x, y))])
  {
    Regroup(x, y, 0);
  }

  lemma FullGroup(sym: int -> char, val: char -> Option<int>, x: byte, y: byte, z: byte, rest: string)
    requires Matched(sym, val) && Plain(rest) && Unpack(val, rest).Some?
    ensures var s := [sym(First(x)), sym(Second(x, y)), sym(Third(y, z)), sym(Fourth(z))] + rest;
            Plain(s) && Unpack(val, s) == Some([x, y, z] + Unpack(val, rest).value)
  {
    Regroup(x, y, z);
    var s := [sym(First(x)), sym(Second(x, y)), sym(Third(y, z)), sym(Fourth(z))] + rest;
    assert s[4..] == rest;
    forall i | 0 <= i < |s| ensures PlainChar(s[i]) { if i >= 4 { assert s[i] == rest[i - 4]; } }
  }

  function Base64(b: seq<byte>): (s: string) { Pack(Symbol, b) }

  /** Line breaks are skipped wherever they stand. */
  function Unbroken(s: string): (r: string) {
    if s == "" then ""
    else if s[0] == '\r' || s[0] == '\n' then Unbroken(s[1..])
    else [s[0]] + Unbroken(s[1..])
  }

  function DecodeString(s: string): (b: Option<seq<byte>>) { Unpack(ValueOf, Unbroken(s)) }

  lemma {:induction false} UnbrokenPlain(s: string)
    requires Plain(s)
    ensures Unbroken(s) == s
  {
    if s != "" {
      assert forall i {:trigger s[1..][i]} :: 0 <= i < |s| - 1 ==> s[1..][i] == s[i + 1];
      UnbrokenPlain(s[1..]);
    }
  }

  lemma DecodeEncoded(b: seq<byte>)
    ensures DecodeString(Base64(b)) == Some(b) && Plain(Base64(b))
  {
    StandardMatched();
    PackRoundTrip(Symbol, ValueOf, b);
    UnbrokenPlain(Base64(b));
  }

  // ----- fields -----

  ghost predicate Free(s: string, c: char) { forall i {:trigger s[i]} :: 0 <= i < |s| ==> s[i] != c }

  /** `strings.Split` on one character. */
  function Split(s: string, c: char): (r: seq<string>)
    ensures r != []
  {
    if s == "" then [""]
    else if s[0] == c then [""] + Split(s[1..], c)
    else
      var rest := Split(s[1..], c);
      [[s[0]] + rest[0]] + rest[1..]
  }

  lemma {:induction false} SplitFree(s: string, c: char)
    requires Free(s, c)
    ensures Split(s, c) == [s]
  {
    if s != "" {
      assert forall i {:trigger s[1..][i]} :: 0 <= i < |s| - 1 ==> s[1..][i] == s[i + 1];
      SplitFree(s[1..], c);
      assert [s[0]] + s[1..] == s;
    }
  }

  lemma {:induction false} SplitAt(a: string, c: char, rest: string)
    requires Free(a, c)
    ensures Split(a + [c] + rest, c) == [a] + Split(rest, c)
  {
    var s := a + [c] + rest;
    if a == "" {
      assert s[1..] == rest;
    } else {
      assert forall i {:trigger a[1..][i]} :: 0 <= i < |a| - 1 ==> a[1..][i] == a[i + 1];
      SplitAt(a[1..], c, rest);
      assert s[1..] == a[1..] + [c] + rest;
      assert [a[0]] + a[1..] == a;
    }
  }

  /** The rest of `s` after `prefix`, if it starts with it. */
  function After(s: string, prefix: string): (r: Option<string>) {
    if prefix <= s then Some(s[|prefix|..]) else None
  }

  lemma AfterPrefix(prefix: string, s: string)
    ensures After(prefix + s, prefix) == Some(s)
  {
    assert (prefix + s)[|prefix|..] == s;
  }

  // ----- printing and parsing -----

  function Costs(p: Params): (s: string)
    requires WellTyped(p)
  {
    ("m=" + Decimal(p.memory)) + "," + (("t=" + Decimal(p.iterations)) + "," + ("p=" + Decimal(p.parallelism)))
  }

  /** `$argon2id$v=19$m=..,t=..,p=..$salt$digest` */
  function Encode(p: Params, salt: seq<byte>, digest: seq<byte>): (s: string)
    requires WellTyped(p)
  {
    "" + "$" +
      ("argon2id" + "$" + (("v=" + Decimal(VERSION)) + "$" + (Costs(p) + "$" + (Base64(salt) + "$" + Base64(digest)))))
  }

  const PREFIXES: seq<string> := ["m=", "t=", "p="]

  function CostLimit(i: int): (n: int) { if i == 2 then 256 else TWO32 }

  /** One cost parameter. */
  function ParseCost(cost: string, i: int): (n: Option<int>)
    requires 0 <= i < 3
  {
    var rest := After(cost, PREFIXES[i]);
    if rest.None? then None else ParseUint(rest.value, CostLimit(i))
  }

  ghost function CostsOf(costs: seq<string>): (p: Option<Params>) {
    if |costs| != 3 then None
    else
      var m, t, p := ParseCost(costs[0], 0), ParseCost(costs[1], 1), ParseCost(costs[2], 2);
      if m.None? || t.None? || p.None? then None else Some(Params(m.value, t.value, p.value, 0, 0))
  }

  /** What is read before the round trip is checked. */
  ghost function Read(s: string): (v: Option<Verifier>) {
    var fields := Split(s, '$');
    if |fields| != 6 || fields[0] != "" || fields[1] != "argon2id" then None
    else
      var version := After(fields[2], "v=");
      if version.None? || ParseUint(version.value, TWO32) != Some(VERSION) then None
      else
        var costs, salt, digest := CostsOf(Split(fields[3], ',')), DecodeString(fields[4]), DecodeString(fields[5]);
        if costs.None? || salt.None? || digest.None? then None
        else if |salt.value| > MAX_LENGTH || |digest.value| > MAX_LENGTH then None
        else
          Some(Verifier(costs.value.(saltLength := |salt.value|, keyLength := |digest.value|), salt.value,
            digest.value))
  }

  ghost function Decoded(s: string): (v: Option<Verifier>) {
    var r := Read(s);
    if r.None? || !WellTyped(r.value.params) || !Validate(r.value.params) then None
    else if Encode(r.value.params, r.value.salt, r.value.digest) != s then None
    else r
  }

  lemma NumberNonNegative(s: string)
    ensures Number(s).Some? ==> Number(s).value >= 0
  {
  }

  lemma ParseUintRange(s: string, limit: int)
    ensures ParseUint(s, limit).Some? ==> 0 <= ParseUint(s, limit).value < limit
  {
    NumberNonNegative(s);
  }

  method ParseCosts(costs: seq<string>) returns (p: Option<Params>)
    ensures p == CostsOf(costs)
    ensures p.Some? ==> WellTyped(p.value)
  {
    if |costs| != 3 { return None; }
    var params := Params(0, 0, 0, 0, 0);
    for i := 0 to 3
      invariant WellTyped(params) && params.saltLength == 0 && params.keyLength == 0
      invariant forall k {:trigger costs[k]} :: 0 <= k < i ==> ParseCost(costs[k], k).Some?
      invariant i > 0 ==> params.memory == ParseCost(costs[0], 0).value
      invariant i > 1 ==> params.iterations == ParseCost(costs[1], 1).value
      invariant i > 2 ==> params.parallelism == ParseCost(costs[2], 2).value
    {
      var value := ParseCost(costs[i], i);
      if value.None? { return None; }
      CostRange(costs[i], i);
      if i == 0 { params := params.(memory := value.value); }
      else if i == 1 { params := params.(iterations := value.value); }
      else { params := params.(parallelism := value.value); }
    }
    p := Some(params);
  }

  lemma CostRange(cost: string, i: int)
    requires 0 <= i < 3
    ensures ParseCost(cost, i).Some? ==> 0 <= ParseCost(cost, i).value < CostLimit(i)
  {
    var rest := After(cost, PREFIXES[i]);
    if rest.Some? { ParseUintRange(rest.value, CostLimit(i)); }
  }

  /** Parses a PHC string strictly: what was read must print as what was given. */
  method Decode(encoded: string) returns (v: Option<Verifier>)
    ensures v == Decoded(encoded)
  {
    var fields := Split(encoded, '$');
    if |fields| != 6 || fields[0] != "" { return None; }
    if fields[1] != "argon2id" { return None; }
    var version := After(fields[2], "v=");
    if version.None? { return None; }
    var number := ParseUint(version.value, TWO32);
    if number.None? { return None; }
    if number.value != VERSION { return None; }
    var params := ParseCosts(Split(fields[3], ','));
    if params.None? { return None; }
    var salt := DecodeString(fields[4]);
    if salt.None? { return None; }
    var digest := DecodeString(fields[5]);
    if digest.None? { return None; }
    if |salt.value| > MAX_LENGTH || |digest.value| > MAX_LENGTH { return None; }
    var p := params.value.(saltLength := |salt.value|, keyLength := |digest.value|);
    if !Validate(p) { return None; }
    if Encode(p, salt.value, digest.value) != encoded { return None; }
    v := Some(Verifier(p, salt.value, digest.value));
  }

  // ----- one spelling per verifier -----

  ghost predicate Fits(v: Verifier) {
    WellTyped(v.params) && Validate(v.params) && v.params.saltLength == |v.salt| && v.params.keyLength == |v.digest|
  }

  lemma DecimalFree(prefix: string, n: nat, c: char)
    requires Free(prefix, c) && !IsDigit(c)
    ensures Free(prefix + Decimal(n), c)
  {
    var s := prefix + Decimal(n);
    forall i | 0 <= i < |s| ensures s[i] != c {
      if i >= |prefix| { assert IsDigit(Decimal(n)[i - |prefix|]); }
    }
  }

  lemma FreeConcat(a: string, b: string, c: char)
    requires Free(a, c) && Free(b, c)
    ensures Free(a + b, c)
  {
  }

  lemma CostsFields(p: Params)
    requires WellTyped(p)
    ensures Split(Costs(p), ',') ==
          ["m=" + Decimal(p.memory), "t=" + Decimal(p.iterations), "p=" + Decimal(p.parallelism)]
    ensures Free(Costs(p), '$')
  {
    var m, t, l := "m=" + Decimal(p.memory), "t=" + Decimal(p.iterations), "p=" + Decimal(p.parallelism);
    DecimalFree("m=", p.memory, ',');
    DecimalFree("t=", p.iterations, ',');
    DecimalFree("p=", p.parallelism, ',');
    SplitAt(m, ',', t + "," + l);
    SplitAt(t, ',', l);
    SplitFree(l, ',');
    CostsFree(p);
  }

  lemma CostsFree(p: Params)
    requires WellTyped(p)
    ensures Free(Costs(p), '$')
  {
    var m, t, l := "m=" + Decimal(p.memory), "t=" + Decimal(p.iterations), "p=" + Decimal(p.parallelism);
    DecimalFree("m=", p.memory, '$');
    DecimalFree("t=", p.iterations, '$');
    DecimalFree("p=", p.parallelism, '$');
    FreeConcat(t, ",", '$');
    FreeConcat(t + ",", l, '$');
    FreeConcat(m, ",", '$');
    FreeConcat(m + ",", t + "," + l, '$');
  }

  lemma CostsRead(p: Params)
    requires WellTyped(p)
    ensures CostsOf(Split(Costs(p), ',')) == Some(Params(p.memory, p.iterations, p.parallelism, 0, 0))
  {
    CostsFields(p);
    CostRead(p.memory, 0);
    CostRead(p.iterations, 1);
    CostRead(p.parallelism, 2);
  }

  lemma CostRead(n: nat, i: int)
    requires 0 <= i < 3 && n < CostLimit(i)
    ensures ParseCost(PREFIXES[i] + Decimal(n), i) == Some(n)
  {
    AfterPrefix(PREFIXES[i], Decimal(n));
    ParseDecimal(n, CostLimit(i));
  }

  lemma SplitFour(v: string, c: string, s: string, d: string)
    requires Free(v, '$') && Free(c, '$') && Free(s, '$') && Free(d, '$')
    ensures Split(v + "$" + (c + "$" + (s + "$" + d)), '$') == [v, c, s, d]
  {
    SplitFree(d, '$');
    SplitAt(s, '$', d);
    SplitAt(c, '$', s + "$" + d);
    SplitAt(v, '$', c + "$" + (s + "$" + d));
  }

  lemma Fields(p: Params, salt: seq<byte>, digest: seq<byte>)
    requires WellTyped(p)
    ensures Split(Encode(p, salt, digest), '$') ==
          ["", "argon2id", "v=" + Decimal(VERSION), Costs(p), Base64(salt), Base64(digest)]
  {
    DecodeEncoded(salt);
    DecodeEncoded(digest);
    CostsFields(p);
    DecimalFree("v=", VERSION, '$');
    var s, d, c, v := Base64(salt), Base64(digest), Costs(p), "v=" + Decimal(VERSION);
    SplitFour(v, c, s, d);
    SplitAt("argon2id", '$', v + "$" + (c + "$" + (s + "$" + d)));
    SplitAt("", '$', "argon2id" + "$" + (v + "$" + (c + "$" + (s + "$" + d))));
  }

  /** The last four fields read as a verifier's parts. */
  ghost predicate ReadsAs(f: seq<string>, v: Verifier)
    requires |f| == 6
  {
    && After(f[2], "v=").Some? && ParseUint(After(f[2], "v=").value, TWO32) == Some(VERSION)
    && CostsOf(Split(f[3], ',')) == Some(Params(v.params.memory, v.params.iterations, v.params.parallelism, 0, 0))
    && DecodeString(f[4]) == Some(v.salt) && DecodeString(f[5]) == Some(v.digest)
  }

  lemma VersionReads(field: string)
    requires field == "v=" + Decimal(VERSION)
    ensures After(field, "v=").Some? && ParseUint(After(field, "v=").value, TWO32) == Some(VERSION)
  {
    AfterPrefix("v=", Decimal(VERSION));
    ParseDecimal(VERSION, TWO32);
  }

  lemma PrintedReads(f: seq<string>, v: Verifier)
    requires Fits(v) && |f| == 6
    requires
      && f[2] == "v=" + Decimal(VERSION)
      && f[3] == Costs(v.params)
      && f[4] == Base64(v.salt)
      && f[5] == Base64(v.digest)
    ensures ReadsAs(f, v)
  {
    VersionReads(f[2]);
    CostsRead(v.params);
    DecodeEncoded(v.salt);
    DecodeEncoded(v.digest);
  }

  lemma ReadFrom(s: string, f: seq<string>, v: Verifier)
    requires Fits(v) && Split(s, '$') == f && |f| == 6 && f[0] == "" && f[1] == "argon2id" && ReadsAs(f, v)
    ensures Read(s) == Some(v)
  {
  }

  lemma ReadBack(s: string, f: seq<string>, v: Verifier)
    requires
      && Fits(v)
      && Split(s, '$') == f
      && f == ["", "argon2id", "v=" + Decimal(VERSION), Costs(v.params), Base64(v.salt), Base64(v.digest)]
    ensures Read(s) == Some(v)
  {
    PrintedReads(f, v);
    ReadFrom(s, f, v);
  }

  /** Whatever is printed parses back to itself. */
  lemma RoundTrip(v: Verifier)
    requires Fits(v)
    ensures Decoded(Encode(v.params, v.salt, v.digest)) == Some(v)
  {
    Fields(v.params, v.salt, v.digest);
    ReadBack(Encode(v.params, v.salt, v.digest), Split(Encode(v.params, v.salt, v.digest), '$'), v);
  }

  /** A string parses exactly when it is some verifier's printing, and then to that verifier. */
  lemma DecodesIff(s: string, v: Verifier)
    ensures Decoded(s) == Some(v) <==> Fits(v) && s == Encode(v.params, v.salt, v.digest)
  {
    if Fits(v) && s == Encode(v.params, v.salt, v.digest) { RoundTrip(v); }
  }

  /** Two verifiers never print alike. */
  lemma EncodeInjective(v: Verifier, w: Verifier)
    requires Fits(v) && Fits(w) && Encode(v.params, v.salt, v.digest) == Encode(w.params, w.salt, w.digest)
    ensures v == w
  {
    RoundTrip(v);
    RoundTrip(w);
  }
}
