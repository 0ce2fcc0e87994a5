/** The length-prefixed encoding that is hashed for request identity (auth.rs,
    and its use in service.rs). Only the bytes fed to the hash are modelled. */
module RequestHash {
  import opened Int64
  import opened Wrappers

  const COLON: Byte := 58
  const BAR: Byte := 124
  const ZERO: Byte := 48

  predicate IsDigit(b: Byte) {
    ZERO <= b <= 57
  }

  /** n.to_string() in ASCII. */
  function Decimal(n: nat): (digits: seq<Byte>)
    ensures digits != [] && forall i :: 0 <= i < |digits| ==> IsDigit(digits[i])
  {
    if n < 10 then [ZERO + n] else Decimal(n / 10) + [ZERO + n % 10]
  }

  function ParseDecimal(digits: seq<Byte>): nat
    requires forall i :: 0 <= i < |digits| ==> IsDigit(digits[i])
  {
    if digits == [] then 0
    else
      assert IsDigit(digits[|digits| - 1]);
      ParseDecimal(digits[..|digits| - 1]) * 10 + (digits[|digits| - 1] - ZERO)
  }

  lemma {:induction false} DecimalRoundTrip(n: nat)
    ensures ParseDecimal(Decimal(n)) == n
  {
    var digits := Decimal(n);
    if n < 10 {
      assert digits[..0] == [];
    } else {
      DecimalRoundTrip(n / 10);
      assert digits[..|digits| - 1] == Decimal(n / 10);
    }
  }

  function EncodePart(part: seq<Byte>): seq<Byte> {
    Decimal(|part|) + [COLON] + part + [BAR]
  }

  function Encode(parts: seq<seq<Byte>>): seq<Byte> {
    if parts == [] then [] else EncodePart(parts[0]) + Encode(parts[1..])
  }

  /** Everything fed to the hasher, update by update. */
  method RequestHashParts(parts: seq<seq<Byte>>) returns (fed: seq<Byte>)
    ensures fed == Encode(parts)
  {
    fed := [];
    for i := 0 to |parts|
      invariant fed + Encode(parts[i..]) == Encode(parts)
    {
      ghost var before := fed;
      fed := fed + Decimal(|parts[i]|);
      fed := fed + [COLON];
      fed := fed + parts[i];
      fed := fed + [BAR];
      assert parts[i..][1..] == parts[i + 1..];
      assert fed == before + EncodePart(parts[i]);
      assert fed + Encode(parts[i + 1..]) == before + (EncodePart(parts[i]) + Encode(parts[i + 1..]));
    }
    assert parts[|parts|..] == [];
  }

  // ---- Decoding, the reference inverse ----

  /** The digits before the first byte that is none. */
  function LeadingDigits(s: seq<Byte>): (digits: seq<Byte>)
    ensures digits <= s && forall i :: 0 <= i < |digits| ==> IsDigit(digits[i])
  {
    if s == [] || !IsDigit(s[0]) then [] else [s[0]] + LeadingDigits(s[1..])
  }

  /** One part and what follows it. */
  function DecodePart(s: seq<Byte>): (r: Option<(seq<Byte>, seq<Byte>)>)
    ensures r.Some? ==> |r.value.1| < |s|
  {
    var digits := LeadingDigits(s);
    var rest := s[|digits|..];
    if digits == [] || rest == [] || rest[0] != COLON then None
    else
      var n := ParseDecimal(digits);
      if n + 2 > |rest| || rest[n + 1] != BAR then None
      else Some((rest[1..n + 1], rest[n + 2..]))
  }

  function Decode(s: seq<Byte>): Option<seq<seq<Byte>>>
    decreases |s|
  {
    if s == [] then Some([])
    else
      var first := DecodePart(s);
      if first.None? then None
      else
        var others := Decode(first.value.1);
        if others.None? then None else Some([first.value.0] + others.value)
  }

  lemma {:induction false} DigitsStopAtColon(digits: seq<Byte>, rest: seq<Byte>)
    requires forall i :: 0 <= i < |digits| ==> IsDigit(digits[i])
    requires rest != [] && !IsDigit(rest[0])
    ensures LeadingDigits(digits + rest) == digits
  {
    if digits == [] {
      assert digits + rest == rest;
    } else {
      assert (digits + rest)[1..] == digits[1..] + rest;
      DigitsStopAtColon(digits[1..], rest);
    }
  }

  lemma PartRoundTrip(part: seq<Byte>, rest: seq<Byte>)
    ensures DecodePart(EncodePart(part) + rest) == Some((part, rest))
  {
    var s := EncodePart(part) + rest;
    var digits, tail := Decimal(|part|), [COLON] + part + [BAR] + rest;
    assert s == digits + tail;
    DigitsStopAtColon(digits, tail);
    DecimalRoundTrip(|part|);
    assert s[|digits|..] == tail;
    assert tail[1..|part| + 1] == part;
    assert tail[|part| + 2..] == rest;
  }

  /** Decoding gives back exactly the parts that were encoded. */
  lemma {:induction false} EncodeRoundTrip(parts: seq<seq<Byte>>)
    ensures Decode(Encode(parts)) == Some(parts)
  {
    if parts != [] {
      PartRoundTrip(parts[0], Encode(parts[1..]));
      EncodeRoundTrip(parts[1..]);
      assert [parts[0]] + parts[1..] == parts;
    }
  }

  /** Different part lists, of any lengths and contents, never share a
      pre-image. */
  lemma EncodeIsInjective(a: seq<seq<Byte>>, b: seq<seq<Byte>>)
    requires Encode(a) == Encode(b)
    ensures a == b
  {
    EncodeRoundTrip(a);
    EncodeRoundTrip(b);
  }

  /** No encoding is a proper prefix of another's: appending parts is the only
      way to extend one. */
  lemma {:induction false} EncodeIsPrefixFree(a: seq<seq<Byte>>, b: seq<seq<Byte>>)
    requires Encode(a) <= Encode(b)
    ensures a <= b
  {
    if a != [] {
      var tail := Encode(b)[|Encode(a)|..];
      assert Encode(b) == EncodePart(a[0]) + (Encode(a[1..]) + tail);
      PartRoundTrip(a[0], Encode(a[1..]) + tail);
      assert |EncodePart(a[0])| > 0;
      PartRoundTrip(b[0], Encode(b[1..]));
      assert Encode(a[1..]) <= Encode(b[1..]);
      EncodeIsPrefixFree(a[1..], b[1..]);
      assert a == [a[0]] + a[1..] && b == [b[0]] + b[1..];
    }
  }

  /** The inputs of a stored idempotent request, in the order they are hashed. */
  datatype Request = Request(
    kind: seq<Byte>, key: seq<Byte>, idempotency: seq<Byte>, body: seq<Byte>, precondition: seq<Byte>)

  function IdempotencyPreimage(r: Request): seq<Byte> {
    Encode([r.kind, r.key, r.idempotency, r.body, r.precondition])
  }

  lemma IdempotencyIsExact(a: Request, b: Request)
    ensures IdempotencyPreimage(a) == IdempotencyPreimage(b) <==> a == b
  {
    if IdempotencyPreimage(a) == IdempotencyPreimage(b) {
      var pa := [a.kind, a.key, a.idempotency, a.body, a.precondition];
      var pb := [b.kind, b.key, b.idempotency, b.body, b.precondition];
      EncodeIsInjective(pa, pb);
      assert forall i :: 0 <= i < 5 ==> pa[i] == pb[i];
      assert pa[0] == pb[0] && pa[1] == pb[1] && pa[2] == pb[2] && pa[3] == pb[3] && pa[4] == pb[4];
    }
  }
}
