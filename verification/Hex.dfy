/** The hexadecimal text of bytes: lower case when written, either case when
    read (the hex crate, as operation_log_page.rs uses it). */
module Hex {
  import opened Int64
  import opened Wrappers

  function Digit(n: nat): char
    requires n < 16
  {
    (if n < 10 then '0' as nat + n else 'a' as nat + n - 10) as char
  }

  function Value(c: char): (v: Option<nat>)
    ensures v.Some? ==> v.value < 16
  {
    if '0' <= c <= '9' then Some(c as nat - '0' as nat)
    else if 'a' <= c <= 'f' then Some(c as nat - 'a' as nat + 10)
    else if 'A' <= c <= 'F' then Some(c as nat - 'A' as nat + 10)
    else None
  }

  function LowerDigit(c: char): char {
    if 'A' <= c <= 'F' then (c as nat - 'A' as nat + 'a' as nat) as char else c
  }

  lemma DigitHasValue(n: nat)
    requires n < 16
    ensures Value(Digit(n)) == Some(n)
  {
  }

  lemma ValueHasDigit(c: char)
    requires Value(c).Some?
    ensures Digit(Value(c).value) == LowerDigit(c)
  {
  }

  /** hex::encode */
  function Encode(bytes: seq<Byte>): (text: string)
    ensures |text| == 2 * |bytes|
  {
    if bytes == [] then []
    else [Digit(bytes[0] / 16), Digit(bytes[0] % 16)] + Encode(bytes[1..])
  }

  /** hex::decode */
  function Decode(text: string): Option<seq<Byte>> {
    if text == [] then Some([])
    else if |text| == 1 then None
    else
      var high, low, rest := Value(text[0]), Value(text[1]), Decode(text[2..]);
      if high.None? || low.None? || rest.None? then None
      else Some([16 * high.value + low.value] + rest.value)
  }

  lemma {:induction false} RoundTrip(bytes: seq<Byte>)
    ensures Decode(Encode(bytes)) == Some(bytes)
  {
    if bytes != [] {
      RoundTrip(bytes[1..]);
      DigitHasValue(bytes[0] / 16);
      DigitHasValue(bytes[0] % 16);
      assert Encode(bytes)[2..] == Encode(bytes[1..]);
      assert [bytes[0]] + bytes[1..] == bytes;
    }
  }

  predicate AllDigits(text: string) {
    forall c :: c in text ==> Value(c).Some?
  }

  function Lower(text: string): string {
    if text == [] then [] else [LowerDigit(text[0])] + Lower(text[1..])
  }

  /** Exactly the texts of an even number of hexadecimal digits are read. */
  lemma {:induction false} DecodeIsExact(text: string)
    ensures Decode(text).Some? <==> |text| % 2 == 0 && AllDigits(text)
  {
    if |text| >= 2 {
      DecodeIsExact(text[2..]);
      assert text == [text[0], text[1]] + text[2..];
    } else if |text| == 1 {
      assert Decode(text).None?;
    }
  }

  lemma EncodeStep(high: nat, low: nat, rest: seq<Byte>)
    requires high < 16 && low < 16
    ensures Encode([16 * high + low] + rest) == [Digit(high), Digit(low)] + Encode(rest)
  {
    var bytes: seq<Byte> := [16 * high + low] + rest;
    assert bytes[1..] == rest && bytes[0] / 16 == high && bytes[0] % 16 == low;
  }

  lemma LowerStep(text: string)
    requires |text| >= 2
    ensures Lower(text) == [LowerDigit(text[0]), LowerDigit(text[1])] + Lower(text[2..])
  {
    assert text[1..][1..] == text[2..];
  }

  /** What is read is written back in lower case. */
  lemma {:induction false} DecodeThenEncode(text: string)
    requires Decode(text).Some?
    ensures Encode(Decode(text).value) == Lower(text)
  {
    if text != [] {
      DecodeThenEncode(text[2..]);
      ValueHasDigit(text[0]);
      ValueHasDigit(text[1]);
      var high, low, rest := Value(text[0]).value, Value(text[1]).value, Decode(text[2..]).value;
      assert Decode(text) == Some([16 * high + low] + rest);
      EncodeStep(high, low, rest);
      LowerStep(text);
    }
  }

  /** Two texts stand for the same bytes exactly if they differ in case only. */
  lemma SameBytes(a: string, b: string)
    requires Decode(a).Some? && Decode(b).Some?
    ensures Decode(a) == Decode(b) <==> Lower(a) == Lower(b)
  {
    DecodeThenEncode(a);
    DecodeThenEncode(b);
    RoundTrip(Decode(a).value);
    RoundTrip(Decode(b).value);
  }
}
