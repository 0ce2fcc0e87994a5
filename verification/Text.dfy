/** The string operations the lock scanner is written with. */
module Text {
  import opened Wrappers

  predicate Space(c: char) {
    c == ' ' || c == '\t' || c == '\r' || c == '\n'
  }

  predicate Blank(s: string) {
    forall i :: 0 <= i < |s| ==> Space(s[i])
  }

  function TrimStart(s: string): string {
    if s != [] && Space(s[0]) then TrimStart(s[1..]) else s
  }

  function TrimEnd(s: string): string {
    if s != [] && Space(s[|s| - 1]) then TrimEnd(s[..|s| - 1]) else s
  }

  function Trim(s: string): string {
    TrimEnd(TrimStart(s))
  }

  function TrimEndCommas(s: string): string {
    if s != [] && s[|s| - 1] == ',' then TrimEndCommas(s[..|s| - 1]) else s
  }

  predicate StartsWith(s: string, p: string) {
    p <= s
  }

  function StripPrefix(s: string, p: string): Option<string> {
    if p <= s then Some(s[|p|..]) else None
  }

  function StripSuffix(s: string, p: string): Option<string> {
    if |p| <= |s| && s[|s| - |p|..] == p then Some(s[..|s| - |p|]) else None
  }

  /** The text before and after the first c. */
  function SplitOnce(s: string, c: char): Option<(string, string)> {
    if s == [] then None
    else if s[0] == c then Some(([], s[1..]))
    else
      var rest := SplitOnce(s[1..], c);
      if rest.None? then None else Some(([s[0]] + rest.value.0, rest.value.1))
  }

  /** All pieces between the c's. */
  function Split(s: string, c: char): (pieces: seq<string>)
    ensures pieces != []
  {
    if s == [] then [[]]
    else
      var rest := Split(s[1..], c);
      if s[0] == c then [[]] + rest else [[s[0]] + rest[0]] + rest[1..]
  }

  function Count(s: string, c: char): nat {
    if s == [] then 0 else Count(s[1..], c) + if s[0] == c then 1 else 0
  }

  /** The content of a quoted string. */
  function Quoted(s: string): Option<string> {
    var open := StripPrefix(s, "\"");
    if open.None? then None else StripSuffix(open.value, "\"")
  }

  function Quote(s: string): string {
    "\"" + s + "\""
  }

  // ---- Laws ----

  /** Starts and ends with something other than white space. */
  predicate Tight(s: string) {
    s != [] && !Space(s[0]) && !Space(s[|s| - 1])
  }

  lemma {:induction false} TrimIndented(before: string, core: string)
    requires Blank(before) && Tight(core)
    ensures Trim(before + core) == core
  {
    if before == [] {
      assert before + core == core;
    } else {
      assert (before + core)[1..] == before[1..] + core;
      TrimIndented(before[1..], core);
    }
  }

  lemma QuotedQuote(s: string)
    ensures Quoted(Quote(s)) == Some(s) && Tight(Quote(s))
  {
    assert Quote(s)[1..] == s + "\"";
    assert (s + "\"")[..|s|] == s && (s + "\"")[|s|..] == "\"";
  }

  lemma StripPrefixOf(p: string, rest: string)
    ensures StripPrefix(p + rest, p) == Some(rest)
  {
    assert (p + rest)[|p|..] == rest;
  }

  lemma {:induction false} SplitOnceAt(before: string, c: char, after: string)
    requires c !in before
    ensures SplitOnce(before + [c] + after, c) == Some((before, after))
  {
    var s := before + [c] + after;
    if before == [] {
      assert s == [c] + after;
    } else {
      assert s[1..] == before[1..] + [c] + after;
      SplitOnceAt(before[1..], c, after);
      assert [before[0]] + before[1..] == before;
    }
  }

  lemma {:induction false} SplitOnceNone(s: string, c: char)
    requires c !in s
    ensures SplitOnce(s, c) == None && Split(s, c) == [s]
  {
    if s != [] {
      SplitOnceNone(s[1..], c);
      assert [s[0]] + s[1..] == s;
    }
  }

  lemma {:induction false} SplitAt(before: string, c: char, after: string)
    requires c !in before
    ensures Split(before + [c] + after, c) == [before] + Split(after, c)
  {
    var s := before + [c] + after;
    if before == [] {
      assert s[1..] == after;
    } else {
      assert s[1..] == before[1..] + [c] + after;
      SplitAt(before[1..], c, after);
      assert [before[0]] + before[1..] == before;
    }
  }
}
