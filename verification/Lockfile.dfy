/** The strict scanner of Terraform dependency locks (lockfile.rs), over the
    lines of the file. The digest of a provider's pins is represented by the
    sorted pins that are fed to it. */
module Lockfile {
  import opened Wrappers
  import opened Ordering
  import opened Text

  datatype LockedProvider = LockedProvider(source: string, version: string, pins: seq<string>)

  // ---- Pins ----

  predicate Base64Char(c: char) {
    'A' <= c <= 'Z' || 'a' <= c <= 'z' || '0' <= c <= '9' || c == '+' || c == '/'
  }

  predicate LowerHexChar(c: char) {
    '0' <= c <= '9' || 'a' <= c <= 'f'
  }

  /** 43 characters of standard base64 and one pad. */
  predicate H1Value(v: string) {
    |v| == 44 && v[43] == '=' && forall i :: 0 <= i < 43 ==> Base64Char(v[i])
  }

  predicate ZhValue(v: string) {
    |v| == 64 && forall i :: 0 <= i < 64 ==> LowerHexChar(v[i])
  }

  function ChecksumValue(raw: string): Result<string> {
    var parts := SplitOnce(raw, ':');
    if parts.None? then Refused
    else if (parts.value.0 == "h1" && H1Value(parts.value.1)) || (parts.value.0 == "zh" && ZhValue(parts.value.1))
    then Success(raw)
    else Refused
  }

  /** What a pin looks like, said without scanning. */
  ghost predicate CanonicalPin(pin: string) {
    (exists v :: pin == "h1:" + v && H1Value(v)) || (exists v :: pin == "zh:" + v && ZhValue(v))
  }

  lemma {:induction false} SplitOnceParts(s: string, c: char)
    requires SplitOnce(s, c).Some?
    ensures s == SplitOnce(s, c).value.0 + [c] + SplitOnce(s, c).value.1
  {
    if s[0] != c {
      SplitOnceParts(s[1..], c);
    }
  }

  /** Exactly the canonical pins are accepted, unchanged. */
  lemma ChecksumIsExact(raw: string)
    ensures ChecksumValue(raw) == if CanonicalPin(raw) then Success(raw) else Refused
  {
    if ChecksumValue(raw).Success? {
      SplitOnceParts(raw, ':');
      var value := SplitOnce(raw, ':').value.1;
      assert raw == "h1:" + value || raw == "zh:" + value;
    }
    if v :| raw == "h1:" + v && H1Value(v) {
      SplitOnceAt("h1", ':', v);
      assert raw == "h1" + [':'] + v;
    }
    if v :| raw == "zh:" + v && ZhValue(v) {
      SplitOnceAt("zh", ':', v);
      assert raw == "zh" + [':'] + v;
    }
  }

  /** A pin contains nothing the list syntax is made of. */
  lemma PinIsPlain(pin: string)
    requires CanonicalPin(pin)
    ensures pin != [] && ',' !in pin && '"' !in pin && ']' !in pin && '\n' !in pin
  {
    if v :| pin == "h1:" + v && H1Value(v) {
      forall i | 0 <= i < |pin| ensures pin[i] != ',' && pin[i] != '"' && pin[i] != ']' && pin[i] != '\n' {
        assert i >= 3 ==> pin[i] == v[i - 3];
      }
    } else {
      var v :| pin == "zh:" + v && ZhValue(v);
      forall i | 0 <= i < |pin| ensures pin[i] != ',' && pin[i] != '"' && pin[i] != ']' && pin[i] != '\n' {
        assert i >= 3 ==> pin[i] == v[i - 3];
      }
    }
  }

  predicate CanonicalPins(pins: seq<string>) {
    forall i :: 0 <= i < |pins| ==> ChecksumValue(pins[i]).Success?
  }

  // ---- One provider block ----

  /** The mutable part of the block scanner. */
  datatype Block = Block(version: Option<string>, pins: seq<string>, inHashes: bool)

  datatype LineResult = Go(block: Block) | Closed | Malformed

  function Entry(text: string): Result<string> {
    var quoted := Quoted(text);
    if quoted.None? then Refused else ChecksumValue(quoted.value)
  }

  function HclString(rest: string): Option<string> {
    var trimmed := Trim(rest);
    var value := StripPrefix(trimmed, "=");
    Quoted(Trim(if value.Some? then Trim(value.value) else trimmed))
  }

  /** The pins of a one-line list; blank pieces are skipped. */
  function InlineEntries(pieces: seq<string>): Result<seq<string>> {
    if pieces == [] then Success([])
    else
      var rest, piece := InlineEntries(pieces[1..]), Trim(pieces[0]);
      if piece == "" then rest
      else if Entry(piece).Refused? || rest.Refused? then Refused
      else Success([Entry(piece).value] + rest.value)
  }

  function BlockLine(b: Block, line: string): LineResult {
    if b.inHashes then ListLine(b, Trim(line)) else PlainLine(b, Trim(line))
  }

  /** A line inside a pin list that spans lines. */
  function ListLine(b: Block, inner: string): LineResult {
    if StartsWith(inner, "]") then Go(b.(inHashes := false))
    else
      var pin := Entry(Trim(TrimEndCommas(inner)));
      if pin.Refused? then Malformed else Go(b.(pins := b.pins + [pin.value]))
  }

  function PlainLine(b: Block, inner: string): LineResult {
    if StartsWith(inner, "}") then Closed
    else if StartsWith(inner, "version") then VersionAssigned(b, inner[|"version"|..])
    else if StartsWith(inner, "hashes") then HashesAssigned(b, inner)
    else Go(b)
  }

  function VersionAssigned(b: Block, rest: string): LineResult {
    var version := HclString(rest);
    if version.None? then Malformed else Go(b.(version := version))
  }

  function HashesAssigned(b: Block, inner: string): LineResult {
    var list := SplitOnce(inner, '[');
    if list.None? then Malformed else HashesOpened(b, list.value.1)
  }

  function HashesOpened(b: Block, list: string): LineResult {
    var inline := SplitOnce(list, ']');
    if inline.None? then Go(b.(inHashes := true))
    else
      var pins := InlineEntries(Split(inline.value.0, ','));
      if pins.Refused? then Malformed else Go(b.(pins := b.pins + pins.value))
  }

  /** The block's final state and the lines after it, or a refusal. */
  function BlockFrom(b: Block, lines: seq<string>): (r: Result<(Block, seq<string>)>)
    ensures r.Success? ==> |r.value.1| < |lines|
    decreases |lines|
  {
    if lines == [] then Refused
    else
      match BlockLine(b, lines[0])
      case Malformed => Refused
      case Closed => Success((b, lines[1..]))
      case Go(next) => BlockFrom(next, lines[1..])
  }

  function Locked(source: string, b: Block): Result<LockedProvider> {
    if b.version.None? || b.pins == [] then Refused
    else Success(LockedProvider(source, b.version.value, Sort(b.pins)))
  }

  // ---- The whole file ----

  /** The lines after a settings block with this many braces open. */
  function SkipBraces(depth: int, lines: seq<string>): (r: Result<seq<string>>)
    ensures r.Success? ==> |r.value| <= |lines|
    decreases |lines|
  {
    if depth <= 0 then Success(lines)
    else if lines == [] then Refused
    else SkipBraces(depth + Count(Trim(lines[0]), '{') - Count(Trim(lines[0]), '}'), lines[1..])
  }

  predicate Ignorable(trimmed: string) {
    trimmed == "" || StartsWith(trimmed, "#") || StartsWith(trimmed, "//")
  }

  predicate OpensSettings(trimmed: string) {
    StartsWith(trimmed, "terraform") && StartsWith(TrimStart(trimmed[|"terraform"|..]), "{")
  }

  /** The address of a provider block header. */
  function ProviderHeader(trimmed: string): Option<string> {
    var rest := StripPrefix(trimmed, "provider");
    var open := if rest.None? then None else StripPrefix(Trim(rest.value), "\"");
    var parts := if open.None? then None else SplitOnce(open.value, '"');
    if parts.Some? && Trim(parts.value.1) == "{" then Some(parts.value.0) else None
  }

  /** One top-level item: the providers it declares, none or one, and the
      lines after it. */
  function ParseItem(trimmed: string, rest: seq<string>): (r: Result<(seq<LockedProvider>, seq<string>)>)
    ensures r.Success? ==> |r.value.1| <= |rest|
  {
    if Ignorable(trimmed) then Success(([], rest))
    else if OpensSettings(trimmed) then
      var after := SkipBraces(Count(trimmed, '{') - Count(trimmed, '}'), rest);
      if after.Refused? then Refused else Success(([], after.value))
    else
      var source := ProviderHeader(trimmed);
      if source.None? then Refused else ParseProvider(source.value, rest)
  }

  function ParseProvider(source: string, rest: seq<string>): (r: Result<(seq<LockedProvider>, seq<string>)>)
    ensures r.Success? ==> |r.value.1| <= |rest|
  {
    var scanned := BlockFrom(Block(None, [], false), rest);
    if scanned.Refused? || Locked(source, scanned.value.0).Refused? then Refused
    else Success(([Locked(source, scanned.value.0).value], scanned.value.1))
  }

  /** What is still to come extends what has been collected. */
  function Extended(providers: seq<LockedProvider>, rest: Result<seq<LockedProvider>>): Result<seq<LockedProvider>> {
    if rest.Refused? then Refused else Success(providers + rest.value)
  }

  function Parse(lines: seq<string>): Result<seq<LockedProvider>>
    decreases |lines|
  {
    if lines == [] then Success([])
    else
      var item := ParseItem(Trim(lines[0]), lines[1..]);
      if item.Refused? then Refused else Extended(item.value.0, Parse(item.value.1))
  }

  // ---- The scanner ----

  method ScanBlock(lines: seq<string>, start: nat) returns (r: Result<Block>, next: nat)
    requires start <= |lines|
    ensures start <= next <= |lines|
    ensures r.Success? <==> BlockFrom(Block(None, [], false), lines[start..]).Success?
    ensures r.Success? ==> BlockFrom(Block(None, [], false), lines[start..]) == Success((r.value, lines[next..])) && start < next
  {
    var b := Block(None, [], false);
    next := start;
    while next < |lines|
      invariant start <= next <= |lines|
      invariant BlockFrom(b, lines[next..]) == BlockFrom(Block(None, [], false), lines[start..])
    {
      assert lines[next..][1..] == lines[next + 1..];
      var step := BlockLine(b, lines[next]);
      next := next + 1;
      match step
      case Malformed => return Refused, next;
      case Closed => return Success(b), next;
      case Go(more) => b := more;
    }
    return Refused, next;
  }

  method SkipSettings(lines: seq<string>, start: nat, braces: int) returns (r: Result<nat>)
    requires start <= |lines|
    ensures r.Success? <==> SkipBraces(braces, lines[start..]).Success?
    ensures r.Success? ==> start <= r.value <= |lines| && SkipBraces(braces, lines[start..]) == Success(lines[r.value..])
  {
    var depth, next := braces, start;
    while depth > 0
      invariant start <= next <= |lines|
      invariant SkipBraces(depth, lines[next..]) == SkipBraces(braces, lines[start..])
      decreases |lines| - next
    {
      if next == |lines| {
        return Refused;
      }
      assert lines[next..][1..] == lines[next + 1..];
      var inner := Trim(lines[next]);
      depth := depth + Count(inner, '{');
      depth := depth - Count(inner, '}');
      next := next + 1;
    }
    return Success(next);
  }

  lemma ExtendedTwice(a: seq<LockedProvider>, b: seq<LockedProvider>, rest: Result<seq<LockedProvider>>)
    ensures Extended(a, Extended(b, rest)) == Extended(a + b, rest)
    ensures Extended([], rest) == rest
  {
    if rest.Success? {
      assert a + (b + rest.value) == (a + b) + rest.value;
      assert [] + rest.value == rest.value;
    }
  }

  /** One top-level item, skipped or scanned. */
  method ScanItem(lines: seq<string>, start: nat) returns (r: Result<seq<LockedProvider>>, next: nat)
    requires start < |lines|
    ensures start < next <= |lines|
    ensures ParseItem(Trim(lines[start]), lines[start + 1..]) ==
            if r.Success? then Success((r.value, lines[next..])) else Refused
  {
    var trimmed := Trim(lines[start]);
    next := start + 1;
    if Ignorable(trimmed) {
      return Success([]), next;
    }
    if OpensSettings(trimmed) {
      var after := SkipSettings(lines, next, Count(trimmed, '{') - Count(trimmed, '}'));
      if after.Refused? {
        return Refused, next;
      }
      return Success([]), after.value;
    }
    var source := ProviderHeader(trimmed);
    if source.None? {
      return Refused, next;
    }
    r, next := ScanProvider(source.value, lines, next);
  }

  method ScanProvider(source: string, lines: seq<string>, start: nat) returns (r: Result<seq<LockedProvider>>, next: nat)
    requires start <= |lines|
    ensures start <= next <= |lines|
    ensures ParseProvider(source, lines[start..]) == if r.Success? then Success((r.value, lines[next..])) else Refused
  {
    var block, after := ScanBlock(lines, start);
    if block.Refused? {
      return Refused, after;
    }
    var provider := Locked(source, block.value);
    if provider.Refused? {
      return Refused, after;
    }
    return Success([provider.value]), after;
  }

  method ParseLockProviders(lines: seq<string>) returns (r: Result<seq<LockedProvider>>)
    ensures r == Parse(lines)
  {
    var providers: seq<LockedProvider> := [];
    var next := 0;
    assert lines[0..] == lines;
    ExtendedTwice([], [], Parse(lines));
    while next < |lines|
      invariant next <= |lines|
      invariant Extended(providers, Parse(lines[next..])) == Parse(lines)
    {
      var item, after := ScanItem(lines, next);
      assert lines[next..][1..] == lines[next + 1..];
      if item.Refused? {
        return Refused;
      }
      ExtendedTwice(providers, item.value, Parse(lines[after..]));
      providers, next := providers + item.value, after;
    }
    assert lines[next..] == [] && providers + [] == providers;
    return Success(providers);
  }

  // ---- What every accepted lock has ----

  predicate WellPinned(p: LockedProvider) {
    p.pins != [] && CanonicalPins(p.pins) && Sorted(p.pins)
  }

  lemma {:induction false} InlineIsCanonical(pieces: seq<string>)
    requires InlineEntries(pieces).Success?
    ensures CanonicalPins(InlineEntries(pieces).value)
  {
    if pieces != [] {
      InlineIsCanonical(pieces[1..]);
    }
  }

  lemma {:induction false} BlockIsCanonical(b: Block, lines: seq<string>)
    requires CanonicalPins(b.pins) && BlockFrom(b, lines).Success?
    ensures CanonicalPins(BlockFrom(b, lines).value.0.pins)
    decreases |lines|
  {
    var line := BlockLine(b, lines[0]);
    if line.Go? {
      assert CanonicalPins(line.block.pins) by {
        LineIsCanonical(b, lines[0]);
      }
      BlockIsCanonical(line.block, lines[1..]);
    }
  }

  lemma LineIsCanonical(b: Block, line: string)
    requires CanonicalPins(b.pins) && BlockLine(b, line).Go?
    ensures CanonicalPins(BlockLine(b, line).block.pins)
  {
    var list := SplitOnce(Trim(line), '[');
    if !b.inHashes && list.Some? {
      var inline := SplitOnce(list.value.1, ']');
      if inline.Some? && InlineEntries(Split(inline.value.0, ',')).Success? {
        InlineIsCanonical(Split(inline.value.0, ','));
      }
    }
  }

  lemma LockedIsWellPinned(source: string, b: Block)
    requires CanonicalPins(b.pins) && Locked(source, b).Success?
    ensures WellPinned(Locked(source, b).value)
  {
    var sorted := Sort(b.pins);
    SameElements(sorted, b.pins);
    forall i | 0 <= i < |sorted| ensures ChecksumValue(sorted[i]).Success? {
      assert sorted[i] in sorted;
    }
  }

  /** Every provider of an accepted lock has at least one pin, all of them
      canonical: a file without pins, or with junk in their place, is refused. */
  lemma {:induction false} AcceptedIsWellPinned(lines: seq<string>)
    requires Parse(lines).Success?
    ensures forall p :: p in Parse(lines).value ==> WellPinned(p)
    decreases |lines|
  {
    if lines != [] {
      var item := ParseItem(Trim(lines[0]), lines[1..]).value;
      ItemIsWellPinned(Trim(lines[0]), lines[1..]);
      AcceptedIsWellPinned(item.1);
    }
  }

  lemma ItemIsWellPinned(trimmed: string, rest: seq<string>)
    requires ParseItem(trimmed, rest).Success?
    ensures forall p :: p in ParseItem(trimmed, rest).value.0 ==> WellPinned(p)
  {
    if !Ignorable(trimmed) && !OpensSettings(trimmed) {
      var empty := Block(None, [], false);
      BlockIsCanonical(empty, rest);
      LockedIsWellPinned(ProviderHeader(trimmed).value, BlockFrom(empty, rest).value.0);
    }
  }

  // ---- The bytes behind the digest ----

  /** Each pin and a newline, in sorted order. */
  function Fed(pins: seq<string>): string {
    if pins == [] then "" else pins[0] + "\n" + Fed(pins[1..])
  }

  /** Different pin sets never feed the digest the same bytes. */
  lemma {:induction false} FedIsInjective(a: seq<string>, b: seq<string>)
    requires CanonicalPins(a) && CanonicalPins(b) && Fed(a) == Fed(b)
    ensures a == b
  {
    if a != [] && b != [] {
      ChecksumIsExact(a[0]);
      ChecksumIsExact(b[0]);
      PinIsPlain(a[0]);
      PinIsPlain(b[0]);
      SplitOnceAt(a[0], '\n', Fed(a[1..]));
      SplitOnceAt(b[0], '\n', Fed(b[1..]));
      assert Fed(a) == a[0] + ['\n'] + Fed(a[1..]) && Fed(b) == b[0] + ['\n'] + Fed(b[1..]);
      FedIsInjective(a[1..], b[1..]);
      assert a == [a[0]] + a[1..] && b == [b[0]] + b[1..];
    } else {
      assert |Fed(a)| == |Fed(b)|;
    }
  }

  // ---- The two list forms ----

  /** The pins quoted, commas between. */
  function Joined(pins: seq<string>): string {
    if pins == [] then "" else if |pins| == 1 then Quote(pins[0]) else Quote(pins[0]) + ([','] + (" " + Joined(pins[1..])))
  }

  function OnePerLine(pins: seq<string>): seq<string> {
    if pins == [] then [] else ["    " + Quote(pins[0]) + ","] + OnePerLine(pins[1..])
  }

  function Header(source: string): string {
    "provider " + Quote(source) + " {"
  }

  function VersionLine(version: string): string {
    "  " + ("version = " + Quote(version))
  }

  /** The pins as a list on one line, and as one that spans lines. */
  function InlineHashes(pins: seq<string>): seq<string> {
    ["  " + ("hashes = [" + (Joined(pins) + "]")), "}"]
  }

  function ListedHashes(pins: seq<string>): seq<string> {
    ["  hashes = ["] + (OnePerLine(pins) + ["  ]", "}"])
  }

  /** A lock of one provider whose pins are written this way. */
  function LockOf(source: string, version: string, hashes: seq<string>): seq<string> {
    [Header(source)] + ([VersionLine(version)] + hashes)
  }

  lemma EntryOfQuote(pin: string)
    requires ChecksumValue(pin).Success?
    ensures Entry(Quote(pin)) == Success(pin) && ',' !in Quote(pin) && ']' !in Quote(pin)
  {
    QuotedQuote(pin);
    ChecksumIsExact(pin);
    PinIsPlain(pin);
  }

  lemma {:induction false} JoinedIsClosedByBracket(pins: seq<string>)
    requires CanonicalPins(pins)
    ensures ']' !in Joined(pins)
  {
    if pins != [] {
      assert ChecksumValue(pins[0]).Success?;
      EntryOfQuote(pins[0]);
      JoinedIsClosedByBracket(pins[1..]);
    }
  }

  lemma {:induction false} InlineEntriesOfJoined(indent: string, pins: seq<string>)
    requires CanonicalPins(pins) && pins != [] && Blank(indent)
    ensures InlineEntries(Split(indent + Joined(pins), ',')) == Success(pins)
    decreases |pins|
  {
    assert ChecksumValue(pins[0]).Success?;
    PiecesOfJoined(indent, pins);
    if |pins| == 1 {
      FirstEntry(indent, pins[0], [], []);
      assert [pins[0]] + [] == pins;
    } else {
      InlineEntriesOfJoined(" ", pins[1..]);
      FirstEntry(indent, pins[0], Split(" " + Joined(pins[1..]), ','), pins[1..]);
      assert [pins[0]] + pins[1..] == pins;
    }
  }

  /** A pin contains no comma, so the list falls apart at its commas. */
  lemma PiecesOfJoined(indent: string, pins: seq<string>)
    requires CanonicalPins(pins) && pins != [] && Blank(indent)
    ensures Split(indent + Joined(pins), ',') ==
            [indent + Quote(pins[0])] + if |pins| == 1 then [] else Split(" " + Joined(pins[1..]), ',')
  {
    assert ChecksumValue(pins[0]).Success?;
    EntryOfQuote(pins[0]);
    var quoted := Quote(pins[0]);
    if |pins| == 1 {
      SplitLast(indent, quoted);
      assert Joined(pins) == quoted;
    } else {
      SplitFirst(indent, quoted, " " + Joined(pins[1..]));
      assert Joined(pins) == quoted + ([','] + (" " + Joined(pins[1..])));
    }
  }

  lemma SplitLast(indent: string, entry: string)
    requires Blank(indent) && ',' !in entry
    ensures Split(indent + entry, ',') == [indent + entry] + []
  {
    assert ',' !in indent + entry;
    SplitOnceNone(indent + entry, ',');
  }

  lemma SplitFirst(indent: string, entry: string, rest: string)
    requires Blank(indent) && ',' !in entry
    ensures Split(indent + (entry + ([','] + rest)), ',') == [indent + entry] + Split(rest, ',')
  {
    assert ',' !in indent + entry;
    assert indent + (entry + ([','] + rest)) == (indent + entry) + [','] + rest;
    SplitAt(indent + entry, ',', rest);
  }

  lemma FirstEntry(indent: string, pin: string, pieces: seq<string>, pins: seq<string>)
    requires Blank(indent) && ChecksumValue(pin).Success? && InlineEntries(pieces) == Success(pins)
    ensures InlineEntries([indent + Quote(pin)] + pieces) == Success([pin] + pins)
  {
    EntryOfQuote(pin);
    QuotedQuote(pin);
    TrimIndented(indent, Quote(pin));
    assert ([indent + Quote(pin)] + pieces)[1..] == pieces;
  }

  lemma HclStringReads(version: string)
    ensures HclString(" = " + Quote(version)) == Some(version)
  {
    QuotedQuote(version);
    var assignment := "= " + Quote(version);
    assert " = " + Quote(version) == " " + assignment;
    TrimIndented(" ", assignment);
    assert assignment[1..] == " " + Quote(version);
    TrimIndented(" ", Quote(version));
    assert Quote(version) == "" + Quote(version);
    TrimIndented("", Quote(version));
  }

  lemma VersionLineReads(b: Block, version: string)
    requires !b.inHashes
    ensures BlockLine(b, VersionLine(version)) == Go(b.(version := Some(version)))
  {
    var rest := " = " + Quote(version);
    var core := "version" + rest;
    QuotedQuote(version);
    assert core[|core| - 1] == Quote(version)[|Quote(version)| - 1];
    assert VersionLine(version) == "  " + core;
    TrimIndented("  ", core);
    StripPrefixOf("version", rest);
    HclStringReads(version);
    assert core[0] == 'v';
  }

  lemma HashesOpenedReads(b: Block, pins: seq<string>)
    requires CanonicalPins(pins) && pins != []
    ensures HashesOpened(b, Joined(pins) + "]") == Go(b.(pins := b.pins + pins))
  {
    InlineEntriesOfJoined("", pins);
    JoinedIsClosedByBracket(pins);
    assert "" + Joined(pins) == Joined(pins);
    assert Joined(pins) + "]" == Joined(pins) + [']'] + "";
    SplitOnceAt(Joined(pins), ']', "");
  }

  /** A line that starts a pin list, whatever follows the bracket. */
  lemma HashesLineReads(b: Block, list: string)
    requires !b.inHashes && (list == "" || !Space(list[|list| - 1]))
    ensures BlockLine(b, "  " + ("hashes = [" + list)) == HashesOpened(b, list)
  {
    var core := "hashes = [" + list;
    TrimIndented("  ", core);
    assert core == "hashes = " + ['['] + list;
    SplitOnceAt("hashes = ", '[', list);
    assert core[0] == 'h' && core == "hashes" + core[|"hashes"|..];
  }

  lemma EntryLineReads(b: Block, pin: string)
    requires b.inHashes && ChecksumValue(pin).Success?
    ensures BlockLine(b, "    " + Quote(pin) + ",") == Go(b.(pins := b.pins + [pin]))
  {
    EntryOfQuote(pin);
    QuotedQuote(pin);
    var core := Quote(pin) + ",";
    assert "    " + Quote(pin) + "," == "    " + core;
    TrimIndented("    ", core);
    assert core[..|core| - 1] == Quote(pin) && core[0] == '"';
    assert TrimEndCommas(core) == Quote(pin);
    assert "" + Quote(pin) == Quote(pin);
    TrimIndented("", Quote(pin));
  }

  lemma {:induction false} EntryLinesRead(b: Block, pins: seq<string>, rest: seq<string>)
    requires b.inHashes && CanonicalPins(pins)
    ensures BlockFrom(b, OnePerLine(pins) + rest) == BlockFrom(b.(pins := b.pins + pins), rest)
    decreases |pins|
  {
    var lines := OnePerLine(pins) + rest;
    if pins == [] {
      assert lines == rest && b.pins + [] == b.pins;
    } else {
      EntryLineReads(b, pins[0]);
      assert lines[1..] == OnePerLine(pins[1..]) + rest;
      EntryLinesRead(b.(pins := b.pins + [pins[0]]), pins[1..], rest);
      assert b.pins + [pins[0]] + pins[1..] == b.pins + pins;
    }
  }

  lemma HeaderReads(source: string)
    requires '"' !in source
    ensures var t := Trim(Header(source));
            !Ignorable(t) && !OpensSettings(t) && ProviderHeader(t) == Some(source)
  {
    var h := Header(source);
    var rest := " " + (Quote(source) + " {");
    assert h == "" + h && h[|h| - 1] == '{' && h[0] == 'p';
    TrimIndented("", h);
    assert h == "provider" + rest;
    StripPrefixOf("provider", rest);
    HeaderRestReads(source);
  }

  lemma HeaderRestReads(source: string)
    requires '"' !in source
    ensures Trim(" " + (Quote(source) + " {")) == "\"" + (source + "\"" + " {")
    ensures StripPrefix("\"" + (source + "\"" + " {"), "\"") == Some(source + "\"" + " {")
    ensures SplitOnce(source + "\"" + " {", '"') == Some((source, " {")) && Trim(" {") == "{"
  {
    var quoted := Quote(source) + " {";
    var open := source + "\"" + " {";
    assert quoted == "\"" + open && quoted[|quoted| - 1] == '{';
    TrimIndented(" ", quoted);
    StripPrefixOf("\"", open);
    assert open == source + ['"'] + " {";
    SplitOnceAt(source, '"', " {");
    assert " {" == " " + "{";
    TrimIndented(" ", "{");
  }

  lemma BlockCloses(b: Block, rest: seq<string>)
    requires !b.inHashes
    ensures BlockFrom(b, ["}"] + rest) == Success((b, rest))
  {
    assert "" + "}" == "}";
    TrimIndented("", "}");
    assert (["}"] + rest)[1..] == rest;
  }

  lemma ListCloses(b: Block)
    requires b.inHashes
    ensures BlockLine(b, "  ]") == Go(b.(inHashes := false))
  {
    assert "  " + "]" == "  ]";
    TrimIndented("  ", "]");
  }

  lemma ListOpens(b: Block)
    requires !b.inHashes
    ensures BlockLine(b, "  hashes = [") == Go(b.(inHashes := true))
  {
    HashesLineReads(b, "");
    assert "  " + ("hashes = [" + "") == "  hashes = [";
    SplitOnceNone("", ']');
  }

  lemma BlockSteps(b: Block, line: string, rest: seq<string>)
    requires BlockLine(b, line).Go?
    ensures BlockFrom(b, [line] + rest) == BlockFrom(BlockLine(b, line).block, rest)
  {
    assert ([line] + rest)[1..] == rest;
  }

  /** A block first in a file adds its provider to the rest of the file. */
  lemma BlockThenRest(source: string, lines: seq<string>, b: Block, rest: seq<string>)
    requires '"' !in source && BlockFrom(Block(None, [], false), lines + rest) == Success((b, rest))
    requires Locked(source, b).Success? && Parse(rest).Success?
    ensures Parse([Header(source)] + (lines + rest)) == Success([Locked(source, b).value] + Parse(rest).value)
  {
    HeaderReads(source);
    assert ([Header(source)] + (lines + rest))[1..] == lines + rest;
  }

  /** Whatever lines carry the pins: what they leave in the block is what
      the lock locks. */
  lemma LockReads(source: string, version: string, hashes: seq<string>, pins: seq<string>, rest: seq<string>)
    requires '"' !in source && pins != [] && Parse(rest).Success?
    requires BlockFrom(Block(Some(version), [], false), hashes + rest) == Success((Block(Some(version), pins, false), rest))
    ensures Parse(LockOf(source, version, hashes) + rest) ==
            Success([LockedProvider(source, version, Sort(pins))] + Parse(rest).value)
  {
    var b0 := Block(None, [], false);
    var lines := [VersionLine(version)] + hashes;
    VersionLineReads(b0, version);
    BlockSteps(b0, VersionLine(version), hashes + rest);
    assert lines + rest == [VersionLine(version)] + (hashes + rest);
    BlockThenRest(source, lines, Block(Some(version), pins, false), rest);
    assert LockOf(source, version, hashes) + rest == [Header(source)] + (lines + rest);
  }

  lemma InlineHashesRead(b: Block, pins: seq<string>, rest: seq<string>)
    requires !b.inHashes && b.pins == [] && CanonicalPins(pins) && pins != []
    ensures BlockFrom(b, InlineHashes(pins) + rest) == Success((b.(pins := pins), rest))
  {
    HashesLineReads(b, Joined(pins) + "]");
    HashesOpenedReads(b, pins);
    assert [] + pins == pins;
    BlockCloses(b.(pins := pins), rest);
    assert InlineHashes(pins) + rest == [InlineHashes(pins)[0]] + (["}"] + rest);
    BlockSteps(b, InlineHashes(pins)[0], ["}"] + rest);
  }

  lemma ListedHashesRead(b: Block, pins: seq<string>, rest: seq<string>)
    requires !b.inHashes && b.pins == [] && CanonicalPins(pins)
    ensures BlockFrom(b, ListedHashes(pins) + rest) == Success((b.(pins := pins), rest))
  {
    var body := OnePerLine(pins) + (["  ]"] + (["}"] + rest));
    ListOpens(b);
    ListBodyReads(b, pins, rest);
    assert [] + pins == pins;
    BlockSteps(b, "  hashes = [", body);
    assert ListedHashes(pins) + rest == ["  hashes = ["] + body;
  }

  lemma ListBodyReads(b: Block, pins: seq<string>, rest: seq<string>)
    requires !b.inHashes && CanonicalPins(pins)
    ensures BlockFrom(b.(inHashes := true), OnePerLine(pins) + (["  ]"] + (["}"] + rest))) ==
            Success((b.(pins := b.pins + pins), rest))
  {
    EntryLinesRead(b.(inHashes := true), pins, ["  ]"] + (["}"] + rest));
    ListCloses(b.(inHashes := true, pins := b.pins + pins));
    BlockSteps(b.(inHashes := true, pins := b.pins + pins), "  ]", ["}"] + rest);
    BlockCloses(b.(pins := b.pins + pins), rest);
  }

  // ---- A lock of any number of providers ----

  /** One provider's block: its canonical pins, listed one per line or not. */
  datatype Written = Written(source: string, version: string, pins: seq<string>, listed: bool)

  predicate WellWritten(e: Written) {
    '"' !in e.source && CanonicalPins(e.pins) && e.pins != []
  }

  function HashesOf(e: Written): seq<string> {
    if e.listed then ListedHashes(e.pins) else InlineHashes(e.pins)
  }

  /** The lines of the whole file. */
  function FileOf(blocks: seq<Written>): seq<string> {
    if blocks == [] then []
    else LockOf(blocks[0].source, blocks[0].version, HashesOf(blocks[0])) + FileOf(blocks[1..])
  }

  function ProvidersOf(blocks: seq<Written>): (providers: seq<LockedProvider>)
    ensures |providers| == |blocks|
    ensures forall i :: 0 <= i < |blocks| ==>
              providers[i] == LockedProvider(blocks[i].source, blocks[i].version, Sort(blocks[i].pins))
  {
    if blocks == [] then []
    else [LockedProvider(blocks[0].source, blocks[0].version, Sort(blocks[0].pins))] + ProvidersOf(blocks[1..])
  }

  /** Every well-written lock is read, block by block. */
  lemma {:induction false} FileReads(blocks: seq<Written>)
    requires forall i :: 0 <= i < |blocks| ==> WellWritten(blocks[i])
    ensures Parse(FileOf(blocks)) == Success(ProvidersOf(blocks))
  {
    if blocks != [] {
      var e, rest := blocks[0], FileOf(blocks[1..]);
      FileReads(blocks[1..]);
      BlockReads(e, rest);
      LockReads(e.source, e.version, HashesOf(e), e.pins, rest);
    }
  }

  lemma BlockReads(e: Written, rest: seq<string>)
    requires WellWritten(e)
    ensures BlockFrom(Block(Some(e.version), [], false), HashesOf(e) + rest) ==
            Success((Block(Some(e.version), e.pins, false), rest))
  {
    if e.listed {
      ListedHashesRead(Block(Some(e.version), [], false), e.pins, rest);
    } else {
      InlineHashesRead(Block(Some(e.version), [], false), e.pins, rest);
    }
  }

  predicate SamePins(a: Written, b: Written) {
    a.source == b.source && a.version == b.version && multiset(a.pins) == multiset(b.pins)
  }

  /** The same providers with the same canonical pins, each on one line or one
      per line and in any order, are the same lock. */
  lemma FormDoesNotMatter(a: seq<Written>, b: seq<Written>)
    requires |a| == |b| && forall i :: 0 <= i < |a| ==> WellWritten(a[i]) && SamePins(a[i], b[i])
    ensures Parse(FileOf(a)).Success? && Parse(FileOf(a)) == Parse(FileOf(b))
  {
    forall i | 0 <= i < |a| ensures SamePins(a[i], b[i]) && WellWritten(b[i]) && Sort(a[i].pins) == Sort(b[i].pins) {
      SamePinsAsWell(a[i], b[i]);
    }
    FileReads(a);
    FileReads(b);
    assert ProvidersOf(a) == ProvidersOf(b);
  }

  lemma SamePinsAsWell(a: Written, b: Written)
    requires WellWritten(a) && SamePins(a, b)
    ensures WellWritten(b) && Sort(a.pins) == Sort(b.pins)
  {
    SameElements(a.pins, b.pins);
    forall i | 0 <= i < |b.pins| ensures ChecksumValue(b.pins[i]).Success? {
      assert b.pins[i] in b.pins;
    }
    PermutationsSortAlike(a.pins, b.pins);
  }
}
