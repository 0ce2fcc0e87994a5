/** Keyset pagination of a generation's invocation log (operation_log_page.rs).
    Pages and walks are about the positions that cursors stand for; their text
    is read and written below. Generation ids are taken to be UUIDs. */
module InvocationPages {
  import opened Int64
  import opened Wrappers
  import opened Ordering
  import Hex

  datatype Invocation = Invocation(id: string, operation: string, startedAt: I64, ordinal: I64)

  datatype Position = Position(generation: string, startedAt: I64, id: string)

  /** What a cursor string is: an encoded position, or bytes that are not one. */
  datatype Cursor = Encoded(position: Position) | Malformed

  datatype Query = Query(limit: Option<nat>, cursor: Option<Cursor>)

  datatype Page = Page(
    items: seq<Invocation>,
    next: Option<Cursor>,
    latestCreate: Option<Invocation>,
    latestDestroy: Option<Invocation>)

  // ---- The order of the log ----

  /** (started_at, id) compared as a tuple: a stands strictly below b. */
  predicate Below(aTime: int, aId: string, bTime: int, bId: string) {
    aTime < bTime || (aTime == bTime && aId != bId && Leq(aId, bId))
  }

  /** a is listed before b: newer first. */
  predicate Precedes(a: Invocation, b: Invocation) {
    Below(b.startedAt, b.id, a.startedAt, a.id)
  }

  lemma PrecedesTransitive(a: Invocation, b: Invocation, c: Invocation)
    requires Precedes(a, b) && Precedes(b, c)
    ensures Precedes(a, c)
  {
    if a.startedAt == b.startedAt == c.startedAt {
      LeqTransitive(c.id, b.id, a.id);
      if c.id == a.id {
        LeqTotal(a.id, b.id);
      }
    }
  }

  lemma PrecedesTotal(a: Invocation, b: Invocation)
    ensures a.startedAt != b.startedAt || a.id != b.id ==> Precedes(a, b) || Precedes(b, a)
    ensures !(Precedes(a, b) && Precedes(b, a))
  {
    LeqTotal(a.id, b.id);
  }

  predicate Descending(s: seq<Invocation>) {
    forall i, j :: 0 <= i < j < |s| ==> Precedes(s[i], s[j])
  }

  /** The log's primary key: no two entries share an id. */
  predicate Keyed(s: seq<Invocation>) {
    forall i, j :: 0 <= i < j < |s| ==> s[i].id != s[j].id
  }

  function InsertDescending(x: Invocation, s: seq<Invocation>): (r: seq<Invocation>)
    ensures multiset(r) == multiset(s) + multiset{x}
  {
    if s == [] then [x]
    else
      assert s == [s[0]] + s[1..];
      if Precedes(x, s[0]) then [x] + s else [s[0]] + InsertDescending(x, s[1..])
  }

  lemma {:induction false} InsertKeepsDescending(x: Invocation, s: seq<Invocation>)
    requires Descending(s) && forall y :: y in s ==> y.id != x.id
    ensures Descending(InsertDescending(x, s))
  {
    if s != [] {
      assert s[0] in s;
      PrecedesTotal(x, s[0]);
      if Precedes(x, s[0]) {
        forall j | 0 <= j < |s| ensures Precedes(x, s[j]) {
          if j > 0 {
            PrecedesTransitive(x, s[0], s[j]);
          }
        }
      } else {
        InsertKeepsDescending(x, s[1..]);
        var rest := InsertDescending(x, s[1..]);
        forall j | 0 <= j < |rest| ensures Precedes(s[0], rest[j]) {
          assert rest[j] in multiset(rest);
          if rest[j] != x {
            assert rest[j] in s[1..];
          }
        }
      }
    }
  }

  function SortDescending(s: seq<Invocation>): (r: seq<Invocation>)
    ensures multiset(r) == multiset(s)
  {
    if s == [] then []
    else
      assert s == [s[0]] + s[1..];
      InsertDescending(s[0], SortDescending(s[1..]))
  }

  lemma {:induction false} SortIsDescending(s: seq<Invocation>)
    requires Keyed(s)
    ensures Descending(SortDescending(s))
  {
    if s != [] {
      SortIsDescending(s[1..]);
      var rest := SortDescending(s[1..]);
      SameElements(rest, s[1..]);
      forall y | y in rest ensures y.id != s[0].id {
        assert y in s[1..];
      }
      InsertKeepsDescending(s[0], rest);
    }
  }

  // ---- One page ----

  const DEFAULT_LIMIT: nat := 50
  const MAX_LIMIT: nat := 200

  function PageLimit(q: Query): Result<nat> {
    var limit := if q.limit.None? then DEFAULT_LIMIT else q.limit.value;
    if 1 <= limit <= MAX_LIMIT then Success(limit) else Refused
  }

  /** A cursor is good for the generation it was made for, and no other. */
  function PositionFor(q: Query, generation: string): Result<Option<Position>> {
    match q.cursor
    case None => Success(None)
    case Some(Malformed) => Refused
    case Some(Encoded(position)) => if position.generation == generation then Success(Some(position)) else Refused
  }

  function CursorAfter(generation: string, item: Invocation): Cursor {
    Encoded(Position(generation, item.startedAt, item.id))
  }

  // ---- The text of a cursor ----

  const MAX_CURSOR: nat := 1024

  /** What the cursor needs of the JSON and UUID libraries. */
  datatype Codec = Codec(write: Position -> seq<Byte>, read: seq<Byte> -> Option<Position>, isUuid: string -> bool)

  function CursorText(position: Position, codec: Codec): string {
    Hex.Encode(codec.write(position))
  }

  function ReadCursor(text: string, codec: Codec): Cursor {
    if |text| > MAX_CURSOR then Malformed
    else
      var bytes := Hex.Decode(text);
      var position := if bytes.Some? then codec.read(bytes.value) else None;
      if position.Some? && codec.isUuid(position.value.id) then Encoded(position.value) else Malformed
  }

  /** A cursor's text gives back its position for the generation it was made
      for, and is refused for another; it is refused for its own, too, exactly
      if the entry's id is no UUID or the position takes more than half of the
      admitted length. */
  lemma CursorRoundTrip(generation: string, other: string, item: Invocation, limit: Option<nat>, codec: Codec)
    requires var position := CursorAfter(generation, item).position; codec.read(codec.write(position)) == Some(position)
    ensures var position := CursorAfter(generation, item).position;
            var q := Query(limit, Some(ReadCursor(CursorText(position, codec), codec)));
            PositionFor(q, other) ==
            if other == generation && codec.isUuid(item.id) && |codec.write(position)| <= MAX_CURSOR / 2
            then Success(Some(Position(generation, item.startedAt, item.id)))
            else Refused
  {
    Hex.RoundTrip(codec.write(CursorAfter(generation, item).position));
  }

  // ---- After a position ----

  predicate After(position: Option<Position>, item: Invocation) {
    position.Some? ==> Below(item.startedAt, item.id, position.value.startedAt, position.value.id)
  }

  /** Vec::retain. */
  function Retain(s: seq<Invocation>, position: Option<Position>): (r: seq<Invocation>)
    ensures forall x :: x in r <==> x in s && After(position, x)
    ensures |r| <= |s|
  {
    if s == [] then []
    else
      assert s == [s[0]] + s[1..];
      (if After(position, s[0]) then [s[0]] else []) + Retain(s[1..], position)
  }

  lemma {:induction false} RetainKeepsDescending(s: seq<Invocation>, position: Option<Position>)
    requires Descending(s)
    ensures Descending(Retain(s, position))
  {
    if s != [] {
      RetainKeepsDescending(s[1..], position);
      var rest := Retain(s[1..], position);
      forall j | 0 <= j < |rest| ensures Precedes(s[0], rest[j]) {
        assert rest[j] in rest && rest[j] in s[1..];
      }
    }
  }

  /** (started_at, ordinal, id) compared as a tuple. */
  predicate AtLeastAsLate(a: Invocation, b: Invocation) {
    a.startedAt > b.startedAt ||
    (a.startedAt == b.startedAt && (a.ordinal > b.ordinal || (a.ordinal == b.ordinal && Leq(b.id, a.id))))
  }

  /** The latest invocation of an operation; of equal ones the last. */
  function Latest(items: seq<Invocation>, operation: string): (r: Option<Invocation>)
    ensures r.Some? ==> r.value in items && r.value.operation == operation
    ensures r.None? ==> forall x :: x in items ==> x.operation != operation
  {
    if items == [] then None
    else
      var last, before := items[|items| - 1], Latest(items[..|items| - 1], operation);
      assert items == items[..|items| - 1] + [last];
      if last.operation != operation then before
      else if before.None? || AtLeastAsLate(last, before.value) then Some(last)
      else before
  }

  lemma LateTransitive(a: Invocation, b: Invocation, c: Invocation)
    requires AtLeastAsLate(a, b) && AtLeastAsLate(b, c)
    ensures AtLeastAsLate(a, c)
  {
    if a.startedAt == b.startedAt == c.startedAt && a.ordinal == b.ordinal == c.ordinal {
      LeqTransitive(c.id, b.id, a.id);
    }
  }

  /** Nothing of its operation is later than the latest. */
  lemma {:induction false} LatestIsMaximal(items: seq<Invocation>, operation: string)
    requires Latest(items, operation).Some?
    ensures forall x :: x in items && x.operation == operation ==> AtLeastAsLate(Latest(items, operation).value, x)
  {
    var n := |items| - 1;
    var last, before := items[n], Latest(items[..n], operation);
    assert items == items[..n] + [last];
    LeqTotal(last.id, last.id);
    if before.Some? {
      LatestIsMaximal(items[..n], operation);
      LeqTotal(last.id, before.value.id);
      forall x | x in items && x.operation == operation ensures AtLeastAsLate(Latest(items, operation).value, x) {
        if x in items[..n] && AtLeastAsLate(last, before.value) {
          LateTransitive(last, before.value, x);
        }
      }
    } else {
      assert forall x :: x in items && x.operation == operation ==> x == last;
    }
  }

  /** One page of the log as it is now. */
  method PageOf(q: Query, generation: string, all: seq<Invocation>) returns (r: Result<Page>)
    ensures r.Success? <==> PageLimit(q).Success? && PositionFor(q, generation).Success?
    ensures r.Success? ==> r.value == PageAt(PageLimit(q).value, PositionFor(q, generation).value, generation, all)
  {
    var limit :- PageLimit(q);
    var position :- PositionFor(q, generation);
    var latestCreate, latestDestroy := Latest(all, "Create"), Latest(all, "Destroy");
    var items := SortDescending(all);
    items := Retain(items, position);
    var more := |items| > limit;
    if more {
      items := items[..limit];
    }
    var next := if more then Some(CursorAfter(generation, items[|items| - 1])) else None;
    return Success(Page(items, next, latestCreate, latestDestroy));
  }

  function PageAt(limit: nat, position: Option<Position>, generation: string, all: seq<Invocation>): Page
    requires 1 <= limit
  {
    var rest := Retain(SortDescending(all), position);
    var items := if |rest| > limit then rest[..limit] else rest;
    Page(items, if |rest| > limit then Some(CursorAfter(generation, items[limit - 1])) else None,
         Latest(all, "Create"), Latest(all, "Destroy"))
  }

  /** What a page is, without saying how it is made: the first entries after
      the position in strictly descending order, and a cursor at its last
      entry exactly when something is left. */
  lemma PageIsTheNextStretch(limit: nat, position: Option<Position>, generation: string, all: seq<Invocation>)
    requires 1 <= limit && Keyed(all)
    ensures var p := PageAt(limit, position, generation, all);
            && Descending(p.items) && |p.items| <= limit
            && (forall x :: x in p.items ==> x in all && After(position, x))
            && (p.next.None? ==> forall x :: x in all && After(position, x) ==> x in p.items)
            && (p.next.Some? ==>
                  && |p.items| == limit
                  && p.next == Some(CursorAfter(generation, p.items[limit - 1]))
                  && (forall x :: x in all && After(position, x) ==> x in p.items || Precedes(p.items[limit - 1], x))
                  && (exists x :: x in all && Precedes(p.items[limit - 1], x)))
  {
    var sorted := SortDescending(all);
    SortIsDescending(all);
    SameElements(sorted, all);
    RetainKeepsDescending(sorted, position);
    var rest := Retain(sorted, position);
    var p := PageAt(limit, position, generation, all);
    if |rest| > limit {
      assert rest[limit] in rest && rest[limit] in all;
      forall x | x in all && After(position, x) ensures x in p.items || Precedes(p.items[limit - 1], x) {
        assert x in rest;
        var k :| 0 <= k < |rest| && rest[k] == x;
        if k < limit {
          assert p.items[k] == x;
        }
      }
    }
  }

  /** The latest create and destroy are of the whole log, whatever the cursor. */
  lemma LatestIgnoresCursor(q0: Query, q1: Query, generation: string, all: seq<Invocation>)
    requires PageLimit(q0).Success? && PageLimit(q1).Success?
    requires PositionFor(q0, generation).Success? && PositionFor(q1, generation).Success?
    ensures var p0 := PageAt(PageLimit(q0).value, PositionFor(q0, generation).value, generation, all);
            var p1 := PageAt(PageLimit(q1).value, PositionFor(q1, generation).value, generation, all);
            p0.latestCreate == p1.latestCreate && p0.latestDestroy == p1.latestDestroy
  {
  }

  // ---- Walking the log ----

  /** One request of a walk: the log as it was then, and the limit asked for. */
  datatype Visit = Visit(all: seq<Invocation>, limit: nat)

  function PositionOf(c: Cursor): Option<Position> {
    if c.Encoded? then Some(c.position) else None
  }

  function PageOn(visits: seq<Visit>, generation: string, position: Option<Position>): Page
    requires visits != [] && visits[0].limit >= 1
  {
    PageAt(visits[0].limit, position, generation, visits[0].all)
  }

  /** Following next_cursor from this position over these visits reaches the
      end with the last of them. */
  ghost predicate Complete(visits: seq<Visit>, generation: string, position: Option<Position>)
    decreases |visits|
  {
    && visits != [] && visits[0].limit >= 1 && Keyed(visits[0].all)
    && var page := PageOn(visits, generation, position);
       if page.next.None? then |visits| == 1
       else Complete(visits[1..], generation, PositionOf(page.next.value))
  }

  /** Everything the walk returned. */
  ghost function Returned(visits: seq<Visit>, generation: string, position: Option<Position>): seq<Invocation>
    requires Complete(visits, generation, position)
    decreases |visits|
  {
    var page := PageOn(visits, generation, position);
    page.items + if page.next.None? then [] else Returned(visits[1..], generation, PositionOf(page.next.value))
  }

  /** A complete walk returns only entries after its start that the log held
      at some visit. */
  lemma {:induction false} WalkReturnsLogged(visits: seq<Visit>, generation: string, position: Option<Position>)
    requires Complete(visits, generation, position)
    ensures forall x :: x in Returned(visits, generation, position) ==>
              After(position, x) && exists v :: v in visits && x in v.all
    decreases |visits|
  {
    var page := PageOn(visits, generation, position);
    PageIsTheNextStretch(visits[0].limit, position, generation, visits[0].all);
    assert visits[0] in visits;
    if page.next.Some? {
      var last := page.items[visits[0].limit - 1];
      var at := PositionOf(page.next.value);
      WalkReturnsLogged(visits[1..], generation, at);
      assert last in page.items;
      forall x | x in Returned(visits[1..], generation, at)
        ensures After(position, x) && exists v :: v in visits && x in v.all
      {
        BelowIsTransitive(position, last, x);
        var v :| v in visits[1..] && x in v.all;
        assert v in visits;
      }
    }
  }

  /** What a walk returns lies after its start. */
  lemma WalkStaysAfter(visits: seq<Visit>, generation: string, position: Option<Position>)
    requires Complete(visits, generation, position)
    ensures forall x :: x in Returned(visits, generation, position) ==> After(position, x)
  {
    WalkReturnsLogged(visits, generation, position);
  }

  /** For any limits and with entries added or removed between the pages, a
      complete walk is strictly descending: it returns nothing twice. */
  lemma {:induction false} WalkDescends(visits: seq<Visit>, generation: string, position: Option<Position>)
    requires Complete(visits, generation, position)
    ensures Descending(Returned(visits, generation, position))
    decreases |visits|
  {
    var page := PageOn(visits, generation, position);
    PageShape(visits[0].limit, position, generation, visits[0].all);
    if page.next.Some? {
      var at := PositionOf(page.next.value);
      WalkDescends(visits[1..], generation, at);
      WalkStaysAfter(visits[1..], generation, at);
      PageThenRest(page, visits[0].limit, generation, Returned(visits[1..], generation, at));
    }
  }

  lemma PageShape(limit: nat, position: Option<Position>, generation: string, all: seq<Invocation>)
    requires 1 <= limit && Keyed(all)
    ensures var p := PageAt(limit, position, generation, all);
            Descending(p.items) && Descending(p.items + []) && EndsAtCursor(p, limit, generation)
  {
    PageIsTheNextStretch(limit, position, generation, all);
    var p := PageAt(limit, position, generation, all);
    assert p.items + [] == p.items;
  }

  predicate EndsAtCursor(p: Page, limit: nat, generation: string) {
    p.next.Some? ==> |p.items| == limit > 0 && p.next == Some(CursorAfter(generation, p.items[limit - 1]))
  }

  lemma PageThenRest(p: Page, limit: nat, generation: string, rest: seq<Invocation>)
    requires p.next.Some? && EndsAtCursor(p, limit, generation) && Descending(p.items) && Descending(rest)
    requires forall x :: x in rest ==> After(PositionOf(p.next.value), x)
    ensures Descending(p.items + rest)
  {
    DescendingConcat(p.items, rest);
  }

  lemma DescendingConcat(a: seq<Invocation>, b: seq<Invocation>)
    requires a != [] && Descending(a) && Descending(b) && forall x :: x in b ==> Precedes(a[|a| - 1], x)
    ensures Descending(a + b)
  {
    forall i, j | 0 <= i < |a| && 0 <= j < |b| ensures Precedes(a[i], b[j]) {
      assert b[j] in b;
      if i < |a| - 1 {
        PrecedesTransitive(a[i], a[|a| - 1], b[j]);
      }
    }
  }

  /** It misses nothing that was in the log at every visit. */
  lemma {:induction false} WalkCovers(visits: seq<Visit>, generation: string, position: Option<Position>, x: Invocation)
    requires Complete(visits, generation, position) && After(position, x) && forall v :: v in visits ==> x in v.all
    ensures x in Returned(visits, generation, position)
    decreases |visits|
  {
    var page := PageOn(visits, generation, position);
    PageIsTheNextStretch(visits[0].limit, position, generation, visits[0].all);
    assert visits[0] in visits;
    if page.next.Some? && x !in page.items {
      assert forall v :: v in visits[1..] ==> v in visits;
      WalkCovers(visits[1..], generation, PositionOf(page.next.value), x);
    }
  }

  lemma BelowIsTransitive(position: Option<Position>, a: Invocation, x: Invocation)
    requires After(position, a) && Precedes(a, x)
    ensures After(position, x)
  {
    if position.Some? {
      PrecedesTransitive(Invocation(position.value.id, "", position.value.startedAt, 0), a, x);
    }
  }

  /** How much of a fixed log is left after a position. */
  function Left(all: seq<Invocation>, position: Option<Position>): nat {
    |Retain(SortDescending(all), position)|
  }

  /** Over a fixed log every page with a cursor leaves strictly less. */
  lemma WalkMakesProgress(all: seq<Invocation>, limit: nat, generation: string, position: Option<Position>)
    requires 1 <= limit && Keyed(all) && PageAt(limit, position, generation, all).next.Some?
    ensures Left(all, PositionOf(PageAt(limit, position, generation, all).next.value)) < Left(all, position)
  {
    var page := PageAt(limit, position, generation, all);
    PageIsTheNextStretch(limit, position, generation, all);
    var last := page.items[limit - 1];
    assert last in page.items;
    SortIsDescending(all);
    RetainedShrinks(SortDescending(all), position, PositionOf(page.next.value), last);
  }

  lemma {:induction false} RetainedShrinks(s: seq<Invocation>, before: Option<Position>, at: Option<Position>, last: Invocation)
    requires at.Some? && at == Some(Position(at.value.generation, last.startedAt, last.id)) && After(before, last)
    ensures |Retain(s, at)| <= |Retain(s, before)|
    ensures last in s ==> |Retain(s, at)| < |Retain(s, before)|
  {
    if s != [] {
      RetainedShrinks(s[1..], before, at, last);
      if After(at, s[0]) {
        BelowIsTransitive(before, last, s[0]);
      }
      assert s == [s[0]] + s[1..];
    }
  }

  /** Over a fixed log following the cursors comes to an end, for any limit,
      after at most one page per entry left and one more. */
  lemma {:induction false} WalkEnds(all: seq<Invocation>, limit: nat, generation: string, position: Option<Position>)
    returns (visits: seq<Visit>)
    requires 1 <= limit && Keyed(all)
    ensures Complete(visits, generation, position) && |visits| <= Left(all, position) + 1 <= |all| + 1
    ensures forall v :: v in visits ==> v == Visit(all, limit)
    decreases Left(all, position)
  {
    LeftIsBounded(all, position);
    var page := PageAt(limit, position, generation, all);
    visits := [Visit(all, limit)];
    if page.next.Some? {
      WalkMakesProgress(all, limit, generation, position);
      var more := WalkEnds(all, limit, generation, PositionOf(page.next.value));
      visits := visits + more;
      assert visits[1..] == more;
    }
  }

  lemma LeftIsBounded(all: seq<Invocation>, position: Option<Position>)
    ensures Left(all, position) <= |all|
  {
    SameElements(SortDescending(all), all);
  }
}
