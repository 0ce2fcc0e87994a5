/** The order of strings, and sorting: a sorted sequence is determined by its
    elements, which is what makes canonical forms canonical. */
module Ordering {
  predicate Leq(a: string, b: string) {
    a == [] || (b != [] && (a[0] < b[0] || (a[0] == b[0] && Leq(a[1..], b[1..]))))
  }

  lemma {:induction false} LeqTotal(a: string, b: string)
    ensures Leq(a, b) || Leq(b, a)
    ensures Leq(a, b) && Leq(b, a) ==> a == b
  {
    if a != [] && b != [] && a[0] == b[0] {
      LeqTotal(a[1..], b[1..]);
      if Leq(a, b) && Leq(b, a) {
        assert a == [a[0]] + a[1..] && b == [b[0]] + b[1..];
      }
    }
  }

  lemma {:induction false} LeqTransitive(a: string, b: string, c: string)
    requires Leq(a, b) && Leq(b, c)
    ensures Leq(a, c)
  {
    if a != [] && a[0] == b[0] == c[0] {
      LeqTransitive(a[1..], b[1..], c[1..]);
    }
  }

  predicate Sorted(s: seq<string>) {
    forall i, j :: 0 <= i < j < |s| ==> Leq(s[i], s[j])
  }

  predicate Distinct<T(==)>(s: seq<T>) {
    forall i, j :: 0 <= i < j < |s| ==> s[i] != s[j]
  }

  /** x put before the first element it does not exceed. */
  function Insert(x: string, s: seq<string>): (r: seq<string>)
    ensures multiset(r) == multiset(s) + multiset{x}
  {
    if s == [] then [x]
    else if Leq(x, s[0]) then
      assert s == [s[0]] + s[1..];
      [x] + s
    else
      assert s == [s[0]] + s[1..];
      [s[0]] + Insert(x, s[1..])
  }

  lemma {:induction false} InsertKeepsSorted(x: string, s: seq<string>)
    requires Sorted(s)
    ensures Sorted(Insert(x, s))
  {
    if s != [] {
      LeqTotal(x, s[0]);
      if Leq(x, s[0]) {
        forall j | 0 <= j < |s| ensures Leq(x, s[j]) {
          if j > 0 {
            LeqTransitive(x, s[0], s[j]);
          }
        }
      } else {
        InsertKeepsSorted(x, s[1..]);
        var rest := Insert(x, s[1..]);
        forall j | 0 <= j < |rest| ensures Leq(s[0], rest[j]) {
          assert rest[j] in multiset(rest);
          if rest[j] != x {
            assert rest[j] in s[1..];
          }
        }
      }
    }
  }

  function Sort(s: seq<string>): (r: seq<string>)
    ensures multiset(r) == multiset(s)
    ensures Sorted(r)
  {
    if s == [] then []
    else
      assert s == [s[0]] + s[1..];
      InsertKeepsSorted(s[0], Sort(s[1..]));
      Insert(s[0], Sort(s[1..]))
  }

  lemma SameElements<T>(a: seq<T>, b: seq<T>)
    requires multiset(a) == multiset(b)
    ensures |a| == |b| && forall x :: x in a <==> x in b
  {
    assert |multiset(a)| == |a| && |multiset(b)| == |b|;
    forall x ensures x in a <==> x in b {
      assert x in a <==> x in multiset(a);
      assert x in b <==> x in multiset(b);
    }
  }

  /** Equal heads leave equal tails. */
  lemma SameTails<T>(a: seq<T>, b: seq<T>)
    requires a != [] && b != [] && a[0] == b[0] && multiset(a) == multiset(b)
    ensures multiset(a[1..]) == multiset(b[1..])
  {
    assert a == [a[0]] + a[1..] && b == [b[0]] + b[1..];
    assert multiset(a[1..]) == multiset(a) - multiset{a[0]};
    assert multiset(b[1..]) == multiset(b) - multiset{b[0]};
  }

  /** Two sorted sequences with the same elements are the same sequence. */
  lemma {:induction false} SortedIsUnique(a: seq<string>, b: seq<string>)
    requires Sorted(a) && Sorted(b) && multiset(a) == multiset(b)
    ensures a == b
  {
    SameElements(a, b);
    if a != [] {
      SortedHeads(a, b);
      SameTails(a, b);
      SortedIsUnique(a[1..], b[1..]);
      assert a == [a[0]] + a[1..] && b == [b[0]] + b[1..];
    }
  }

  lemma SortedHeads(a: seq<string>, b: seq<string>)
    requires Sorted(a) && Sorted(b) && a != [] && b != [] && a[0] in b && b[0] in a
    ensures a[0] == b[0]
  {
    var i :| 0 <= i < |a| && a[i] == b[0];
    var j :| 0 <= j < |b| && b[j] == a[0];
    LeqTotal(a[0], b[0]);
  }

  /** Permutations sort to the same sequence. */
  lemma PermutationsSortAlike(a: seq<string>, b: seq<string>)
    requires multiset(a) == multiset(b)
    ensures Sort(a) == Sort(b)
  {
    SortedIsUnique(Sort(a), Sort(b));
  }

  predicate AdjacentRepeat(s: seq<string>) {
    exists i :: 0 <= i < |s| - 1 && s[i] == s[i + 1]
  }

  /** In a sorted sequence every repetition is an adjacent one. */
  lemma SortedRepeatsAreAdjacent(s: seq<string>)
    requires Sorted(s)
    ensures AdjacentRepeat(s) <==> !Distinct(s)
  {
    if !Distinct(s) {
      var i, j :| 0 <= i < j < |s| && s[i] == s[j];
      if i + 1 < j {
        assert Leq(s[i], s[i + 1]) && Leq(s[i + 1], s[j]);
        LeqTotal(s[i], s[i + 1]);
      }
      assert s[i] == s[i + 1];
    }
  }

  /** Distinctness does not depend on the order. */
  lemma DistinctByMultiset<T>(s: seq<T>)
    ensures Distinct(s) <==> forall x :: x in multiset(s) ==> multiset(s)[x] == 1
  {
    if Distinct(s) {
      forall x | x in multiset(s) ensures multiset(s)[x] == 1 {
        var i :| 0 <= i < |s| && s[i] == x;
        assert s == s[..i] + [s[i]] + s[i + 1..];
        assert x !in s[..i] && x !in s[i + 1..];
      }
    } else {
      var i, j :| 0 <= i < j < |s| && s[i] == s[j];
      assert s == s[..i] + [s[i]] + s[i + 1..j] + [s[j]] + s[j + 1..];
      assert multiset(s)[s[i]] >= 2;
      assert s[i] in multiset(s);
    }
  }

  /** Sorting and comparing neighbours decides distinctness. */
  lemma SortDecidesDistinct(s: seq<string>)
    ensures AdjacentRepeat(Sort(s)) <==> !Distinct(s)
  {
    SortedRepeatsAreAdjacent(Sort(s));
    DistinctByMultiset(s);
    DistinctByMultiset(Sort(s));
  }

  lemma AdjacentTail(s: seq<string>)
    requires |s| >= 2
    ensures AdjacentRepeat(s) <==> s[0] == s[1] || AdjacentRepeat(s[1..])
  {
    var t := s[1..];
    if i :| 0 <= i < |t| - 1 && t[i] == t[i + 1] {
      assert s[i + 1] == s[i + 1 + 1];
    }
    if i :| 0 <= i < |s| - 1 && s[i] == s[i + 1] {
      if i > 0 {
        assert t[i - 1] == t[i - 1 + 1];
      }
    }
  }

  /** Vec::dedup: drops each element equal to the one before it. */
  function Dedup(s: seq<string>): (r: seq<string>)
    ensures |r| <= |s|
    ensures |r| == |s| <==> !AdjacentRepeat(s)
  {
    if |s| < 2 then s
    else
      var rest := Dedup(s[1..]);
      AdjacentTail(s);
      if s[0] == s[1] then rest else [s[0]] + rest
  }

  /** After sorting, what Dedup leaves is one of each. */
  lemma {:induction false} DedupCounts(s: seq<string>)
    requires Sorted(s)
    ensures |Dedup(s)| == |set x | x in s|
  {
    if |s| == 1 {
      assert (set x | x in s) == {s[0]};
    } else if |s| >= 2 {
      var t := s[1..];
      DedupCounts(t);
      if s[0] == s[1] {
        assert s[0] in t;
        assert (set x | x in s) == set x | x in t;
      } else {
        if s[0] in t {
          var k :| 0 <= k < |t| && t[k] == s[0];
          assert Leq(s[1], s[k + 1]);
          LeqTotal(s[0], s[1]);
        }
        assert s == [s[0]] + t;
        assert (set x | x in s) == (set x | x in t) + {s[0]};
      }
    }
  }

  /** A sequence without repeats has at most as many elements as any set that
      holds them all. */
  lemma {:induction false} DistinctWithin<T>(s: seq<T>, all: set<T>)
    requires Distinct(s) && forall x :: x in s ==> x in all
    ensures |s| <= |all|
  {
    if s != [] {
      var n := |s| - 1;
      DistinctWithin(s[..n], all - {s[n]});
    }
  }
}
