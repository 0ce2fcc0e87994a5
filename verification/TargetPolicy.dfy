/** The canonical target policy of an Auth revision and the route it gives a
    target (auth_policy.rs, resolve_desired_context of auth_context.rs). */
module TargetPolicy {
  import opened Wrappers
  import opened Ordering
  import opened AuthContext

  datatype Selector =
    | OrganizationSelector(owner: string)
    | RepositorySelector(owner: string, repository: string)
    | AccountSelector(accountKind: AccountKind, owner: string)

  const MAX_SELECTORS: nat := 100
  const MAX_ACCOUNTS: nat := 50

  datatype Key = Key(kind: nat, accountKind: nat, owner: string, repository: string)

  /** Kind, account kind, owner, repository, without regard to case. */
  function SortKey(s: Selector): Key {
    match s
    case OrganizationSelector(owner) => Key(0, 0, Fold(owner), "")
    case RepositorySelector(owner, repository) => Key(1, 0, Fold(owner), Fold(repository))
    case AccountSelector(kind, owner) => Key(2, if kind.User? then 0 else 1, Fold(owner), "")
  }

  /** The derived order of the key tuple. */
  predicate KeyLeq(a: Key, b: Key) {
    if a.kind != b.kind then a.kind < b.kind
    else if a.accountKind != b.accountKind then a.accountKind < b.accountKind
    else if a.owner != b.owner then Leq(a.owner, b.owner)
    else Leq(a.repository, b.repository)
  }

  lemma KeyOrder(a: Key, b: Key)
    ensures KeyLeq(a, b) || KeyLeq(b, a)
    ensures KeyLeq(a, b) && KeyLeq(b, a) ==> a == b
  {
    LeqTotal(a.owner, b.owner);
    LeqTotal(a.repository, b.repository);
  }

  lemma KeyTransitive(a: Key, b: Key, c: Key)
    requires KeyLeq(a, b) && KeyLeq(b, c)
    ensures KeyLeq(a, c)
  {
    if a.kind == b.kind == c.kind && a.accountKind == b.accountKind == c.accountKind {
      LeqTotal(a.owner, b.owner);
      LeqTotal(b.owner, c.owner);
      if a.owner == b.owner == c.owner {
        LeqTransitive(a.repository, b.repository, c.repository);
      } else {
        LeqTransitive(a.owner, b.owner, c.owner);
        LeqTotal(a.owner, c.owner);
      }
    }
  }

  predicate KeySorted(s: seq<Selector>) {
    forall i, j :: 0 <= i < j < |s| ==> KeyLeq(SortKey(s[i]), SortKey(s[j]))
  }

  predicate DistinctKeys(s: seq<Selector>) {
    forall i, j :: 0 <= i < j < |s| ==> SortKey(s[i]) != SortKey(s[j])
  }

  function InsertByKey(x: Selector, s: seq<Selector>): (r: seq<Selector>)
    ensures multiset(r) == multiset(s) + multiset{x}
  {
    if s == [] then [x]
    else
      assert s == [s[0]] + s[1..];
      if KeyLeq(SortKey(x), SortKey(s[0])) then [x] + s else [s[0]] + InsertByKey(x, s[1..])
  }

  lemma {:induction false} InsertKeepsKeySorted(x: Selector, s: seq<Selector>)
    requires KeySorted(s)
    ensures KeySorted(InsertByKey(x, s))
  {
    if s != [] {
      KeyOrder(SortKey(x), SortKey(s[0]));
      if KeyLeq(SortKey(x), SortKey(s[0])) {
        forall j | 0 <= j < |s| ensures KeyLeq(SortKey(x), SortKey(s[j])) {
          if j > 0 {
            KeyTransitive(SortKey(x), SortKey(s[0]), SortKey(s[j]));
          }
        }
      } else {
        InsertKeepsKeySorted(x, s[1..]);
        var rest := InsertByKey(x, s[1..]);
        forall j | 0 <= j < |rest| ensures KeyLeq(SortKey(s[0]), SortKey(rest[j])) {
          assert rest[j] in multiset(rest);
          if rest[j] != x {
            assert rest[j] in s[1..];
          }
        }
      }
    }
  }

  /** sort_by_key: stable, so equal keys keep their order. */
  function SortByKey(s: seq<Selector>): (r: seq<Selector>)
    ensures multiset(r) == multiset(s)
    ensures KeySorted(r)
  {
    if s == [] then []
    else
      assert s == [s[0]] + s[1..];
      InsertKeepsKeySorted(s[0], SortByKey(s[1..]));
      InsertByKey(s[0], SortByKey(s[1..]))
  }

  /** Sorted by distinct keys, a policy is determined by its selectors. */
  lemma {:induction false} KeySortedIsUnique(a: seq<Selector>, b: seq<Selector>)
    requires KeySorted(a) && KeySorted(b) && DistinctKeys(a) && DistinctKeys(b) && multiset(a) == multiset(b)
    ensures a == b
  {
    SameElements(a, b);
    if a != [] {
      KeySortedHeads(a, b);
      SameTails(a, b);
      KeySortedIsUnique(a[1..], b[1..]);
      assert a == [a[0]] + a[1..] && b == [b[0]] + b[1..];
    }
  }

  lemma KeySortedHeads(a: seq<Selector>, b: seq<Selector>)
    requires KeySorted(a) && KeySorted(b) && DistinctKeys(a) && a != [] && b != []
    requires a[0] in b && b[0] in a
    ensures a[0] == b[0]
  {
    var i :| 0 <= i < |a| && a[i] == b[0];
    var j :| 0 <= j < |b| && b[j] == a[0];
    if i > 0 && j > 0 {
      KeyOrder(SortKey(a[0]), SortKey(b[0]));
    }
  }

  predicate AdjacentKeys(s: seq<Selector>) {
    exists i :: 0 <= i < |s| - 1 && SortKey(s[i]) == SortKey(s[i + 1])
  }

  lemma KeySortedRepeatsAreAdjacent(s: seq<Selector>)
    requires KeySorted(s)
    ensures AdjacentKeys(s) <==> !DistinctKeys(s)
  {
    if !DistinctKeys(s) {
      var i, j :| 0 <= i < j < |s| && SortKey(s[i]) == SortKey(s[j]);
      if i + 1 < j {
        assert KeyLeq(SortKey(s[i]), SortKey(s[i + 1])) && KeyLeq(SortKey(s[i + 1]), SortKey(s[j]));
        KeyOrder(SortKey(s[i]), SortKey(s[i + 1]));
      }
      assert SortKey(s[i]) == SortKey(s[i + 1]);
    }
  }

  function KeysOf(s: seq<Selector>): (keys: seq<Key>)
    ensures |keys| == |s| && forall i :: 0 <= i < |s| ==> keys[i] == SortKey(s[i])
  {
    seq(|s|, i requires 0 <= i < |s| => SortKey(s[i]))
  }

  /** Distinct keys, without positions. */
  lemma DistinctKeysByMembers(s: seq<Selector>)
    ensures DistinctKeys(s) <==>
              Distinct(s) && forall x, y :: x in s && y in s && x != y ==> SortKey(x) != SortKey(y)
  {
    if DistinctKeys(s) {
      forall x, y | x in s && y in s && x != y ensures SortKey(x) != SortKey(y) {
        var i :| 0 <= i < |s| && s[i] == x;
        var j :| 0 <= j < |s| && s[j] == y;
        assert if i < j then SortKey(s[i]) != SortKey(s[j]) else SortKey(s[j]) != SortKey(s[i]);
      }
    }
  }

  lemma DistinctKeysByOrder(a: seq<Selector>, b: seq<Selector>)
    requires multiset(a) == multiset(b)
    ensures DistinctKeys(a) <==> DistinctKeys(b)
  {
    SameElements(a, b);
    DistinctByMultiset(a);
    DistinctByMultiset(b);
    DistinctKeysByMembers(a);
    DistinctKeysByMembers(b);
  }

  lemma KeysDecide(s: seq<Selector>)
    ensures Distinct(KeysOf(s)) <==> DistinctKeys(s)
  {
    if !DistinctKeys(s) {
      var i, j :| 0 <= i < j < |s| && SortKey(s[i]) == SortKey(s[j]);
      assert KeysOf(s)[i] == KeysOf(s)[j];
    }
    if !Distinct(KeysOf(s)) {
      var i, j :| 0 <= i < j < |s| && KeysOf(s)[i] == KeysOf(s)[j];
      assert SortKey(s[i]) == SortKey(s[j]);
    }
  }

  // ---- Construction ----

  /** The folded account of every selector. */
  function FoldedAccounts(s: seq<Selector>): (accounts: seq<string>)
    ensures |accounts| == |s| && forall i :: 0 <= i < |s| ==> accounts[i] == Fold(s[i].owner)
  {
    seq(|s|, i requires 0 <= i < |s| => Fold(s[i].owner))
  }

  /** Case-insensitively distinct accounts. */
  ghost function AccountSet(s: seq<Selector>): set<string> {
    set x | x in s :: Fold(x.owner)
  }

  /** What is accepted, said without sorting. */
  ghost predicate Accepts(s: seq<Selector>) {
    1 <= |s| <= MAX_SELECTORS && DistinctKeys(s) && |AccountSet(s)| <= MAX_ACCOUNTS
  }

  /** The account budget counts by sorting and dropping neighbours. */
  lemma BudgetIsExact(s: seq<Selector>)
    ensures |Dedup(Sort(FoldedAccounts(s)))| == |AccountSet(s)|
  {
    var accounts := FoldedAccounts(s);
    var sorted := Sort(accounts);
    SameElements(sorted, accounts);
    DedupCounts(sorted);
    var listed := set x | x in sorted;
    forall x ensures x in listed <==> x in AccountSet(s) {
      if x in listed {
        var i :| 0 <= i < |accounts| && accounts[i] == x;
        assert s[i] in s;
      }
      if x in AccountSet(s) {
        var y :| y in s && Fold(y.owner) == x;
        var i :| 0 <= i < |s| && s[i] == y;
        assert accounts[i] in accounts;
      }
    }
    assert listed == AccountSet(s);
  }

  method HasAdjacentKeys(s: seq<Selector>) returns (found: bool)
    ensures found <==> AdjacentKeys(s)
  {
    var i := 0;
    while i + 1 < |s|
      invariant forall k :: 0 <= k < i && k + 1 < |s| ==> SortKey(s[k]) != SortKey(s[k + 1])
    {
      if SortKey(s[i]) == SortKey(s[i + 1]) {
        return true;
      }
      i := i + 1;
    }
    return false;
  }

  /** Validates and orders canonically. */
  method New(selectors: seq<Selector>) returns (r: Result<seq<Selector>>)
    ensures r == if Accepts(selectors) then Success(SortByKey(selectors)) else Refused
  {
    if selectors == [] || |selectors| > MAX_SELECTORS {
      return Refused;
    }
    var sorted := SortByKey(selectors);
    DistinctKeysByOrder(selectors, sorted);
    KeySortedRepeatsAreAdjacent(sorted);
    var repeats := HasAdjacentKeys(sorted);
    if repeats {
      return Refused;
    }
    var accounts := Dedup(Sort(FoldedAccounts(sorted)));
    BudgetIsExact(sorted);
    AccountsByOrder(selectors, sorted);
    if |accounts| > MAX_ACCOUNTS {
      return Refused;
    }
    return Success(sorted);
  }

  lemma AccountsByOrder(a: seq<Selector>, b: seq<Selector>)
    requires multiset(a) == multiset(b)
    ensures AccountSet(a) == AccountSet(b) && |a| == |b|
  {
    SameElements(a, b);
  }

  /** The same selectors in any order make the same policy, or none. */
  lemma OrderDoesNotMatter(a: seq<Selector>, b: seq<Selector>)
    requires multiset(a) == multiset(b)
    ensures Accepts(a) <==> Accepts(b)
    ensures Accepts(a) ==> SortByKey(a) == SortByKey(b)
  {
    AccountsByOrder(a, b);
    DistinctKeysByOrder(a, b);
    if Accepts(a) {
      DistinctKeysByOrder(a, SortByKey(a));
      DistinctKeysByOrder(b, SortByKey(b));
      KeySortedIsUnique(SortByKey(a), SortByKey(b));
    }
  }

  // ---- Matching ----

  predicate Allows(s: Selector, t: Target) {
    match s
    case OrganizationSelector(owner) => t.OrganizationTarget? && Fold(owner) == Fold(t.owner)
    case RepositorySelector(owner, repository) =>
      t.RepositoryTarget? && Fold(owner) == Fold(t.owner) && Fold(repository) == Fold(t.repository)
    case AccountSelector(_, owner) => t.RepositoryTarget? && Fold(owner) == Fold(t.owner)
  }

  function Matches(policy: seq<Selector>, t: Target): (matches: seq<Selector>)
    ensures forall s :: s in matches <==> s in policy && Allows(s, t)
    ensures |matches| <= |policy|
  {
    if policy == [] then []
    else
      assert policy == [policy[0]] + policy[1..];
      (if Allows(policy[0], t) then [policy[0]] else []) + Matches(policy[1..], t)
  }

  lemma {:induction false} MatchesKeepDistinct(policy: seq<Selector>, t: Target)
    requires DistinctKeys(policy)
    ensures DistinctKeys(Matches(policy, t))
  {
    if policy != [] {
      MatchesKeepDistinct(policy[1..], t);
      var rest := Matches(policy[1..], t);
      forall j | 0 <= j < |rest| ensures SortKey(policy[0]) != SortKey(rest[j]) {
        assert rest[j] in rest && rest[j] in policy[1..];
      }
    }
  }

  /** At most three selectors admit any target, and every one of them names the
      target's owner. */
  lemma AtMostThreeMatch(policy: seq<Selector>, t: Target)
    requires DistinctKeys(policy)
    ensures |Matches(policy, t)| <= 3
    ensures forall s :: s in Matches(policy, t) ==> Fold(s.owner) == Fold(t.owner)
  {
    var matches := Matches(policy, t);
    MatchesKeepDistinct(policy, t);
    var keys := KeysOf(matches);
    KeysDecide(matches);
    var owner := Fold(t.owner);
    var possible :=
      if t.OrganizationTarget? then {Key(0, 0, owner, "")}
      else {Key(1, 0, owner, Fold(t.repository)), Key(2, 0, owner, ""), Key(2, 1, owner, "")};
    forall k | k in keys ensures k in possible {
      var i :| 0 <= i < |keys| && keys[i] == k;
      assert matches[i] in matches && Allows(matches[i], t);
    }
    DistinctWithin(keys, possible);
  }

  // ---- Routing ----

  datatype Resolution = Resolved(context: Context) | NoMatchingSelector | AmbiguousInstallation

  function FindBinding(bindings: seq<Binding>, account: string): (b: Option<Binding>)
    ensures b.Some? ==> b.value in bindings && Fold(b.value.login) == Fold(account)
    ensures b.None? ==> forall x :: x in bindings ==> Fold(x.login) != Fold(account)
  {
    if bindings == [] then None
    else if Fold(bindings[0].login) == Fold(account) then Some(bindings[0])
    else FindBinding(bindings[1..], account)
  }

  lemma {:induction false} SameAccountSameBinding(bindings: seq<Binding>, a: string, b: string)
    requires Fold(a) == Fold(b)
    ensures FindBinding(bindings, a) == FindBinding(bindings, b)
  {
    if bindings != [] {
      SameAccountSameBinding(bindings[1..], a, b);
    }
  }

  function RouteBy(profile: string, revision: int, appId: string, b: Binding, t: Target): Context {
    Context(profile, revision, GITHUB_HOST, appId, b.accountId, b.accountKind, b.login, b.installationId, t,
            if t.OrganizationTarget? then Some(b.accountId) else None, None, None)
  }

  /** The binding of the target's owner decides, whatever the selectors' order
      and spelling; an accepted policy never resolves ambiguously. */
  method ResolveDesiredContext(profile: string, revision: int, appId: string, policy: seq<Selector>,
                               bindings: seq<Binding>, t: Target)
    returns (r: Resolution)
    ensures var b := FindBinding(bindings, t.owner);
            r == if Matches(policy, t) == [] || b.None? then NoMatchingSelector
                 else Resolved(RouteBy(profile, revision, appId, b.value, t))
    ensures !r.AmbiguousInstallation?
  {
    var matches := Matches(policy, t);
    if matches == [] {
      return NoMatchingSelector;
    }
    var route: Option<Binding> := None;
    for i := 0 to |matches|
      invariant i == 0 ==> route.None?
      invariant i > 0 ==> route.Some? && route == FindBinding(bindings, t.owner)
    {
      assert matches[i] in matches;
      SameAccountSameBinding(bindings, matches[i].owner, t.owner);
      var binding := FindBinding(bindings, matches[i].owner);
      if binding.None? {
        return NoMatchingSelector;
      }
      if route.None? {
        route := binding;
      } else if route.value.accountId != binding.value.accountId ||
                route.value.installationId != binding.value.installationId
      {
        return AmbiguousInstallation;
      }
    }
    return Resolved(RouteBy(profile, revision, appId, route.value, t));
  }
}
