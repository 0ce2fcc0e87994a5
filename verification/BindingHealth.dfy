/** The displayed health of one account binding (service_auth_health.rs). The
    reason texts are not modelled; a context that cannot be decoded is absent. */
module BindingHealth {
  import opened Int64
  import opened Wrappers
  import opened AuthContext

  /** A Fleet's context row and its handoff row. */
  datatype Route = Route(
    fleet: string,
    desired: Option<Ref>,
    desiredContext: Option<Context>,
    observed: Option<Ref>,
    observedContext: Option<Context>,
    blocked: bool,
    handoff: Option<HandoffRow>)

  datatype HandoffRow = HandoffRow(desired: Ref, blocked: bool)

  datatype Observation = Observation(fleet: string, context: Context, checkedAt: int, validUntil: int, healthy: bool)

  datatype Retained = Retained(fleet: string, context: Context)

  datatype Evidence = Evidence(
    ref: Ref, binding: Binding, routes: seq<Route>, observations: seq<Observation>, retained: seq<Retained>, now: int)
  {
    predicate Matches(c: Context) {
      MatchesRefAndBinding(c, ref.profile, ref.revision, binding)
    }
  }

  const POSITIVE_PROOF_TTL_MS: int := 60_000

  datatype State = Healthy | Blocked | Degraded | Validated | Unknown

  datatype Health = Health(state: State, checkedAt: Option<int>, validUntil: Option<int>, affected: set<string>)

  // ---- What the verdict is about ----

  predicate DesiredSide(ev: Evidence, r: Route, c: Context) {
    r.desired == Some(ev.ref) && r.desiredContext == Some(c) && ev.Matches(c)
  }

  predicate ObservedSide(ev: Evidence, r: Route, c: Context) {
    r.observed == Some(ev.ref) && r.observedContext == Some(c) && ev.Matches(c)
  }

  /** The contexts that make this route row relevant. */
  function Sides(ev: Evidence, r: Route): (cs: seq<Context>)
    ensures forall c :: c in cs <==> DesiredSide(ev, r, c) || ObservedSide(ev, r, c)
  {
    (if r.desiredContext.Some? && DesiredSide(ev, r, r.desiredContext.value) then [r.desiredContext.value] else []) +
    (if r.observedContext.Some? && ObservedSide(ev, r, r.observedContext.value) then [r.observedContext.value] else [])
  }

  /** Some live or head route of this Fleet runs over the binding by c. */
  ghost predicate Backs(ev: Evidence, fleet: string, c: Context) {
    (ev.Matches(c) && Retained(fleet, c) in ev.retained) || RoutesBack(ev, ev.routes, fleet, c)
  }

  ghost predicate RoutesBack(ev: Evidence, routes: seq<Route>, fleet: string, c: Context) {
    exists r :: r in routes && RouteBacks(ev, r, fleet, c)
  }

  predicate RouteBacks(ev: Evidence, r: Route, fleet: string, c: Context) {
    r.fleet == fleet && c in Sides(ev, r)
  }

  ghost predicate Relevant(ev: Evidence, fleet: string) {
    exists c :: Backs(ev, fleet, c)
  }

  predicate BlocksRoute(ev: Evidence, r: Route) {
    && r.desiredContext.Some? && DesiredSide(ev, r, r.desiredContext.value)
    && (r.blocked || (r.handoff.Some? && r.handoff.value.desired == ev.ref && r.handoff.value.blocked))
  }

  /** A desired route of this Fleet over the binding is blocked. */
  ghost predicate RouteBlocked(ev: Evidence, fleet: string) {
    BlockedAmong(ev, ev.routes, fleet)
  }

  ghost predicate BlockedAmong(ev: Evidence, routes: seq<Route>, fleet: string) {
    exists r :: r in routes && BlocksFleet(ev, r, fleet)
  }

  predicate BlocksFleet(ev: Evidence, r: Route, fleet: string) {
    r.fleet == fleet && BlocksRoute(ev, r)
  }

  /** In the window, over this binding, and about a context that still counts. */
  ghost predicate Counts(ev: Evidence, o: Observation) {
    && ev.Matches(o.context) && o.checkedAt <= ev.now < o.validUntil
    && exists c :: Backs(ev, o.fleet, c) && (o.context == c || Completes(o.context, c))
  }

  /** The observation that speaks for a Fleet: the newest that counts, and of
      equally new ones the last. */
  ghost function Speaks(ev: Evidence, n: nat, fleet: string): Option<Observation>
    requires n <= |ev.observations|
  {
    if n == 0 then None
    else
      var o, before := ev.observations[n - 1], Speaks(ev, n - 1, fleet);
      if o.fleet == fleet && Counts(ev, o) && (before.None? || before.value.checkedAt <= o.checkedAt) then Some(o)
      else before
  }

  ghost function Spokesman(ev: Evidence, fleet: string): Option<Observation> {
    Speaks(ev, |ev.observations|, fleet)
  }

  /** It is one of the Fleet's counting observations, and none is newer. */
  lemma {:induction false} SpokesmanIsNewest(ev: Evidence, n: nat, fleet: string)
    requires n <= |ev.observations|
    ensures var s := Speaks(ev, n, fleet);
            && (s.Some? ==> s.value in ev.observations && s.value.fleet == fleet && Counts(ev, s.value))
            && (forall i :: 0 <= i < n && ev.observations[i].fleet == fleet && Counts(ev, ev.observations[i]) ==>
                  s.Some? && ev.observations[i].checkedAt <= s.value.checkedAt)
  {
    if n > 0 {
      SpokesmanIsNewest(ev, n - 1, fleet);
    }
  }

  ghost predicate Failing(ev: Evidence, fleet: string) {
    Spokesman(ev, fleet).Some? && !Spokesman(ev, fleet).value.healthy
  }

  ghost predicate Affected(ev: Evidence, fleet: string) {
    RouteBlocked(ev, fleet) || Failing(ev, fleet)
  }

  ghost predicate Verified(ev: Evidence, fleet: string) {
    Spokesman(ev, fleet).Some? && Spokesman(ev, fleet).value.healthy
  }

  /** Only relevant Fleets can be affected or speak. */
  lemma AffectedIsRelevant(ev: Evidence, fleet: string)
    ensures RouteBlocked(ev, fleet) || Spokesman(ev, fleet).Some? ==> Relevant(ev, fleet)
  {
    if RouteBlocked(ev, fleet) {
      var r :| r in ev.routes && BlocksFleet(ev, r, fleet);
      assert RouteBacks(ev, r, fleet, r.desiredContext.value);
      assert Backs(ev, fleet, r.desiredContext.value);
    }
    if Spokesman(ev, fleet).Some? {
      SpokesmanIsNewest(ev, |ev.observations|, fleet);
      var o := Spokesman(ev, fleet).value;
      var c :| Backs(ev, o.fleet, c) && (o.context == c || Completes(o.context, c));
      assert Backs(ev, fleet, c);
    }
  }

  // ---- The passes ----

  /** Adds a context to a Fleet's entry, as or_default().push does. */
  function Push(relevant: map<string, seq<Context>>, fleet: string, cs: seq<Context>): map<string, seq<Context>> {
    if cs == [] then relevant
    else relevant[fleet := (if fleet in relevant then relevant[fleet] else []) + cs]
  }

  ghost predicate Holds(relevant: map<string, seq<Context>>, fleet: string, c: Context) {
    fleet in relevant && c in relevant[fleet]
  }

  lemma PushHolds(relevant: map<string, seq<Context>>, fleet: string, cs: seq<Context>)
    ensures forall f, c :: Holds(Push(relevant, fleet, cs), f, c) <==> Holds(relevant, f, c) || (f == fleet && c in cs)
    ensures (forall f :: f in relevant ==> relevant[f] != []) ==>
              forall f :: f in Push(relevant, fleet, cs) ==> Push(relevant, fleet, cs)[f] != []
  {
  }

  method CollectRetained(ev: Evidence) returns (relevant: map<string, seq<Context>>)
    ensures forall f, c :: Holds(relevant, f, c) <==> ev.Matches(c) && Retained(f, c) in ev.retained
    ensures forall f :: f in relevant ==> relevant[f] != []
  {
    relevant := map[];
    for i := 0 to |ev.retained|
      invariant forall f, c :: Holds(relevant, f, c) <==> ev.Matches(c) && Retained(f, c) in ev.retained[..i]
      invariant forall f :: f in relevant ==> relevant[f] != []
    {
      var r := ev.retained[i];
      assert ev.retained[..i + 1] == ev.retained[..i] + [r];
      var cs := if ev.Matches(r.context) then [r.context] else [];
      PushHolds(relevant, r.fleet, cs);
      relevant := Push(relevant, r.fleet, cs);
    }
    assert ev.retained[..|ev.retained|] == ev.retained;
  }

  /** Retained routes first, then the desired and observed side of every row. */
  method CollectRoutes(ev: Evidence) returns (relevant: map<string, seq<Context>>, blocked: set<string>)
    ensures forall f, c :: Holds(relevant, f, c) <==> Backs(ev, f, c)
    ensures forall f :: f in relevant ==> relevant[f] != []
    ensures forall f :: f in blocked <==> RouteBlocked(ev, f)
  {
    var held := CollectRetained(ev);
    relevant, blocked := held, {};
    for i := 0 to |ev.routes|
      invariant forall f, c :: Holds(relevant, f, c) <==> Holds(held, f, c) || RoutesBack(ev, ev.routes[..i], f, c)
      invariant forall f :: f in relevant ==> relevant[f] != []
      invariant forall f :: f in blocked <==> BlockedAmong(ev, ev.routes[..i], f)
    {
      var r := ev.routes[i];
      PushHolds(relevant, r.fleet, Sides(ev, r));
      RoutesBackMore(ev, ev.routes[..i], r);
      assert ev.routes[..i + 1] == ev.routes[..i] + [r];
      relevant := Push(relevant, r.fleet, Sides(ev, r));
      if BlocksRoute(ev, r) {
        blocked := blocked + {r.fleet};
      }
    }
    assert ev.routes[..|ev.routes|] == ev.routes;
  }

  lemma RoutesBackMore(ev: Evidence, routes: seq<Route>, r: Route)
    ensures forall f, c :: RoutesBack(ev, routes + [r], f, c) <==> RoutesBack(ev, routes, f, c) || RouteBacks(ev, r, f, c)
    ensures forall f :: BlockedAmong(ev, routes + [r], f) <==> BlockedAmong(ev, routes, f) || BlocksFleet(ev, r, f)
  {
    var more := routes + [r];
    assert forall x :: x in more <==> x in routes || x == r;
    forall f, c ensures RoutesBack(ev, more, f, c) <==> RoutesBack(ev, routes, f, c) || RouteBacks(ev, r, f, c) {
      if RoutesBack(ev, routes, f, c) {
        var x :| x in routes && RouteBacks(ev, x, f, c);
        assert x in more;
      }
      if RouteBacks(ev, r, f, c) {
        assert r in more;
      }
    }
    forall f ensures BlockedAmong(ev, more, f) <==> BlockedAmong(ev, routes, f) || BlocksFleet(ev, r, f) {
      if BlockedAmong(ev, routes, f) {
        var x :| x in routes && BlocksFleet(ev, x, f);
        assert x in more;
      }
      if BlocksFleet(ev, r, f) {
        assert r in more;
      }
    }
  }

  predicate MatchesCurrent(relevant: map<string, seq<Context>>, o: Observation) {
    o.fleet in relevant && exists c <- relevant[o.fleet] :: o.context == c || Completes(o.context, c)
  }

  /** The newest counting observation of each Fleet, last one of a tie. */
  method CollectFresh(ev: Evidence, relevant: map<string, seq<Context>>) returns (current: map<string, Observation>)
    requires forall f, c :: Holds(relevant, f, c) <==> Backs(ev, f, c)
    ensures forall f :: f in current <==> Spokesman(ev, f).Some?
    ensures forall f :: f in current ==> Spokesman(ev, f) == Some(current[f])
  {
    current := map[];
    for i := 0 to |ev.observations|
      invariant forall f :: f in current <==> Speaks(ev, i, f).Some?
      invariant forall f :: f in current ==> Speaks(ev, i, f) == Some(current[f])
    {
      var o := ev.observations[i];
      CountsIsMatched(ev, relevant, o);
      if ev.Matches(o.context) && o.checkedAt <= ev.now && ev.now < o.validUntil && MatchesCurrent(relevant, o) {
        if o.fleet !in current || current[o.fleet].checkedAt <= o.checkedAt {
          current := current[o.fleet := o];
        }
      }
    }
  }

  lemma CountsIsMatched(ev: Evidence, relevant: map<string, seq<Context>>, o: Observation)
    requires forall f, c :: Holds(relevant, f, c) <==> Backs(ev, f, c)
    ensures Counts(ev, o) <==>
              ev.Matches(o.context) && o.checkedAt <= ev.now < o.validUntil && MatchesCurrent(relevant, o)
  {
    if Counts(ev, o) {
      var c :| Backs(ev, o.fleet, c) && (o.context == c || Completes(o.context, c));
      assert Holds(relevant, o.fleet, c);
    }
    if MatchesCurrent(relevant, o) {
      var c :| c in relevant[o.fleet] && (o.context == c || Completes(o.context, c));
      assert Holds(relevant, o.fleet, c);
      assert Backs(ev, o.fleet, c);
    }
  }

  // ---- The verdict ----

  /** The earliest check and the earliest expiry among these observations. */
  method Window(os: map<string, Observation>) returns (checkedAt: Option<int>, validUntil: Option<int>)
    ensures checkedAt.None? <==> os == map[]
    ensures validUntil.None? <==> os == map[]
    ensures forall f :: f in os ==> checkedAt.Some? && checkedAt.value <= os[f].checkedAt
    ensures forall f :: f in os ==> validUntil.Some? && validUntil.value <= os[f].validUntil
    ensures checkedAt.Some? ==> exists f :: f in os && checkedAt == Some(os[f].checkedAt)
    ensures validUntil.Some? ==> exists f :: f in os && validUntil == Some(os[f].validUntil)
  {
    checkedAt, validUntil := None, None;
    var left := os.Keys;
    while left != {}
      invariant left <= os.Keys
      invariant checkedAt.None? <==> left == os.Keys
      invariant validUntil.None? <==> left == os.Keys
      invariant forall f :: f in os && f !in left ==> checkedAt.Some? && checkedAt.value <= os[f].checkedAt
      invariant forall f :: f in os && f !in left ==> validUntil.Some? && validUntil.value <= os[f].validUntil
      invariant checkedAt.Some? ==> exists f :: f in os && checkedAt == Some(os[f].checkedAt)
      invariant validUntil.Some? ==> exists f :: f in os && validUntil == Some(os[f].validUntil)
      decreases left
    {
      var f :| f in left;
      left := left - {f};
      var o := os[f];
      checkedAt := if checkedAt.None? || o.checkedAt < checkedAt.value then Some(o.checkedAt) else checkedAt;
      validUntil := if validUntil.None? || o.validUntil < validUntil.value then Some(o.validUntil) else validUntil;
      assert f in os && f !in left;
    }
  }

  /** A subset that is as large as the whole is the whole. */
  lemma SameSize<T>(part: set<T>, whole: set<T>)
    requires part <= whole
    ensures |part| == |whole| <==> part == whole
  {
    if part != whole {
      var x :| x in whole && x !in part;
      assert part <= whole - {x};
      SubsetSize(part, whole - {x});
    }
  }

  lemma {:induction false} SubsetSize<T>(part: set<T>, whole: set<T>)
    requires part <= whole
    ensures |part| <= |whole|
  {
    if part != {} {
      var x :| x in part;
      SubsetSize(part - {x}, whole - {x});
    }
  }

  /** What the candidate's own validation still shows. */
  function ValidationOnly(b: Binding, now: int): Health {
    var expires := Saturate(b.validatedAt + POSITIVE_PROOF_TTL_MS);
    if b.validatedAt > 0 && b.validatedAt <= now && now < expires
    then Health(Validated, Some(b.validatedAt), Some(expires), {})
    else Health(Unknown, None, None, {})
  }

  /** Blocked, Healthy and Degraded, with no counting left in them. */
  ghost predicate Judged(ev: Evidence, h: Health) {
    && (h.state.Blocked? <==>
          (exists f :: Affected(ev, f)) && forall f :: Relevant(ev, f) ==> Affected(ev, f))
    && (h.state.Degraded? <==>
          (exists f :: Affected(ev, f)) && exists f :: Relevant(ev, f) && !Affected(ev, f))
    && (h.state.Healthy? <==>
          (exists f :: Relevant(ev, f)) &&
          forall f :: Relevant(ev, f) ==> Verified(ev, f) && !RouteBlocked(ev, f))
    && (forall f :: f in h.affected <==> Affected(ev, f))
  }

  /** A Healthy window rests on every relevant Fleet's evidence and outlives
      none of it; a failing one on every failure. */
  ghost predicate WindowHolds(ev: Evidence, h: Health) {
    && (h.state.Healthy? ==>
          h.checkedAt.Some? && h.validUntil.Some? && ev.now < h.validUntil.value &&
          forall f :: Relevant(ev, f) ==>
            Spokesman(ev, f).Some? && h.checkedAt.value <= Spokesman(ev, f).value.checkedAt && h.validUntil.value <= Spokesman(ev, f).value.validUntil)
    && (h.state.Blocked? || h.state.Degraded? ==>
          forall f :: Failing(ev, f) ==>
            h.validUntil.Some? && h.validUntil.value <= Spokesman(ev, f).value.validUntil)
  }

  /** The sets a pass has built, as what they mean. */
  ghost predicate Built(ev: Evidence, relevant: set<string>, affected: set<string>, current: map<string, Observation>) {
    && (forall f :: f in relevant <==> Relevant(ev, f))
    && (forall f :: f in affected <==> Affected(ev, f))
    && (forall f :: f in current <==> Spokesman(ev, f).Some?)
    && (forall f :: f in current ==> Spokesman(ev, f) == Some(current[f]))
  }

  /** The length comparisons decide equality of the sets. */
  lemma LengthsDecide(ev: Evidence, relevant: set<string>, affected: set<string>, current: map<string, Observation>)
    requires Built(ev, relevant, affected, current)
    ensures |affected| == |relevant| <==> forall f :: Relevant(ev, f) ==> Affected(ev, f)
    ensures |current.Keys| == |relevant| <==> forall f :: Relevant(ev, f) ==> Spokesman(ev, f).Some?
  {
    forall f ensures f in affected || f in current ==> f in relevant {
      AffectedIsRelevant(ev, f);
    }
    SameSize(affected, relevant);
    SameSize(current.Keys, relevant);
    assert affected == relevant <==> forall f :: f in relevant ==> f in affected;
    assert current.Keys == relevant <==> forall f :: f in relevant ==> f in current.Keys;
  }

  lemma AffectedVerdict(ev: Evidence, relevant: set<string>, affected: set<string>, current: map<string, Observation>,
                        h: Health)
    requires Built(ev, relevant, affected, current) && affected != {} && h.affected == affected
    requires h.state == if |affected| == |relevant| then Blocked else Degraded
    ensures Judged(ev, h)
  {
    LengthsDecide(ev, relevant, affected, current);
    var a :| a in affected;
    AffectedIsRelevant(ev, a);
    assert Affected(ev, a) && Relevant(ev, a);
  }

  lemma UnaffectedVerdict(ev: Evidence, relevant: set<string>, affected: set<string>, current: map<string, Observation>,
                          h: Health)
    requires Built(ev, relevant, affected, current) && affected == {}
    requires h.affected == {} && !h.state.Blocked? && !h.state.Degraded?
    requires h.state.Healthy? <==> relevant != {} && |current.Keys| == |relevant|
    ensures Judged(ev, h)
  {
    LengthsDecide(ev, relevant, affected, current);
    forall f ensures !Affected(ev, f) && !RouteBlocked(ev, f) {
      assert f !in affected;
    }
    assert relevant != {} <==> exists f :: Relevant(ev, f) by {
      if relevant != {} {
        var f :| f in relevant;
        assert Relevant(ev, f);
      }
    }
    forall f ensures Verified(ev, f) <==> Spokesman(ev, f).Some? {
      assert !Affected(ev, f);
    }
    assert h.state.Healthy? <==>
             (exists f :: Relevant(ev, f)) && forall f :: Relevant(ev, f) ==> Verified(ev, f) && !RouteBlocked(ev, f);
    assert forall f :: f in h.affected <==> Affected(ev, f);
  }

  method Judge(ev: Evidence) returns (h: Health)
    ensures Judged(ev, h) && WindowHolds(ev, h)
    ensures h.state.Validated? || h.state.Unknown? ==> h == ValidationOnly(ev.binding, ev.now)
  {
    var relevant, blocked := CollectRoutes(ev);
    var current := CollectFresh(ev, relevant);
    RelevantIsKeyed(ev, relevant);
    var failures := map f | f in current && !current[f].healthy :: current[f];
    var affected := blocked + failures.Keys;
    assert Built(ev, relevant.Keys, affected, current);
    if affected != {} {
      h := JudgeAffected(ev, relevant.Keys, affected, current, failures);
    } else {
      h := JudgeUnaffected(ev, relevant.Keys, affected, current);
    }
  }

  method JudgeAffected(ev: Evidence, relevant: set<string>, affected: set<string>, current: map<string, Observation>,
                       failures: map<string, Observation>)
    returns (h: Health)
    requires Built(ev, relevant, affected, current) && affected != {}
    requires failures == map f | f in current && !current[f].healthy :: current[f]
    ensures Judged(ev, h) && WindowHolds(ev, h) && (h.state.Blocked? || h.state.Degraded?)
  {
    var checkedAt, validUntil := Window(failures);
    h := Health(if |affected| == |relevant| then Blocked else Degraded, checkedAt, validUntil, affected);
    AffectedVerdict(ev, relevant, affected, current, h);
    forall f | Failing(ev, f) ensures validUntil.Some? && validUntil.value <= Spokesman(ev, f).value.validUntil {
      assert f in failures;
    }
  }

  method JudgeUnaffected(ev: Evidence, relevant: set<string>, affected: set<string>, current: map<string, Observation>)
    returns (h: Health)
    requires Built(ev, relevant, affected, current) && affected == {}
    ensures Judged(ev, h) && WindowHolds(ev, h)
    ensures h.state.Healthy? || h == ValidationOnly(ev.binding, ev.now)
  {
    if relevant == {} || |current.Keys| != |relevant| {
      h := ValidationOnly(ev.binding, ev.now);
      UnaffectedVerdict(ev, relevant, affected, current, h);
      return;
    }
    var checkedAt, validUntil := Window(current);
    h := Health(Healthy, checkedAt, validUntil, {});
    UnaffectedVerdict(ev, relevant, affected, current, h);
    LengthsDecide(ev, relevant, affected, current);
    HealthyWindow(ev, current, h);
  }

  lemma HealthyWindow(ev: Evidence, current: map<string, Observation>, h: Health)
    requires h.state.Healthy? && (exists f :: Relevant(ev, f)) && forall f :: Relevant(ev, f) ==> Spokesman(ev, f).Some?
    requires forall f :: Spokesman(ev, f).Some? ==> f in current && Spokesman(ev, f) == Some(current[f])
    requires forall f :: f in current ==> Spokesman(ev, f) == Some(current[f])
    requires h.validUntil.Some? ==> exists f :: f in current && h.validUntil == Some(current[f].validUntil)
    requires forall f :: f in current ==> h.checkedAt.Some? && h.checkedAt.value <= current[f].checkedAt
    requires forall f :: f in current ==> h.validUntil.Some? && h.validUntil.value <= current[f].validUntil
    ensures WindowHolds(ev, h)
  {
    var r :| Relevant(ev, r);
    assert r in current;
    var f :| f in current && h.validUntil == Some(current[f].validUntil);
    SpokesmanIsNewest(ev, |ev.observations|, f);
  }

  lemma RelevantIsKeyed(ev: Evidence, relevant: map<string, seq<Context>>)
    requires forall f, c :: Holds(relevant, f, c) <==> Backs(ev, f, c)
    requires forall f :: f in relevant ==> relevant[f] != []
    ensures forall f :: f in relevant <==> Relevant(ev, f)
  {
    forall f ensures f in relevant <==> Relevant(ev, f) {
      if f in relevant {
        assert Holds(relevant, f, relevant[f][0]);
      }
      if Relevant(ev, f) {
        var c :| Backs(ev, f, c);
        assert Holds(relevant, f, c);
      }
    }
  }
}
