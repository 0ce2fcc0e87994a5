/** Forgejo's readiness decisions and pass. Recovery of an interrupted create is
    the same as at GitLab (forgejo_supervisor_readiness.rs, and observe_identity
    of runner_operation/forgejo.rs). */
module ForgejoReadiness {
  import opened Int64
  import opened Lifecycle
  import opened Wrappers
  import opened FleetWorld
  import opened SupervisorAccess
  import opened PoolRegistration
  import opened GitlabReadiness

  datatype RunnerStatus = OfflineRunner | IdleRunner | ActiveRunner | OtherStatus

  /** A runner as Forgejo lists it. `labels` are those it declared so far. */
  datatype ForgejoRunner = ForgejoRunner(
    id: nat, uuid: string, name: string, ephemeral: bool, status: RunnerStatus, labels: set<string>)
  {
    predicate IsKnown() { !status.OtherStatus? }

    predicate IsOwned(fleetLabels: set<string>) { ephemeral && IsKnown() && fleetLabels <= labels }
  }

  /** The identity recorded at registration. */
  datatype Identity = Identity(id: I64, uuid: string, name: string)

  datatype Sighting = Contradiction | Unseen | Sighted(runner: ForgejoRunner)

  /** Any part of the identity appears in this entry. */
  predicate Touches(r: ForgejoRunner, i: Identity) {
    r.id == i.id || r.uuid == i.uuid || r.name == i.name
  }

  predicate Agrees(r: ForgejoRunner, i: Identity) {
    r.id == i.id && r.uuid == i.uuid && r.name == i.name && r.ephemeral
  }

  /** How many entries touch the identity. */
  function Touching(view: seq<ForgejoRunner>, i: Identity): (n: nat)
    ensures n == 0 <==> forall r :: r in view ==> !Touches(r, i)
  {
    if view == [] then 0
    else
      assert view == view[..|view| - 1] + [view[|view| - 1]];
      Touching(view[..|view| - 1], i) + if Touches(view[|view| - 1], i) then 1 else 0
  }

  ghost predicate IsSighting(view: seq<ForgejoRunner>, i: Identity, s: Sighting) {
    && (s.Unseen? <==> Touching(view, i) == 0)
    && (s.Sighted? <==> Touching(view, i) == 1 && exists r :: r in view && Agrees(r, i))
    && (s.Sighted? ==> s.runner in view && Agrees(s.runner, i))
  }

  /** The recorded runner is sighted exactly when one entry touches the
      identity and that entry agrees with all of it; any other touch is a
      contradiction, wherever it stands in the inventory. */
  method ObserveIdentity(view: seq<ForgejoRunner>, i: Identity) returns (s: Sighting)
    ensures IsSighting(view, i, s)
  {
    s := Unseen;
    var n := 0;
    while n < |view|
      invariant n <= |view|
      invariant s.Unseen? ==> Touching(view[..n], i) == 0
      invariant s.Sighted? ==> Touching(view[..n], i) == 1 && s.runner in view[..n] && Agrees(s.runner, i)
      invariant !s.Contradiction?
    {
      var r := view[n];
      assert view[..n + 1][..n] == view[..n];
      if Touches(r, i) {
        if s.Sighted? || !Agrees(r, i) {
          TouchesOnlyAdd(view, n + 1, i);
          if s.Unseen? {
            OnlyTouchDisagrees(view, n, i);
          }
          return Contradiction;
        }
        s := Sighted(r);
      }
      n := n + 1;
    }
    assert view[..n] == view;
  }

  lemma {:induction false} TouchesOnlyAdd(view: seq<ForgejoRunner>, n: nat, i: Identity)
    requires n <= |view|
    ensures Touching(view[..n], i) <= Touching(view, i)
    decreases |view| - n
  {
    if n == |view| {
      assert view[..n] == view;
    } else {
      assert view[..n + 1][..n] == view[..n];
      TouchesOnlyAdd(view, n + 1, i);
    }
  }

  /** If the first touch disagrees, a single touch cannot be an agreeing one. */
  lemma OnlyTouchDisagrees(view: seq<ForgejoRunner>, n: nat, i: Identity)
    requires n < |view| && Touches(view[n], i) && !Agrees(view[n], i)
    ensures !(Touching(view, i) == 1 && exists r :: r in view && Agrees(r, i))
  {
    if r :| r in view && Agrees(r, i) {
      var k :| 0 <= k < |view| && view[k] == r;
      TwoTouches(view, if k < n then k else n, if k < n then n else k, i);
    }
  }

  lemma TwoTouches(view: seq<ForgejoRunner>, a: nat, b: nat, i: Identity)
    requires a < b < |view| && Touches(view[a], i) && Touches(view[b], i)
    ensures Touching(view, i) >= 2
  {
    assert view[..b][a] in view[..b];
    assert view[..b + 1][..b] == view[..b];
    TouchesOnlyAdd(view, b + 1, i);
  }

  // ---- Decisions ----

  function NextState(state: GenState, seen: Sighting, labels: set<string>, created: int, now: int): Option<GenState> {
    match seen
    case Contradiction => Some(Quarantined)
    case Unseen => Some(if state.WaitingOnline? then CleanupRequired else Retiring)
    case Sighted(runner) =>
      if !runner.IsKnown() || (runner.labels != {} && !runner.IsOwned(labels)) then Some(Quarantined)
      else if state.WaitingOnline? && runner.status.IdleRunner? && runner.IsOwned(labels) then Some(Idle)
      else if state.Idle? && runner.status.ActiveRunner? then Some(Busy)
      else if state.WaitingOnline? && Elapsed(created, now) >= READINESS_TIMEOUT_MS && !runner.status.ActiveRunner?
      then Some(CleanupRequired)
      else None
  }

  /** Every advance asked for is on the lifecycle diagram. A generation serves
      only behind an idle runner with the Fleet's labels, becomes Busy only
      from Idle behind an active one, and a known owned runner that is active
      is never retired, timed out or sent to cleanup. */
  lemma NextStateIsLegal(state: GenState, seen: Sighting, labels: set<string>, created: int, now: int)
    requires Serving(state)
    ensures var next := NextState(state, seen, labels, created, now);
            && (next.Some? ==> TransitionAllowed(state, next.value) && !PastRetiring(next.value) && !next.value.Destroyed?)
            && (next == Some(Idle) ==> state.WaitingOnline? && seen.Sighted? && seen.runner.IsOwned(labels))
            && (next == Some(Busy) ==> state.Idle? && seen.Sighted? && seen.runner.status.ActiveRunner?)
            && (seen.Sighted? && seen.runner.IsOwned(labels) && seen.runner.status.ActiveRunner? ==>
                  next == if state.Idle? then Some(Busy) else None)
            && (next.Some? && next.value in {Retiring, CleanupRequired} ==>
                  seen.Unseen? || (state.WaitingOnline? && Elapsed(created, now) >= READINESS_TIMEOUT_MS))
  {
  }

  // ---- The pass ----

  /** Observes one serving generation: the inventory first, then the runner itself. */
  method ObserveRunner(s: Supervisor, g: GenId, view: seq<ForgejoRunner>, detail: Option<seq<ForgejoRunner>>,
                       identity: Identity, labels: set<string>, created: int, now: int)
    returns (r: Reply<Unit>, ghost seen: Option<Sighting>)
    requires s.Valid() && s.provider.ForgejoPool? && g < |s.w.gens| && Serving(s.w.gens[g].state)
    modifies s
    ensures s.Valid() && s.Continues() && OnlyRow(old(s.w), s.w, g)
    ensures SameRegistration(old(s.w).gens[g], s.w.gens[g]) && LeftCreating(s.w.gens[g].state)
    ensures r.Ok? ==> RunnerFollowed(view, detail, seen, identity, labels, created, now, old(s.w).gens[g], s.w.gens[g])
  {
    seen := None;
    OnlyRowReflexive(s.w, g);
    if s.w.gens[g].runner.None? {
      r := MoveOn(s, g, Quarantined);
      return;
    }
    var sighting := ObserveIdentity(view, identity);
    if sighting.Unseen? {
      if detail.None? || identity.id < 0 {
        return Ok(Unit), None;
      }
      sighting := ObserveIdentity(detail.value, identity);
    }
    seen := Some(sighting);
    r := Follow(s, g, sighting, labels, created, now);
  }

  /** Without an identity the generation is isolated. The inventory's sighting
      counts if it touches the identity; otherwise the runner is read by
      itself, and without an answer the generation waits. */
  ghost predicate RunnerFollowed(view: seq<ForgejoRunner>, detail: Option<seq<ForgejoRunner>>, seen: Option<Sighting>,
                                 identity: Identity, labels: set<string>, created: int, now: int,
                                 before: Generation, after: Generation) {
    if before.runner.None? then SameRow(Moved(before, Quarantined), after)
    else if Touching(view, identity) == 0 && (detail.None? || identity.id < 0) then after == before
    else
      && seen.Some?
      && IsSighting(if Touching(view, identity) == 0 then detail.value else view, identity, seen.value)
      && StateFollowed(seen.value, labels, created, now, before, after)
  }

  predicate StateFollowed(seen: Sighting, labels: set<string>, created: int, now: int, before: Generation, after: Generation) {
    var next := NextState(before.state, seen, labels, created, now);
    SameRow(if next.Some? then Moved(before, next.value) else before, after)
  }

  method Follow(s: Supervisor, g: GenId, seen: Sighting, labels: set<string>, created: int, now: int)
    returns (r: Reply<Unit>)
    requires s.Valid() && s.provider.ForgejoPool? && g < |s.w.gens| && Serving(s.w.gens[g].state)
    modifies s
    ensures s.Valid() && s.Continues() && OnlyRow(old(s.w), s.w, g)
    ensures SameRegistration(old(s.w).gens[g], s.w.gens[g]) && LeftCreating(s.w.gens[g].state)
    ensures r.Ok? ==> StateFollowed(seen, labels, created, now, old(s.w).gens[g], s.w.gens[g])
  {
    var state := s.w.gens[g].state;
    NextStateIsLegal(state, seen, labels, created, now);
    var next := NextState(state, seen, labels, created, now);
    if next.None? {
      OnlyRowReflexive(s.w, g);
      return Ok(Unit);
    }
    r := MoveOn(s, g, next.value);
  }

  /** The pass over all generations: afterwards none is left in the create
      window, and none was registered by it. */
  method ReconcileReadiness(s: Supervisor, view: seq<ForgejoRunner>, labels: set<string>, identities: seq<Identity>,
                            created: seq<int>, now: int)
    returns (r: Reply<Unit>)
    requires s.Valid() && s.provider.ForgejoPool? && |created| == |identities| == |s.w.gens|
    modifies s
    ensures s.Valid() && s.Continues() && NeverRegisters(old(s.w), s.w)
    ensures r.Ok? ==> forall g :: 0 <= g < |s.w.gens| ==> LeftCreating(s.w.gens[g].state)
  {
    var _ :- s.ReadRows();
    var generations := s.w.gens;
    var g := 0;
    while g < |generations|
      invariant g <= |generations| == |s.w.gens| && s.Valid() && s.Continues()
      invariant NeverRegisters(old(s.w), s.w)
      invariant forall x :: 0 <= x < g ==> LeftCreating(s.w.gens[x].state)
      invariant forall x :: g <= x < |generations| ==> SameRow(generations[x], s.w.gens[x])
    {
      assert SameRow(generations[g], s.w.gens[g]);
      ghost var before := s.w;
      var detail: Option<seq<ForgejoRunner>> := *;
      var one, _ := ReconcileOne(s, g, view, detail, labels, identities[g], created[g], now);
      OnlyOneRowMoved(generations, before, s.w, g);
      var _ :- one;
      g := g + 1;
    }
    return Ok(Unit);
  }

  method ReconcileOne(s: Supervisor, g: GenId, view: seq<ForgejoRunner>, detail: Option<seq<ForgejoRunner>>,
                      labels: set<string>, identity: Identity, created: int, now: int)
    returns (r: Reply<Unit>, ghost seen: Option<Sighting>)
    requires s.Valid() && s.provider.ForgejoPool? && g < |s.w.gens|
    modifies s
    ensures s.Valid() && s.Continues() && OnlyRow(old(s.w), s.w, g)
    ensures s.w.gens[g].posted == old(s.w).gens[g].posted && s.w.gens[g].landed == old(s.w).gens[g].landed
    ensures r.Ok? ==> LeftCreating(s.w.gens[g].state)
    ensures r.Ok? ==> RowReconciled(view, detail, seen, identity, labels, created, now, old(s.w).gens[g], s.w.gens[g])
  {
    seen := None;
    OnlyRowReflexive(s.w, g);
    var state := s.w.gens[g].state;
    if state.CreatePending? {
      r := AbandonPending(s, g);
    } else if state.Creating? {
      ghost var inventory;
      r, inventory := RecoverCreate(s, g);
    } else if Serving(state) {
      r, seen := ObserveRunner(s, g, view, detail, identity, labels, created, now);
    } else {
      return Ok(Unit), None;
    }
  }

  /** What the pass does to a row, by the state it finds it in. */
  ghost predicate RowReconciled(view: seq<ForgejoRunner>, detail: Option<seq<ForgejoRunner>>, seen: Option<Sighting>,
                                identity: Identity, labels: set<string>, created: int, now: int,
                                before: Generation, after: Generation) {
    if before.state.CreatePending? then after == Moved(before, CleanupRequired)
    else if before.state.Creating? then RecoveredAs(before, after)
    else if Serving(before.state) then RunnerFollowed(view, detail, seen, identity, labels, created, now, before, after)
    else after == before
  }
}
