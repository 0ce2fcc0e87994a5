/** Creating one generation: the gated admission, the registration and the
    runtime outcome (gitlab_supervisor_generation.rs and the shared create
    stages of pool_create.rs). */
module GitlabGeneration {
  import opened Int64
  import opened Lifecycle
  import opened Wrappers
  import opened FleetWorld
  import opened SupervisorAccess
  import opened PoolRegistration

  /** At most one row more; the rows that were there are where they were. */
  ghost predicate AtMostOneMore(w0: World, w1: World) {
    && |w0.gens| <= |w1.gens| <= |w0.gens| + 1
    && (forall x :: 0 <= x < |w0.gens| ==> SameRow(w0.gens[x], w1.gens[x]))
    && w1.anchors == w0.anchors
    && w1.head.tombstone == w0.head.tombstone
    && w1.anchorPosts == w0.anchorPosts
  }

  lemma NewRowMoves(w0: World, w1: World, w2: World)
    requires AtMostOneMore(w0, w1) && |w1.gens| == |w0.gens| + 1 && OnlyRow(w1, w2, |w0.gens|)
    ensures AtMostOneMore(w0, w2) && |w2.gens| == |w0.gens| + 1
  {
    forall x | 0 <= x < |w0.gens| ensures SameRow(w0.gens[x], w2.gens[x]) {
      assert SameRow(w0.gens[x], w1.gens[x]) && SameRow(w1.gens[x], w2.gens[x]);
    }
  }

  /** Others never raise a Fleet's occupancy. */
  lemma {:induction false} OthersNeverOccupy(before: seq<Generation>, after: seq<Generation>)
    requires |before| == |after| && forall x :: 0 <= x < |before| ==> SameRow(before[x], after[x])
    ensures Occupancy(after) <= Occupancy(before)
  {
    if before != [] {
      var n := |before| - 1;
      OthersNeverOccupy(before[..n], after[..n]);
      assert SameRow(before[n], after[n]);
    }
  }

  /** The row a create pass leaves behind. */
  predicate CreateResult(gen: Generation, created: bool) {
    if created
    then gen.state.WaitingOnline? && gen.op.Completed? && gen.result && gen.runner.Some? && gen.runner == gen.landed
    else gen.state in {CleanupRequired, Quarantined, Destroyed}
  }

  /** What a create is told by calls this model does not look into: whether the
      snapshot is the pinned one, the guarded insert is accepted, the workspace
      prepared, the token usable, the request built and the apply successful. */
  datatype Answers = Answers(pinned: bool, accepted: bool, prepared: bool, usable: bool, built: bool, applied: bool)

  /** There is room at the revision this supervisor was built for. */
  predicate Admissible(head: Head, gens: seq<Generation>, guard: Guard, max: int) {
    IsCurrent(head, guard) && !head.deleting && Occupancy(gens) < max
  }

  predicate AdmitsAll(head: Head, gens: seq<Generation>, guard: Guard, max: int, a: Answers) {
    Admissible(head, gens, guard, max) && a.pinned && a.accepted
  }

  /** Everything after the admission succeeds. */
  predicate ComesUp(a: Answers) {
    a.prepared && a.usable && a.built && a.applied
  }

  predicate GateIdle(w: World) {
    !w.gate.api && w.gate.others == 0
  }

  /** Undisturbed, what becomes of an admitted row: an unprepared one is never
      registered; a registered one serves exactly if everything succeeded. */
  predicate RunsExactly(w: World, guard: Guard, a: Answers, after: Generation, r: Reply<bool>) {
    if !a.prepared || !IsCurrent(w.head, guard) || w.head.deleting
    then after.state.CleanupRequired? && after.op.NoOp? && (if a.prepared then r == Ok(false) else r.Err?)
    else
      && after.posted && after.landed.Some?
      && if !(0 < after.landed.value <= I64_MAX) then after.state.Quarantined? && r.Err?
         else if a.usable && a.built && a.applied then CreateResult(after, true) && r == Ok(true)
         else after.state.CleanupRequired? && after.runner == after.landed &&
              (if a.usable && !a.built then r.Err? else r == Ok(false))
  }

  /** One create: true only for a generation whose registration is recorded
      and whose runtime returned; anything else that was inserted is on its
      way to cleanup. */
  method CreateOneGeneration(s: Supervisor, a: Answers) returns (r: Reply<bool>)
    requires s.Valid() && s.w.gate.held.Free?
    modifies s
    ensures s.Valid() && s.Continues() && s.w.gate.held.Free?
    ensures AtMostOneMore(old(s.w), s.w)
    ensures r.Ok? && r.value ==> |s.w.gens| == |old(s.w).gens| + 1
    ensures r.Ok? && |s.w.gens| > |old(s.w).gens| ==> CreateResult(s.w.gens[|old(s.w).gens|], r.value)
    ensures s.quiet && GateIdle(old(s.w)) ==> CreatesExactly(old(s.w), s.guard, s.maxRunners, a, s.w, r)
    ensures s.quiet && GateIdle(old(s.w)) ==> SameStand(old(s.w), s.w)
  {
    var admitted :- AdmitGeneration(s, a);
    if !admitted {
      return Ok(false);
    }
    ghost var w1 := s.w;
    r := RunGeneration(s, |s.w.gens| - 1, a);
    NewRowMoves(old(s.w), w1, s.w);
  }

  /** Undisturbed, a row is added exactly if there is room and every admission
      check agrees. */
  predicate CreatesExactly(w0: World, guard: Guard, max: int, a: Answers, w1: World, r: Reply<bool>) {
    if AdmitsAll(w0.head, w0.gens, guard, max, a)
    then |w1.gens| == |w0.gens| + 1 && RunsExactly(w0, guard, a, w1.gens[|w0.gens|], r)
    else w1 == w0 && r == Ok(false)
  }

  /** Reserves occupancy under the exclusive gate the Fleet writes take too. */
  method AdmitGeneration(s: Supervisor, a: Answers) returns (r: Reply<bool>)
    requires s.Valid() && s.w.gate.held.Free?
    modifies s
    ensures s.Valid() && s.Continues() && s.w.gate.held.Free?
    ensures AdmitResult(old(s.w), s.w, r)
    ensures s.quiet && GateIdle(old(s.w)) ==> AdmitsExactly(old(s.w), s.guard, s.maxRunners, a, s.w, r)
  {
    var gate := s.AcquireExclusively();
    if !gate.Ok? {
      return gate.PropagateFailure();
    }
    ghost var w1 := s.w;
    r := AdmitUnderGate(s, a);
    ghost var w2 := s.w;
    s.ReleaseGate();
    GateIsNeutral(old(s.w), w1, w2, s.w, r);
  }

  lemma GateIsNeutral(w0: World, w1: World, w2: World, w3: World, r: Reply<bool>)
    requires Rely(w0, w1.(gate := w1.gate.(held := Free))) && AdmitResult(w1, w2, r)
    requires w3 == w2.(gate := w2.gate.(held := Free))
    ensures AdmitResult(w0, w3, r)
  {
    forall x | 0 <= x < |w0.gens| ensures SameRow(w0.gens[x], w3.gens[x]) {
      assert SameRow(w0.gens[x], w1.gens[x]) && SameRow(w1.gens[x], w2.gens[x]);
    }
  }

  ghost predicate AdmitResult(w0: World, w1: World, r: Reply<bool>) {
    && AtMostOneMore(w0, w1)
    && (r == Ok(false) ==> |w1.gens| == |w0.gens|)
    && (r == Ok(true) ==> |w1.gens| == |w0.gens| + 1 && Admitted(w1.gens[|w0.gens|]))
  }

  predicate AdmitsExactly(w0: World, guard: Guard, max: int, a: Answers, w1: World, r: Reply<bool>) {
    && r == Ok(AdmitsAll(w0.head, w0.gens, guard, max, a))
    && w1.head == w0.head && w1.gate == w0.gate && w1.remote == w0.remote
    && (r == Ok(false) ==> w1 == w0)
  }

  predicate Admitted(gen: Generation) {
    gen.state.Creating? && gen.op.NoOp?
  }

  method AdmitUnderGate(s: Supervisor, a: Answers) returns (r: Reply<bool>)
    requires s.Valid() && s.w.gate.held.Exclusive?
    modifies s
    ensures s.Valid() && s.Continues() && s.w.gate.held.Exclusive?
    ensures AdmitResult(old(s.w), s.w, r)
    ensures s.quiet ==> AdmitsExactly(old(s.w), s.guard, s.maxRunners, a, s.w, r)
  {
    var admissible :- AdmissibleRevision(s, a.pinned);
    ghost var w1 := s.w;
    if !admissible || !a.accepted {
      return Ok(false);
    }
    var admitted := InsertAdmitted(s);
    RelyBefore(old(s.w), w1, s.w);
    var _ :- admitted;
    return Ok(true);
  }

  lemma RelyBefore(w0: World, w1: World, w2: World)
    requires Rely(w0, w1) && AtMostOneMore(w1, w2)
    ensures AtMostOneMore(w0, w2)
  {
    forall x | 0 <= x < |w0.gens| ensures SameRow(w0.gens[x], w2.gens[x]) {
      assert SameRow(w0.gens[x], w1.gens[x]) && SameRow(w1.gens[x], w2.gens[x]);
    }
  }

  /** The row, and its first advance. */
  method InsertAdmitted(s: Supervisor) returns (r: Reply<Unit>)
    requires s.Valid() && Enabled(s.w, Insert)
    modifies s
    ensures s.Valid() && s.Continues() && s.w.gate.held == old(s.w).gate.held && AtMostOneMore(old(s.w), s.w)
    ensures r.Ok? ==> |s.w.gens| == |old(s.w).gens| + 1 && Admitted(s.w.gens[|old(s.w).gens|])
    ensures s.quiet ==> r.Ok? && SameStand(old(s.w), s.w) && s.w.remote == old(s.w).remote
  {
    var _ :- InsertGeneration(s);
    ghost var w1 := s.w;
    r := s.AdvanceRow(|s.w.gens| - 1, Creating);
    NewRowMoves(old(s.w), w1, s.w);
  }

  /** Never borrows a newer revision with a supervisor built for an older one:
      a yes means an insertion is within the limit now in force. */
  method AdmissibleRevision(s: Supervisor, pinned: bool) returns (r: Reply<bool>)
    requires s.Valid() && s.w.gate.held.Exclusive?
    modifies s
    ensures s.Valid() && s.Continues() && Rely(old(s.w), s.w)
    ensures r == Ok(true) ==> Enabled(s.w, Insert)
    ensures s.quiet ==> s.w == old(s.w) && r == Ok(Admissible(s.w.head, s.w.gens, s.guard, s.maxRunners) && pinned)
  {
    ghost var w0 := s.w;
    s.Safety();
    var head :- s.CurrentHead();
    ghost var w1 := s.w;
    if head.None? || head.value.deleting {
      return Ok(false);
    }
    r := RoomLeft(s, pinned);
    RelyTransitive(w0, w1, s.w);
  }

  /** Under the gate the revision in force is the one this supervisor has. */
  method RoomLeft(s: Supervisor, pinned: bool) returns (r: Reply<bool>)
    requires s.Valid() && s.w.gate.held.Exclusive? && s.w.head.revision == s.guard.revision
    requires !s.w.head.deleting && !s.w.head.tombstone
    modifies s
    ensures s.Valid() && s.Continues() && Rely(old(s.w), s.w)
    ensures r == Ok(true) ==> Enabled(s.w, Insert)
    ensures s.quiet ==> s.w == old(s.w) && r == Ok(Occupancy(s.w.gens) < s.maxRunners && pinned)
  {
    var occupancy :- ReadOccupancy(s);
    if occupancy >= s.maxRunners || !pinned {
      return Ok(false);
    }
    InForce(s);
    return Ok(true);
  }

  /** The limit of the revision this supervisor was built for is the one in force. */
  lemma InForce(s: Supervisor)
    requires s.Valid() && !s.w.head.deleting && s.w.head.revision == s.guard.revision
    ensures MaxInForce(s.w.log) == s.maxRunners
  {
    s.Safety();
  }

  method ReadOccupancy(s: Supervisor) returns (r: Reply<nat>)
    requires s.Valid()
    modifies s
    ensures s.Valid() && s.Continues() && Rely(old(s.w), s.w)
    ensures r.Ok? ==> Occupancy(s.w.gens) <= r.value && r.value == Occupancy(old(s.w).gens)
    ensures s.quiet ==> r.Ok? && s.w == old(s.w)
  {
    var occupancy := Occupancy(s.w.gens);
    var failed: bool := *;
    var answered := s.Chance();
    s.Interfere();
    OthersNeverOccupy(old(s.w).gens, s.w.gens);
    if answered {
      return Ok(occupancy);
    }
    s.quiet := false;
    return if failed then Err else Crash;
  }

  method InsertGeneration(s: Supervisor) returns (r: Reply<Unit>)
    requires s.Valid() && Enabled(s.w, Insert)
    modifies s
    ensures s.Valid() && s.Continues() && AtMostOneMore(old(s.w), s.w) && s.w.gate.held == old(s.w).gate.held
    ensures r.Ok? ==> |s.w.gens| == |old(s.w).gens| + 1 && s.w.gens[|old(s.w).gens|] == NewGeneration
    ensures s.quiet ==> r.Ok? && s.w == Apply(old(s.w), Insert)
  {
    ghost var w1 := Apply(s.w, Insert);
    r := s.Call(Insert);
    if |s.w.gens| > |old(s.w).gens| {
      assert SameRow(w1.gens[|old(s.w).gens|], s.w.gens[|old(s.w).gens|]);
      assert forall x :: 0 <= x < |old(s.w).gens| ==> SameRow(w1.gens[x], s.w.gens[x]);
    }
  }

  /** From the admitted row to the recorded outcome, outside the gate. */
  method RunGeneration(s: Supervisor, g: GenId, a: Answers) returns (r: Reply<bool>)
    requires s.Valid() && s.w.gate.held.Free? && g < |s.w.gens| && Admitted(s.w.gens[g])
    modifies s
    ensures s.Valid() && s.Continues() && OnlyRow(old(s.w), s.w, g)
    ensures r.Ok? ==> CreateResult(s.w.gens[g], r.value)
    ensures s.quiet && GateIdle(old(s.w)) ==> RunsExactly(old(s.w), s.guard, a, s.w.gens[g], r)
    ensures s.quiet ==> SameStand(old(s.w), s.w)
  {
    if !a.prepared {
      r := CleanupError(s, g);
      return;
    }
    var material :- RegisterGeneration(s, g, a.usable);
    ghost var w1 := s.w;
    if material.None? {
      return Ok(false);
    }
    if a.built {
      r := RecordCreateOutcome(s, g, material.value, a.applied);
    } else {
      r := CleanupError(s, g);
    }
    OnlyRowTransitive(old(s.w), w1, s.w, g);
  }

  /** A failure before the runtime keeps its cleanup evidence and surfaces. */
  method CleanupError(s: Supervisor, g: GenId) returns (r: Reply<bool>)
    requires s.Valid() && g < |s.w.gens| && s.w.gens[g].state.Creating?
    requires !OpOpen(s.w.gens[g].op) || s.w.gens[g].runner.Some?
    modifies s
    ensures s.Valid() && s.Continues() && OnlyRow(old(s.w), s.w, g) && !r.Ok?
    ensures r.Err? ==> s.w.gens[g].state in {Creating, CleanupRequired}
    ensures s.quiet ==> r.Err? && s.w.gens[g] == Moved(old(s.w).gens[g], CleanupRequired)
    ensures s.quiet ==> SameStand(old(s.w), s.w)
  {
    var _ :- s.AdvanceRow(g, CleanupRequired);
    return Err;
  }

  predicate SameLanding(before: Generation, after: Generation) {
    after.posted == before.posted && after.landed == before.landed
  }

  /** The result first, then WaitingOnline: only a stored result lets recovery
      move a generation on to serving. */
  method RecordCreateOutcome(s: Supervisor, g: GenId, id: RunnerId, applied: bool) returns (r: Reply<bool>)
    requires s.Valid() && g < |s.w.gens| && RegisterResult(s.w.gens[g], Some(id))
    modifies s
    ensures s.Valid() && s.Continues() && OnlyRow(old(s.w), s.w, g)
    ensures r.Ok? ==> r.value == applied && CreateResult(s.w.gens[g], applied)
    ensures s.quiet ==> r.Ok? && s.w.gens[g].runner == Some(id) && SameLanding(old(s.w).gens[g], s.w.gens[g])
    ensures s.quiet && !applied ==> s.w.gens[g].state.CleanupRequired?
    ensures s.quiet ==> SameStand(old(s.w), s.w)
  {
    if applied {
      r := RecordResult(s, g, id);
    } else {
      var _ :- s.AdvanceRow(g, CleanupRequired);
      return Ok(false);
    }
  }

  method RecordResult(s: Supervisor, g: GenId, id: RunnerId) returns (r: Reply<bool>)
    requires s.Valid() && g < |s.w.gens| && RegisterResult(s.w.gens[g], Some(id))
    modifies s
    ensures s.Valid() && s.Continues() && OnlyRow(old(s.w), s.w, g)
    ensures r.Ok? ==> r.value && CreateResult(s.w.gens[g], true)
    ensures s.quiet ==> r.Ok? && s.w.gens[g].runner == Some(id) && SameLanding(old(s.w).gens[g], s.w.gens[g])
    ensures s.quiet ==> SameStand(old(s.w), s.w)
  {
    var _ :- StoreResult(s, g);
    ghost var w1 := s.w;
    var completed := s.Chance();
    if !completed {
      s.quiet := false;
      return Err;
    }
    r := StartServing(s, g);
    OnlyRowTransitive(old(s.w), w1, s.w, g);
  }

  method StartServing(s: Supervisor, g: GenId) returns (r: Reply<bool>)
    requires s.Valid() && g < |s.w.gens| && s.w.gens[g].state.Creating? && s.w.gens[g].runner.Some?
    modifies s
    ensures s.Valid() && s.Continues() && OnlyRow(old(s.w), s.w, g)
    ensures r.Ok? ==> r.value && s.w.gens[g] == Moved(old(s.w).gens[g], WaitingOnline)
    ensures s.quiet ==> r.Ok?
    ensures s.quiet ==> SameStand(old(s.w), s.w)
  {
    var _ :- s.AdvanceRow(g, WaitingOnline);
    return Ok(true);
  }

  method StoreResult(s: Supervisor, g: GenId) returns (r: Reply<Unit>)
    requires s.Valid() && Enabled(s.w, SetResult(g))
    modifies s
    ensures s.Valid() && s.Continues() && OnlyRow(old(s.w), s.w, g)
    ensures Written(old(s.w).gens[g], old(s.w).gens[g].(result := true), s.w.gens[g], r)
    ensures s.quiet ==> r.Ok? && s.w == Apply(old(s.w), SetResult(g))
  {
    r := s.Call(SetResult(g));
  }
}
