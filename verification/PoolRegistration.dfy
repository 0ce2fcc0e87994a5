/** At-most-once registration of a generation, and the settlement of an outcome
    that was lost. Both Pool backends run the same protocol; only the evidence
    differs (gitlab_supervisor_registration.rs, forgejo_supervisor_registration.rs). */
module PoolRegistration {
  import opened Int64
  import opened Lifecycle
  import opened Wrappers
  import opened FleetWorld
  import opened SupervisorAccess
  import opened RegistrationEvidence

  /** The reply to the registration request. */
  datatype Posted = Definite(id: RunnerId) | Uncertain | Failed | Died

  /** One registration request. Whatever the reply, it has either landed by
      now or never will. */
  method RegisterRunner(s: Supervisor, g: GenId) returns (r: Posted)
    requires s.Valid() && MayPost(s.w, g)
    modifies s
    ensures s.Valid() && s.Continues() && OnlyRow(old(s.w), s.w, g)
    ensures var before, after := old(s.w).gens[g], s.w.gens[g];
            after == before || after == before.(posted := true, landed := after.landed)
    ensures r.Definite? ==> s.w.gens[g].landed == Some(r.id)
    ensures s.quiet ==> r.Definite? && s.w == Apply(old(s.w), PostGeneration(g, Some(r.id)))
  {
    var landed: Option<RunnerId>, reply: nat := *, *;
    var sent := s.Chance();
    if s.calm {
      landed, reply := Some(s.w.nextId), 0;
    }
    if !sent {
      s.quiet := false;
      OnlyRowReflexive(s.w, g);
      return Died;
    }
    landed := Send(s, g, landed);
    ghost var w1 := s.w;
    s.Interfere();
    assert SameRow(w1.gens[g], s.w.gens[g]);
    assert OnlyRow(w1, s.w, g);
    OnlyRowTransitive(old(s.w), w1, s.w, g);
    if landed.Some? && reply == 0 {
      return Definite(landed.value);
    }
    s.quiet := false;
    return if reply == 1 then Died else if reply == 2 then Uncertain else Failed;
  }

  predicate MayPost(w: World, g: GenId) {
    g < |w.gens| && w.gens[g].state.Creating? && w.gens[g].op.Starting? && !w.gens[g].posted &&
    w.gate.held.Shared? && !w.head.deleting && !w.head.tombstone
  }

  lemma OnlyRowReflexive(w: World, g: GenId)
    ensures OnlyRow(w, w, g)
  {
  }

  /** The request reaches GitLab, where it lands under a fresh id or not at all. */
  method Send(s: Supervisor, g: GenId, choice: Option<RunnerId>) returns (landed: Option<RunnerId>)
    requires s.Valid() && MayPost(s.w, g)
    modifies s
    ensures s.Valid() && s.Continues() && OnlyRow(old(s.w), s.w, g)
    ensures s.w.gens[g] == old(s.w).gens[g].(posted := true, landed := landed)
    ensures s.w == Apply(old(s.w), PostGeneration(g, landed))
    ensures FreshId(old(s.w), choice) ==> landed == choice
  {
    landed := if FreshId(s.w, choice) then choice else None;
    s.Take(PostGeneration(g, landed));
  }

  /** The row of a generation whose registration is still open. */
  predicate Registering(gen: Generation) {
    gen.state.Creating? && OpOpen(gen.op)
  }

  /** The row once the registration question is answered: contradictory
      evidence isolates it with the intent blocked (an operator may have
      finalized it since), anything else cleans up with the intent closed. An
      id is written down exactly if one was found. */
  predicate ClassifiedAs(before: Generation, gen: Generation, e: Evidence) {
    match e
    case Contradictory => gen.state in {Quarantined, Destroyed} && gen.op.Blocked? && gen.runner == before.runner
    case Absent => gen == before.(state := CleanupRequired, op := Completed)
    case Exactly(id) => gen == before.(state := CleanupRequired, op := Completed, runner := Some(id))
  }

  /** Settles a registration whose outcome is unknown. It never entered the
      template runtime, so an exact candidate is recorded for cleanup only. */
  method ClassifyRegistration(s: Supervisor, g: GenId)
    returns (r: Reply<Unit>, ghost e: Evidence, ghost inventory: Option<World>)
    requires s.Valid() && g < |s.w.gens| && Registering(s.w.gens[g])
    modifies s
    ensures s.Valid() && s.Continues() && OnlyRow(old(s.w), s.w, g)
    ensures s.w.gens[g].posted == old(s.w).gens[g].posted && s.w.gens[g].landed == old(s.w).gens[g].landed
    ensures r.Ok? ==> ClassifiedAs(old(s.w).gens[g], s.w.gens[g], e)
    ensures inventory.Some? ==> Inv(inventory.value) && Rely(old(s.w), inventory.value)
    ensures r.Ok? ==> (e.Absent? <==> SawNothing(inventory, g))
    // An undisturbed classification knows what is there.
    ensures s.quiet ==> (e.Absent? <==> !NameTaken(old(s.w), g))
    ensures s.quiet && s.provider.GitlabPool? ==> TrueEvidence(old(s.w), g, e)
    ensures s.quiet && e.Absent? ==> r.Ok?
  {
    var found;
    found, inventory := Find(s, g);
    ghost var w1 := s.w;
    if !found.Ok? {
      return found.PropagateFailure(), Contradictory, inventory;
    }
    e := found.value;
    r := SettleAs(s, g, found.value);
    OnlyRowTransitive(old(s.w), w1, s.w, g);
  }

  method SettleAs(s: Supervisor, g: GenId, e: Evidence) returns (r: Reply<Unit>)
    requires s.Valid() && g < |s.w.gens| && Registering(s.w.gens[g])
    requires e.Absent? ==> Settled(s.w, g)
    requires e.Exactly? ==> s.w.gens[g].landed == Some(e.id)
    modifies s
    ensures s.Valid() && s.Continues() && OnlyRow(old(s.w), s.w, g)
    ensures s.w.gens[g].posted == old(s.w).gens[g].posted && s.w.gens[g].landed == old(s.w).gens[g].landed
    ensures r.Ok? ==> ClassifiedAs(old(s.w).gens[g], s.w.gens[g], e)
    ensures s.quiet && !e.Exactly? ==> r.Ok?
  {
    match e
    case Absent => r := CloseRegistration(s, g, CleanupRequired);
    case Contradictory => r := CloseRegistration(s, g, Quarantined);
    case Exactly(id) =>
      var _ :- s.SetRunnerRow(g, id);
      ghost var w1 := s.w;
      r := CloseRegistration(s, g, CleanupRequired);
      OnlyRowTransitive(old(s.w), w1, s.w, g);
  }

  /** Closes the intent before the row moves on: a crash in between leaves
      either an open intent or a proven answer. */
  method CloseRegistration(s: Supervisor, g: GenId, next: GenState) returns (r: Reply<Unit>)
    requires s.Valid() && g < |s.w.gens| && Registering(s.w.gens[g])
    requires next.Quarantined? || (next.CleanupRequired? && (s.w.gens[g].runner.Some? || Settled(s.w, g)))
    modifies s
    ensures s.Valid() && s.Continues() && OnlyRow(old(s.w), s.w, g)
    ensures s.w.gens[g].posted == old(s.w).gens[g].posted && s.w.gens[g].landed == old(s.w).gens[g].landed
    ensures r.Ok? ==> SameRow(Moved(Closed(old(s.w).gens[g], next), next), s.w.gens[g])
    ensures s.quiet ==> r.Ok?
  {
    var _ :- s.SetOpRow(g, if next.Quarantined? then Blocked else Completed);
    ghost var w1 := s.w;
    r := s.AdvanceRow(g, next);
    OnlyRowTransitive(old(s.w), w1, s.w, g);
  }

  function Closed(gen: Generation, next: GenState): Generation {
    gen.(op := if next.Quarantined? then Blocked else Completed)
  }

  /** What a completed registration leaves in the row. */
  predicate RegisterResult(gen: Generation, material: Option<RunnerId>) {
    match material
    case Some(id) =>
      gen.state.Creating? && gen.op.Completed? && gen.runner == Some(id) && gen.landed == Some(id) && !gen.result
    case None => gen.state in {CleanupRequired, Quarantined, Destroyed}
  }

  /** The row after a request that was answered. */
  predicate Answered(gen: Generation, usable: bool, r: Reply<Option<RunnerId>>) {
    && gen.posted && gen.landed.Some?
    && if 0 < gen.landed.value <= I64_MAX
       then gen.op.Completed? && gen.runner == gen.landed &&
            if usable then r == Ok(gen.runner) && gen.state.Creating? && !gen.result
            else r == Ok(None) && gen.state.CleanupRequired?
       else r.Err? && gen.state.Quarantined?
  }

  /** Undisturbed, the request is sent exactly if the head is current and not
      being deleted, and its answer is recorded. */
  predicate RegistersExactly(w: World, guard: Guard, before: Generation, after: Generation, usable: bool,
                             r: Reply<Option<RunnerId>>) {
    if IsCurrent(w.head, guard) && !w.head.deleting
    then Answered(after, usable, r)
    else r == Ok(None) && after == Moved(before, CleanupRequired)
  }

  /** Registers a freshly admitted generation: under a shared claim, after a
      fresh look at the head and after the durable intent. `usable` says whether
      a definite reply's token can be used. Material is handed out only for a registration whose id is recorded. */
  method RegisterGeneration(s: Supervisor, g: GenId, usable: bool) returns (r: Reply<Option<RunnerId>>)
    requires s.Valid() && s.w.gate.held.Free? && g < |s.w.gens|
    requires s.w.gens[g].state.Creating? && s.w.gens[g].op.NoOp?
    modifies s
    ensures s.Valid() && s.Continues() && OnlyRow(old(s.w), s.w, g)
    ensures r.Ok? ==> RegisterResult(s.w.gens[g], r.value)
    ensures s.quiet && !old(s.w).gate.api ==>
              RegistersExactly(old(s.w), s.guard, old(s.w).gens[g], s.w.gens[g], usable, r)
    ensures s.quiet ==> SameStand(old(s.w), s.w)
  {
    var claim := s.AcquireClaim();
    assert SameRow(old(s.w).gens[g], s.w.gens[g]);
    if !claim.Ok? {
      return claim.PropagateFailure();
    }
    ghost var w1 := s.w;
    r := RegisterUnderClaim(s, g, usable);
    ghost var w2 := s.w;
    s.ReleaseGate();
    ClaimIsNeutral(old(s.w), w1, w2, s.w, g);
  }

  lemma ClaimIsNeutral(w0: World, w1: World, w2: World, w3: World, g: GenId)
    requires Rely(w0, w1.(gate := w1.gate.(held := Free))) && OnlyRow(w1, w2, g) && w0.gate.held.Free?
    requires w3 == w2.(gate := w2.gate.(held := Free))
    ensures OnlyRow(w0, w3, g)
  {
    forall x | 0 <= x < |w0.gens| && x != g ensures SameRow(w0.gens[x], w3.gens[x]) {
      assert SameRow(w0.gens[x], w1.gens[x]) && SameRow(w1.gens[x], w2.gens[x]);
    }
  }

  method RegisterUnderClaim(s: Supervisor, g: GenId, usable: bool) returns (r: Reply<Option<RunnerId>>)
    requires s.Valid() && s.w.gate.held.Shared? && g < |s.w.gens|
    requires s.w.gens[g].state.Creating? && s.w.gens[g].op.NoOp?
    modifies s
    ensures s.Valid() && s.Continues() && OnlyRow(old(s.w), s.w, g)
    ensures r.Ok? ==> RegisterResult(s.w.gens[g], r.value)
    ensures s.quiet ==> RegistersExactly(old(s.w), s.guard, old(s.w).gens[g], s.w.gens[g], usable, r)
    ensures s.quiet ==> SameStand(old(s.w), s.w)
  {
    var head :- s.CurrentHead();
    assert SameRow(old(s.w).gens[g], s.w.gens[g]);
    ghost var w1 := s.w;
    if head.None? || head.value.deleting {
      r := GiveUp(s, g);
    } else {
      r := RegisterForHead(s, g, usable);
    }
    OnlyRowTransitive(old(s.w), w1, s.w, g);
  }

  predicate SameIdentity(before: Generation, after: Generation) {
    after.op == before.op && after.runner == before.runner
  }

  /** Nothing serves: the revision moved on, the Fleet is being deleted, or the
      token cannot be used. */
  method GiveUp(s: Supervisor, g: GenId) returns (r: Reply<Option<RunnerId>>)
    requires s.Valid() && g < |s.w.gens| && s.w.gens[g].state.Creating? && !OpOpen(s.w.gens[g].op)
    modifies s
    ensures s.Valid() && s.Continues() && OnlyRow(old(s.w), s.w, g)
    ensures r.Ok? ==> RegisterResult(s.w.gens[g], r.value) && SameIdentity(old(s.w).gens[g], s.w.gens[g])
    ensures s.quiet ==> r == Ok(None) && s.w.gens[g] == Moved(old(s.w).gens[g], CleanupRequired)
    ensures s.quiet ==> SameStand(old(s.w), s.w)
  {
    var _ :- s.AdvanceRow(g, CleanupRequired);
    return Ok(None);
  }

  method RegisterForHead(s: Supervisor, g: GenId, usable: bool) returns (r: Reply<Option<RunnerId>>)
    requires s.Valid() && s.w.gate.held.Shared? && !s.w.head.deleting && !s.w.head.tombstone
    requires g < |s.w.gens| && s.w.gens[g].state.Creating? && s.w.gens[g].op.NoOp?
    modifies s
    ensures s.Valid() && s.Continues() && OnlyRow(old(s.w), s.w, g)
    ensures r.Ok? ==> RegisterResult(s.w.gens[g], r.value)
    ensures s.quiet ==> Answered(s.w.gens[g], usable, r)
    ensures s.quiet ==> SameStand(old(s.w), s.w)
  {
    var reply :- IntendAndRegister(s, g);
    ghost var w1 := s.w;
    ghost var inventory;
    r, inventory := RecordRegistration(s, g, reply, usable);
    OnlyRowTransitive(old(s.w), w1, s.w, g);
  }

  /** A generation's registration as it is sent. */
  function SentAs(g: GenId): Registration {
    Registration(GenerationName(g), GenerationMarker(GenerationName(g)), true, false)
  }

  /** The durable intent, then the one request it stands for. */
  method IntendAndRegister(s: Supervisor, g: GenId) returns (r: Reply<Posted>)
    requires s.Valid() && s.w.gate.held.Shared? && !s.w.head.deleting && !s.w.head.tombstone
    requires g < |s.w.gens| && s.w.gens[g].state.Creating? && s.w.gens[g].op.NoOp?
    modifies s
    ensures s.Valid() && s.Continues() && OnlyRow(old(s.w), s.w, g)
    ensures r.Ok? ==> Registering(s.w.gens[g]) && s.w.gens[g].runner.None? && !s.w.gens[g].result
    ensures r.Ok? && r.value.Definite? ==> s.w.gens[g].landed == Some(r.value.id)
    ensures s.quiet ==> r.Ok? && r.value.Definite? && s.w.gens[g].posted
    ensures s.quiet ==> s.w.remote == old(s.w).remote[r.value.id := SentAs(g)] && SameStand(old(s.w), s.w)
  {
    s.Safety();
    assert RowCoherent(s.w, g);
    var _ :- s.Call(InsertOp(g));
    ghost var w1 := s.w;
    assert SameRow(Apply(old(s.w), InsertOp(g)).gens[g], w1.gens[g]);
    var reply := RegisterRunner(s, g);
    OnlyRowTransitive(old(s.w), w1, s.w, g);
    return Ok(reply);
  }

  /** Each reply has its own record; a lost one is classified by evidence. */
  ghost predicate Recorded(reply: Posted, before: Generation, gen: Generation, g: GenId, inventory: Option<World>) {
    match reply
    case Definite(id) => gen.op.Completed? && gen.runner == Some(id)
    case Uncertain => exists e :: ClassifiedAs(before, gen, e) && (e.Absent? <==> SawNothing(inventory, g))
    case Failed => ClassifiedAs(before, gen, Contradictory)
    case Died => false
  }

  /** On its way to cleanup without an id on record. */
  predicate LeftUnrecorded(gen: Generation) {
    gen.state.CleanupRequired? && gen.runner.None?
  }

  /** A registration leaves its row unrecorded exactly if the reply was lost
      and the inventory it was classified by shows nothing of the name. */
  lemma UnrecordedExactly(reply: Posted, before: Generation, gen: Generation, g: GenId, inventory: Option<World>)
    requires Recorded(reply, before, gen, g, inventory) && before.runner.None?
    ensures LeftUnrecorded(gen) <==> reply.Uncertain? && SawNothing(inventory, g)
  {
    if reply.Uncertain? {
      var e :| ClassifiedAs(before, gen, e) && (e.Absent? <==> SawNothing(inventory, g));
    }
  }

  /** What landed before such an inventory was gone by then. */
  lemma SawNothingIsGone(w: World, g: GenId, inventory: Option<World>)
    requires inventory.Some? && Inv(inventory.value) && Rely(w, inventory.value) && g < |w.gens|
    requires SawNothing(inventory, g)
    ensures Gone(inventory.value, g) && inventory.value.gens[g].landed == w.gens[g].landed
  {
    assert RowCoherent(inventory.value, g);
    assert SameRow(w.gens[g], inventory.value.gens[g]);
  }

  /** Writes down what the reply proves, the remote identity first. */
  method RecordRegistration(s: Supervisor, g: GenId, reply: Posted, usable: bool)
    returns (r: Reply<Option<RunnerId>>, ghost inventory: Option<World>)
    requires s.Valid() && g < |s.w.gens| && Registering(s.w.gens[g]) && !s.w.gens[g].result
    requires reply.Definite? ==> s.w.gens[g].landed == Some(reply.id)
    modifies s
    ensures s.Valid() && s.Continues() && OnlyRow(old(s.w), s.w, g)
    ensures r.Ok? ==> RegisterResult(s.w.gens[g], r.value)
    ensures r.Ok? ==> Recorded(reply, old(s.w).gens[g], s.w.gens[g], g, inventory)
    ensures inventory.Some? ==> Inv(inventory.value) && Rely(old(s.w), inventory.value)
    ensures s.quiet && reply.Definite? && old(s.w).gens[g].posted ==> Answered(s.w.gens[g], usable, r)
    ensures s.quiet && reply.Definite? ==> SameStand(old(s.w), s.w)
  {
    inventory := None;
    match reply
    case Died =>
      return Crash, None;
    case Uncertain =>
      var classified;
      ghost var evidence;
      classified, evidence, inventory := ClassifyRegistration(s, g);
      r := if classified.Ok? then Ok(None) else classified.PropagateFailure();
    case Failed =>
      var blocked := BlockRegistration(s, g);
      r := if blocked.Ok? then Ok(None) else blocked.PropagateFailure();
    case Definite(id) =>
      r := RecordDefinite(s, g, id, usable);
  }

  /** A reply that proves neither outcome closes nothing. */
  method BlockRegistration(s: Supervisor, g: GenId) returns (r: Reply<Unit>)
    requires s.Valid() && g < |s.w.gens| && Registering(s.w.gens[g])
    modifies s
    ensures s.Valid() && s.Continues() && OnlyRow(old(s.w), s.w, g)
    ensures r.Ok? ==> ClassifiedAs(old(s.w).gens[g], s.w.gens[g], Contradictory)
  {
    var _ :- s.SetOpRow(g, Blocked);
    ghost var w1 := s.w;
    r := s.AdvanceRow(g, Quarantined);
    OnlyRowTransitive(old(s.w), w1, s.w, g);
  }

  /** An id that no row can hold is isolated without closing the intent. */
  method RecordDefinite(s: Supervisor, g: GenId, id: RunnerId, usable: bool) returns (r: Reply<Option<RunnerId>>)
    requires s.Valid() && g < |s.w.gens| && Registering(s.w.gens[g]) && !s.w.gens[g].result
    requires s.w.gens[g].landed == Some(id)
    modifies s
    ensures s.Valid() && s.Continues() && OnlyRow(old(s.w), s.w, g)
    ensures r.Ok? ==> RegisterResult(s.w.gens[g], r.value) && s.w.gens[g].op.Completed? && s.w.gens[g].runner == Some(id)
    ensures s.quiet && old(s.w).gens[g].posted ==> Answered(s.w.gens[g], usable, r)
    ensures s.quiet ==> SameStand(old(s.w), s.w)
  {
    if !(0 < id <= I64_MAX) {
      var _ :- s.AdvanceRow(g, Quarantined);
      return Err;
    }
    r := RecordIdentity(s, g, id, usable);
  }

  method RecordIdentity(s: Supervisor, g: GenId, id: RunnerId, usable: bool) returns (r: Reply<Option<RunnerId>>)
    requires s.Valid() && g < |s.w.gens| && Registering(s.w.gens[g]) && !s.w.gens[g].result
    requires s.w.gens[g].landed == Some(id)
    modifies s
    ensures s.Valid() && s.Continues() && OnlyRow(old(s.w), s.w, g)
    ensures r.Ok? ==> RegisterResult(s.w.gens[g], r.value) && s.w.gens[g].op.Completed? && s.w.gens[g].runner == Some(id)
    ensures s.quiet && 0 < id <= I64_MAX && old(s.w).gens[g].posted ==> Answered(s.w.gens[g], usable, r)
    ensures s.quiet ==> SameStand(old(s.w), s.w)
  {
    s.Safety();
    assert RowCoherent(s.w, g);
    var saved := s.SetRunnerRow(g, id);
    ghost var w1 := s.w;
    if saved.Crash? {
      return Crash;
    }
    if saved.Err? {
      var _ :- s.AdvanceRow(g, Quarantined);
      OnlyRowTransitive(old(s.w), w1, s.w, g);
      return Err;
    }
    r := FinishRegistration(s, g, id, usable);
    OnlyRowTransitive(old(s.w), w1, s.w, g);
  }

  /** Closes the intent; a reply without a usable token is cleaned up. */
  method FinishRegistration(s: Supervisor, g: GenId, id: RunnerId, usable: bool) returns (r: Reply<Option<RunnerId>>)
    requires s.Valid() && g < |s.w.gens| && Registering(s.w.gens[g]) && !s.w.gens[g].result
    requires s.w.gens[g].landed == Some(id) && s.w.gens[g].runner == Some(id)
    modifies s
    ensures s.Valid() && s.Continues() && OnlyRow(old(s.w), s.w, g)
    ensures r.Ok? ==> RegisterResult(s.w.gens[g], r.value) && s.w.gens[g].op.Completed? && s.w.gens[g].runner == Some(id)
    ensures s.quiet && 0 < id <= I64_MAX && old(s.w).gens[g].posted ==> Answered(s.w.gens[g], usable, r)
    ensures s.quiet ==> SameStand(old(s.w), s.w)
  {
    var _ :- s.SetOpRow(g, Completed);
    ghost var w1 := s.w;
    if usable {
      return Ok(Some(id));
    }
    r := GiveUp(s, g);
    OnlyRowTransitive(old(s.w), w1, s.w, g);
  }
}
