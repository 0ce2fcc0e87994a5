/** Readiness decisions, claims and restart recovery
    (gitlab_supervisor_readiness.rs). */
module GitlabReadiness {
  import opened Int64
  import opened Lifecycle
  import opened Wrappers
  import opened FleetWorld
  import opened SupervisorAccess
  import opened PoolRegistration
  import opened RegistrationEvidence

  const READINESS_TIMEOUT_MS: int := 900_000

  /** What a pass saw of one generation's registration. */
  datatype Observation =
    | Contradicted
    | Missing
    | Seen(runner: RunnerRef, jobs: seq<JobId>)

  datatype Decision =
    | Move(next: GenState)
    | Claimed
    | Wait

  predicate Serving(s: GenState) {
    s.WaitingOnline? || s.Idle? || s.Busy?
  }

  function Decide(state: GenState, observed: Observation, created: int, now: int): Decision {
    match observed
    case Contradicted => Move(Quarantined)
    case Missing => if state.WaitingOnline? then Move(CleanupRequired) else Move(Retiring)
    case Seen(runner, jobs) =>
      if !runner.IsKnown() || |jobs| > 1 then Move(Quarantined)
      else if |jobs| == 1 then (if state.Busy? && runner.paused then Wait else Claimed)
      else if state.WaitingOnline? then
        if runner.IsOnlineIdle() && !runner.paused then Move(Idle)
        else if Elapsed(created, now) >= READINESS_TIMEOUT_MS && !runner.IsActive() then Move(CleanupRequired)
        else Wait
      else if state.Idle? then (if !runner.status.Online? || runner.paused then Move(Retiring) else Wait)
      else if state.Busy? && !runner.IsActive() then Move(Retiring)
      else Wait
  }

  /** Every advance a decision asks for is on the lifecycle diagram, and a
      claim can always be walked to Busy. */
  lemma DecideIsLegal(state: GenState, observed: Observation, created: int, now: int)
    requires Serving(state)
    ensures var d := Decide(state, observed, created, now);
            && (d.Move? ==> TransitionAllowed(state, d.next))
            && (d.Claimed? ==> state.Busy? || state.Idle? || TransitionAllowed(state, Idle))
            && (d.Move? ==> !d.next.Busy? && !PastRetiring(d.next) && !d.next.Destroyed?)
            && (d.Claimed? ==> observed.Seen?)
  {
  }

  /** A known registration running its one job is claimed or left alone: it is
      never retired, timed out or sent to cleanup. Conversely a claim means
      exactly one job is running. */
  lemma RunningJobIsKept(state: GenState, runner: RunnerRef, jobs: seq<JobId>, created: int, now: int)
    requires Serving(state)
    ensures var d := Decide(state, Seen(runner, jobs), created, now);
            && (runner.IsKnown() && |jobs| == 1 ==> !d.Move?)
            && (d.Claimed? ==> runner.IsKnown() && |jobs| == 1)
            && (d == Move(Idle) ==> state.WaitingOnline? && jobs == [] && runner.IsOnlineIdle() && !runner.paused)
            && (d.Move? && state.Busy? ==> !runner.IsKnown() || |jobs| > 1 || (jobs == [] && !runner.IsActive()))
  {
  }

  /** The registration and one row of another generation are untouched by
      recovery and readiness: nothing here registers. */
  ghost predicate NeverRegisters(w0: World, w1: World) {
    |w1.gens| == |w0.gens| && w1.anchorPosts == w0.anchorPosts &&
    forall x :: 0 <= x < |w0.gens| ==> w1.gens[x].posted == w0.gens[x].posted && w1.gens[x].landed == w0.gens[x].landed
  }

  predicate ClaimedAs(before: Generation, w: World, g: GenId, job: JobId)
    requires g < |w.gens|
  {
    if JobConflicts(before, job) then w.gens[g].state in {Quarantined, Destroyed}
    else w.gens[g].state.Busy? && PausedOrGone(w, g)
  }

  /** Persist the association, then pause, then move to Busy. */
  method Claim(s: Supervisor, g: GenId, job: JobId) returns (r: Reply<Unit>)
    requires s.Valid() && g < |s.w.gens| && Serving(s.w.gens[g].state) && s.w.gens[g].runner.Some?
    modifies s
    ensures s.Valid() && s.Continues() && OnlyRow(old(s.w), s.w, g)
    ensures s.w.gens[g].posted == old(s.w).gens[g].posted && s.w.gens[g].landed == old(s.w).gens[g].landed
    ensures LeftCreating(s.w.gens[g].state)
    ensures r.Ok? ==> (s.w.gens[g].state.Busy? && s.w.gens[g].job == Some(ClampJob(job))) ||
                      s.w.gens[g].state in {Quarantined, Destroyed}
    // Undisturbed, the registration takes no further job unless another was on record.
    ensures s.quiet ==> r.Ok? && ClaimedAs(old(s.w).gens[g], s.w, g, ClampJob(job))
  {
    var associated :- AssociateJob(s, g, job);
    if !associated {
      return Ok(Unit);
    }
    ghost var w1 := s.w;
    r := PauseThenBusy(s, g);
    OnlyRowTransitive(old(s.w), w1, s.w, g);
  }

  predicate SameRegistration(before: Generation, after: Generation) {
    after.posted == before.posted && after.landed == before.landed && after.runner == before.runner
  }

  /** A lost or contradicted association is never reconstructed: the
      generation is quarantined instead. */
  method AssociateJob(s: Supervisor, g: GenId, job: JobId) returns (r: Reply<bool>)
    requires s.Valid() && g < |s.w.gens| && Serving(s.w.gens[g].state)
    modifies s
    ensures s.Valid() && s.Continues() && OnlyRow(old(s.w), s.w, g)
    ensures SameRegistration(old(s.w).gens[g], s.w.gens[g])
    ensures LeftCreating(s.w.gens[g].state)
    ensures r.Ok? && r.value ==> Serving(s.w.gens[g].state) && s.w.gens[g].job == Some(ClampJob(job))
    ensures r.Ok? && !r.value ==> s.w.gens[g].state in {Quarantined, Destroyed}
    ensures s.quiet ==> r == Ok(!JobConflicts(old(s.w).gens[g], ClampJob(job)))
  {
    var associated := s.SetJobRow(g, ClampJob(job));
    JobWritten(old(s.w).gens[g], ClampJob(job), s.w.gens[g], associated);
    if associated.Ok? {
      return Ok(true);
    }
    if associated.Crash? {
      return Crash;
    }
    ghost var w1 := s.w;
    var _ :- Isolate(s, g);
    OnlyRowTransitive(old(s.w), w1, s.w, g);
    return Ok(false);
  }

  lemma JobWritten(before: Generation, job: JobId, after: Generation, r: Reply<Unit>)
    requires Serving(before.state) && Written(before, before.(job := Some(job)), after, r)
    ensures SameRegistration(before, after) && Serving(after.state)
    ensures r.Ok? ==> after.job == Some(job)
  {
  }

  method Isolate(s: Supervisor, g: GenId) returns (r: Reply<Unit>)
    requires s.Valid() && g < |s.w.gens| && Serving(s.w.gens[g].state)
    modifies s
    ensures s.Valid() && s.Continues() && OnlyRow(old(s.w), s.w, g)
    ensures SameRegistration(old(s.w).gens[g], s.w.gens[g]) && LeftCreating(s.w.gens[g].state)
    ensures r.Ok? ==> SameRow(Moved(old(s.w).gens[g], Quarantined), s.w.gens[g]) && s.w.gens[g].state in {Quarantined, Destroyed}
    ensures s.quiet ==> r.Ok?
  {
    r := MoveOn(s, g, Quarantined);
  }

  /** The pause is best effort: a lost one is repeated by the next pass. */
  method PauseThenBusy(s: Supervisor, g: GenId) returns (r: Reply<Unit>)
    requires s.Valid() && g < |s.w.gens| && Serving(s.w.gens[g].state)
    requires s.w.gens[g].job.Some? && s.w.gens[g].runner.Some?
    modifies s
    ensures s.Valid() && s.Continues() && OnlyRow(old(s.w), s.w, g)
    ensures s.w.gens[g] == old(s.w).gens[g].(state := s.w.gens[g].state) && Serving(s.w.gens[g].state)
    ensures r.Ok? ==> s.w.gens[g].state.Busy?
    ensures s.quiet ==> r.Ok? && PausedOrGone(s.w, g)
  {
    var paused := s.PauseRow(g);
    if paused.Crash? {
      return Crash;
    }
    ghost var w1 := s.w;
    r := WalkToBusy(s, g);
    OnlyRowTransitive(old(s.w), w1, s.w, g);
  }

  function ClampJob(job: JobId): JobId {
    if job > I64_MAX then I64_MAX else job
  }

  method WalkToBusy(s: Supervisor, g: GenId) returns (r: Reply<Unit>)
    requires s.Valid() && g < |s.w.gens| && Serving(s.w.gens[g].state) && s.w.gens[g].job.Some?
    modifies s
    ensures s.Valid() && s.Continues() && OnlyRow(old(s.w), s.w, g)
    ensures s.w.gens[g] == old(s.w).gens[g].(state := s.w.gens[g].state) && Serving(s.w.gens[g].state)
    ensures r.Ok? ==> s.w.gens[g].state.Busy?
    ensures s.quiet ==> r.Ok? && s.w.remote == old(s.w).remote
  {
    if !s.w.gens[g].state.WaitingOnline? {
      r := BecomeBusy(s, g);
      return;
    }
    var _ :- ServingStep(s, g, Idle);
    ghost var w1 := s.w;
    r := BecomeBusy(s, g);
    OnlyRowTransitive(old(s.w), w1, s.w, g);
  }

  method BecomeBusy(s: Supervisor, g: GenId) returns (r: Reply<Unit>)
    requires s.Valid() && g < |s.w.gens| && s.w.gens[g].state in {Idle, Busy} && s.w.gens[g].job.Some?
    modifies s
    ensures s.Valid() && s.Continues() && OnlyRow(old(s.w), s.w, g)
    ensures s.w.gens[g] == old(s.w).gens[g].(state := s.w.gens[g].state) && Serving(s.w.gens[g].state)
    ensures r.Ok? ==> s.w.gens[g].state.Busy?
    ensures s.quiet ==> r.Ok? && s.w.remote == old(s.w).remote
  {
    OnlyRowReflexive(s.w, g);
    if s.w.gens[g].state.Busy? {
      return Ok(Unit);
    }
    r := ServingStep(s, g, Busy);
  }

  /** One advance between the serving states. */
  method ServingStep(s: Supervisor, g: GenId, next: GenState) returns (r: Reply<Unit>)
    requires s.Valid() && g < |s.w.gens| && Serving(s.w.gens[g].state) && s.w.gens[g].job.Some?
    requires Serving(next) && TransitionAllowed(s.w.gens[g].state, next)
    modifies s
    ensures s.Valid() && s.Continues() && OnlyRow(old(s.w), s.w, g)
    ensures s.w.gens[g] == old(s.w).gens[g].(state := s.w.gens[g].state) && Serving(s.w.gens[g].state)
    ensures r.Ok? ==> s.w.gens[g].state == next
    ensures s.quiet ==> r.Ok? && s.w.remote == old(s.w).remote
  {
    r := s.AdvanceRow(g, next);
  }

  /** What a look at a recorded id is answered beyond the pass's inventory:
      the registration read by itself, if it is not listed, and its running
      jobs. The outer `None` is a failed read, the inner one an absence. */
  datatype Reads = Reads(direct: Option<Option<RunnerRef>>, jobs: Option<Option<seq<JobId>>>)

  /** The registration shown behind this id, listed or read. */
  function ShownAs(runners: seq<RunnerRef>, id: RunnerId, answers: Reads): (r: Option<RunnerRef>)
    ensures r.Some? ==> r.value.id == id
  {
    var listed := FindId(runners, id);
    if listed.Some? then listed
    else if answers.direct.Some? && answers.direct.value.Some? then Some(answers.direct.value.value.(id := id))
    else None
  }

  predicate ShownOpenly(runners: seq<RunnerRef>, id: RunnerId, answers: Reads) {
    ShownAs(runners, id, answers).Some? && answers.jobs.Some? && !ShownAs(runners, id, answers).value.OwnershipHidden()
  }

  predicate LookedAt(g: GenId, id: RunnerId, runners: seq<RunnerRef>, answers: Reads, seen: Option<Observation>) {
    var shown := ShownAs(runners, id, answers);
    var open := ShownOpenly(runners, id, answers);
    && (seen == Some(Contradicted) <==> open && !shown.value.IsOwnedGeneration(g))
    && (seen == Some(Missing) <==>
          || (shown.None? && answers.direct == Some(None))
          || (open && shown.value.IsOwnedGeneration(g) && answers.jobs == Some(None)))
    && (seen.Some? && seen.value.Seen? <==> open && shown.value.IsOwnedGeneration(g) && answers.jobs.value.Some?)
    && (seen.Some? && seen.value.Seen? ==> seen.value == Seen(shown.value, answers.jobs.value.value))
  }

  /** One look at the registration behind a recorded id. Absent, or gone by
      the time its jobs are read, it is missing; shown with its note but not
      this generation's, it contradicts; a hidden note and a failed read prove
      nothing. */
  method Look(g: GenId, id: RunnerId, runners: seq<RunnerRef>, answers: Reads) returns (seen: Option<Observation>)
    ensures LookedAt(g, id, runners, answers, seen)
  {
    var listed := FindId(runners, id);
    var runner := listed;
    if listed.None? {
      if answers.direct.None? {
        return None;
      }
      runner := if answers.direct.value.Some? then Some(answers.direct.value.value.(id := id)) else None;
    }
    if runner.None? {
      return Some(Missing);
    }
    if answers.jobs.None? || runner.value.OwnershipHidden() {
      return None;
    }
    if !runner.value.IsOwnedGeneration(g) {
      return Some(Contradicted);
    }
    if answers.jobs.value.None? {
      return Some(Missing);
    }
    return Some(Seen(runner.value, answers.jobs.value.value));
  }

  function FindId(runners: seq<RunnerRef>, id: RunnerId): (r: Option<RunnerRef>)
    ensures r.Some? ==> r.value in runners && r.value.id == id
    ensures r.None? ==> forall x :: x in runners ==> x.id != id
  {
    if runners == [] then None
    else if runners[0].id == id then Some(runners[0])
    else FindId(runners[1..], id)
  }

  /** Another registration goes by the generation's name. */
  predicate Duplicated(runners: seq<RunnerRef>, g: GenId, id: RunnerId) {
    exists x <- runners :: x.description == GenerationName(g) && x.id != id
  }

  /** Without an identity, or with two of its name, a generation is isolated;
      with nothing proven it waits; otherwise the decision is followed. */
  predicate ReadinessFollowed(g: GenId, runners: seq<RunnerRef>, answers: Reads, seen: Option<Observation>, created: int,
                              now: int, before: Generation, after: Generation) {
    if before.runner.None? || Duplicated(runners, g, before.runner.value) then SameRow(Moved(before, Quarantined), after)
    else
      && LookedAt(g, before.runner.value, runners, answers, seen)
      && if seen.None? then after == before
         else Followed(Decide(before.state, seen.value, created, now), seen.value, before, after)
  }

  /** Observes one generation that should be serving and acts on the decision. */
  method ObserveReadiness(s: Supervisor, g: GenId, runners: seq<RunnerRef>, answers: Reads, created: int, now: int)
    returns (r: Reply<Unit>, ghost seen: Option<Observation>)
    requires s.Valid() && g < |s.w.gens| && Serving(s.w.gens[g].state)
    modifies s
    ensures s.Valid() && s.Continues() && OnlyRow(old(s.w), s.w, g)
    ensures s.w.gens[g].posted == old(s.w).gens[g].posted && s.w.gens[g].landed == old(s.w).gens[g].landed
    ensures LeftCreating(s.w.gens[g].state)
    ensures r.Ok? ==> ReadinessFollowed(g, runners, answers, seen, created, now, old(s.w).gens[g], s.w.gens[g])
  {
    OnlyRowReflexive(s.w, g);
    var id := s.w.gens[g].runner;
    if id.None? || Duplicated(runners, g, id.value) {
      r := Isolate(s, g);
      return r, None;
    }
    var look := Look(g, id.value, runners, answers);
    if look.None? {
      return Ok(Unit), None;
    }
    r := ActOn(s, g, look.value, created, now);
    seen := look;
  }

  /** A decision was carried out: the row moved exactly as asked, or the one
      running job is on record and the generation Busy (or the association
      was contradicted and the generation isolated). */
  predicate Followed(d: Decision, seen: Observation, before: Generation, after: Generation) {
    match d
    case Move(next) => SameRow(Moved(before, next), after)
    case Wait => after == before
    case Claimed =>
      seen.Seen? && |seen.jobs| == 1 &&
      ((after.state.Busy? && after.job == Some(ClampJob(seen.jobs[0]))) || after.state in {Quarantined, Destroyed})
  }

  method MoveOn(s: Supervisor, g: GenId, next: GenState) returns (r: Reply<Unit>)
    requires s.Valid() && g < |s.w.gens| && Serving(s.w.gens[g].state)
    requires TransitionAllowed(s.w.gens[g].state, next) && (next.Busy? ==> s.provider.ForgejoPool?)
    modifies s
    ensures s.Valid() && s.Continues() && OnlyRow(old(s.w), s.w, g)
    ensures SameRegistration(old(s.w).gens[g], s.w.gens[g]) && LeftCreating(s.w.gens[g].state)
    ensures r.Ok? ==> SameRow(Moved(old(s.w).gens[g], next), s.w.gens[g])
    ensures s.quiet ==> r.Ok?
  {
    r := s.AdvanceRow(g, next);
    ServingMoved(old(s.w).gens[g], next, s.w.gens[g], r);
  }

  lemma ServingMoved(before: Generation, next: GenState, after: Generation, r: Reply<Unit>)
    requires Serving(before.state) && TransitionAllowed(before.state, next)
    requires Written(before, Moved(before, next), after, r)
    ensures SameRegistration(before, after) && LeftCreating(after.state)
    ensures r.Ok? ==> SameRow(Moved(before, next), after)
  {
  }

  method ActOn(s: Supervisor, g: GenId, seen: Observation, created: int, now: int) returns (r: Reply<Unit>)
    requires s.Valid() && g < |s.w.gens| && Serving(s.w.gens[g].state) && s.w.gens[g].runner.Some?
    modifies s
    ensures s.Valid() && s.Continues() && OnlyRow(old(s.w), s.w, g)
    ensures s.w.gens[g].posted == old(s.w).gens[g].posted && s.w.gens[g].landed == old(s.w).gens[g].landed
    ensures LeftCreating(s.w.gens[g].state)
    ensures r.Ok? ==> Followed(Decide(old(s.w).gens[g].state, seen, created, now), seen, old(s.w).gens[g], s.w.gens[g])
  {
    var state := s.w.gens[g].state;
    DecideIsLegal(state, seen, created, now);
    match Decide(state, seen, created, now)
    case Move(next) => r := MoveOn(s, g, next);
    case Wait =>
      OnlyRowReflexive(s.w, g);
      return Ok(Unit);
    case Claimed =>
      RunningJobIsKept(state, seen.runner, seen.jobs, created, now);
      r := Claim(s, g, seen.jobs[0]);
  }

  /** An open intent without an identity was classified; otherwise the intent
      is closed and the row serves or is cleaned up. */
  ghost predicate RecoveredAs(before: Generation, after: Generation) {
    if OpOpen(before.op) && before.runner.None? then exists e :: ClassifiedAs(before, after, e)
    else after == before.(state := if before.runner.Some? && before.result then WaitingOnline else CleanupRequired,
                          op := if OpOpen(before.op) then Completed else before.op)
  }

  /** The process died between the intent and any answer on record. */
  predicate Unanswered(gen: Generation) {
    OpOpen(gen.op) && gen.runner.None?
  }

  /** Restart recovery of a generation the process left in Creating. It never
      registers again: an open intent without an identity is classified, and
      only a stored result is evidence that the runtime returned. */
  method RecoverCreate(s: Supervisor, g: GenId) returns (r: Reply<Unit>, ghost inventory: Option<World>)
    requires s.Valid() && g < |s.w.gens| && s.w.gens[g].state.Creating?
    modifies s
    ensures s.Valid() && s.Continues() && OnlyRow(old(s.w), s.w, g)
    ensures s.w.gens[g].posted == old(s.w).gens[g].posted && s.w.gens[g].landed == old(s.w).gens[g].landed
    ensures r.Ok? ==> LeftCreating(s.w.gens[g].state) && RecoveredAs(old(s.w).gens[g], s.w.gens[g])
    // Recovering an open intent leaves no id exactly if its inventory shows nothing.
    ensures r.Ok? && Unanswered(old(s.w).gens[g]) ==> (LeftUnrecorded(s.w.gens[g]) <==> SawNothing(inventory, g))
    ensures inventory.Some? ==> Inv(inventory.value) && Rely(old(s.w), inventory.value)
    ensures s.quiet && Unanswered(old(s.w).gens[g]) && !NameTaken(old(s.w), g) ==> r.Ok? && LeftUnrecorded(s.w.gens[g])
  {
    inventory := None;
    OnlyRowReflexive(s.w, g);
    s.Safety();
    assert RowCoherent(s.w, g);
    var identity := s.w.gens[g].runner;
    if OpOpen(s.w.gens[g].op) {
      if identity.None? {
        ghost var evidence;
        r, evidence, inventory := ClassifyRegistration(s, g);
        return;
      }
      var _ :- s.SetOpRow(g, Completed);
    }
    ghost var w1 := s.w;
    var next := if identity.Some? && s.w.gens[g].result then WaitingOnline else CleanupRequired;
    r := s.AdvanceRow(g, next);
    OnlyRowTransitive(old(s.w), w1, s.w, g);
  }

  /** A row that never left CreatePending was never registered. */
  method AbandonPending(s: Supervisor, g: GenId) returns (r: Reply<Unit>)
    requires s.Valid() && g < |s.w.gens| && s.w.gens[g].state.CreatePending?
    modifies s
    ensures s.Valid() && s.Continues() && OnlyRow(old(s.w), s.w, g)
    ensures s.w.gens[g].posted == old(s.w).gens[g].posted && s.w.gens[g].landed == old(s.w).gens[g].landed
    ensures r.Ok? ==> s.w.gens[g] == Moved(old(s.w).gens[g], CleanupRequired)
  {
    s.Safety();
    assert RowCoherent(s.w, g);
    var _ :- s.AdvanceRow(g, Creating);
    ghost var w1 := s.w;
    r := s.AdvanceRow(g, CleanupRequired);
    OnlyRowTransitive(old(s.w), w1, s.w, g);
  }

  /** Readiness has nothing to say about this row. */
  predicate BeyondReadiness(gen: Generation) {
    LeftCreating(gen.state) && !Serving(gen.state)
  }

  /** The readiness pass. When it completes, no generation is left in the
      create window, whatever a crash had interrupted, and none was
      registered by it. */
  method ReconcileReadiness(s: Supervisor, runners: seq<RunnerRef>, created: seq<int>, now: int)
    returns (r: Reply<Unit>)
    requires s.Valid() && |created| == |s.w.gens|
    modifies s
    ensures s.Valid() && s.Continues() && NeverRegisters(old(s.w), s.w)
    ensures s.w.gate.held == old(s.w).gate.held && s.w.head.tombstone == old(s.w).head.tombstone
    ensures r.Ok? ==> forall g :: 0 <= g < |s.w.gens| ==> LeftCreating(s.w.gens[g].state)
    ensures (forall g :: 0 <= g < |old(s.w).gens| ==> BeyondReadiness(old(s.w).gens[g])) ==>
              s.w == old(s.w) && (s.quiet ==> r == Ok(Unit))
  {
    var _ :- s.ReadRows();
    var generations := s.w.gens;
    var g := 0;
    while g < |generations|
      invariant g <= |generations| == |s.w.gens| && s.Valid() && s.Continues()
      invariant NeverRegisters(old(s.w), s.w)
      invariant s.w.gate.held == old(s.w).gate.held && s.w.head.tombstone == old(s.w).head.tombstone
      invariant forall x :: 0 <= x < g ==> LeftCreating(s.w.gens[x].state)
      invariant forall x :: g <= x < |generations| ==> SameRow(generations[x], s.w.gens[x])
      invariant (forall x :: 0 <= x < |generations| ==> BeyondReadiness(generations[x])) ==>
                  s.w == old(s.w)
    {
      assert SameRow(generations[g], s.w.gens[g]);
      ghost var before := s.w;
      var answers: Reads := *;
      var one, _ := ReconcileOne(s, g, runners, answers, created[g], now);
      OnlyOneRowMoved(generations, before, s.w, g);
      var _ :- one;
      g := g + 1;
    }
    return Ok(Unit);
  }

  /** What the pass does to a row, by the state it finds it in. */
  ghost predicate Reconciled(g: GenId, runners: seq<RunnerRef>, answers: Reads, seen: Option<Observation>, created: int,
                             now: int, before: Generation, after: Generation) {
    if before.state.CreatePending? then after == Moved(before, CleanupRequired)
    else if before.state.Creating? then RecoveredAs(before, after)
    else if Serving(before.state) then ReadinessFollowed(g, runners, answers, seen, created, now, before, after)
    else after == before
  }

  method ReconcileOne(s: Supervisor, g: GenId, runners: seq<RunnerRef>, answers: Reads, created: int, now: int)
    returns (r: Reply<Unit>, ghost seen: Option<Observation>)
    requires s.Valid() && g < |s.w.gens|
    modifies s
    ensures s.Valid() && s.Continues() && OnlyRow(old(s.w), s.w, g)
    ensures s.w.gens[g].posted == old(s.w).gens[g].posted && s.w.gens[g].landed == old(s.w).gens[g].landed
    ensures r.Ok? ==> LeftCreating(s.w.gens[g].state)
    ensures r.Ok? ==> Reconciled(g, runners, answers, seen, created, now, old(s.w).gens[g], s.w.gens[g])
    ensures BeyondReadiness(old(s.w).gens[g]) ==> r == Ok(Unit) && s.w == old(s.w)
  {
    seen := None;
    OnlyRowReflexive(s.w, g);
    match s.w.gens[g].state
    case CreatePending => r := AbandonPending(s, g);
    case Creating =>
      ghost var inventory;
      r, inventory := RecoverCreate(s, g);
    case WaitingOnline => r, seen := ObserveReadiness(s, g, runners, answers, created, now);
    case Idle => r, seen := ObserveReadiness(s, g, runners, answers, created, now);
    case Busy => r, seen := ObserveReadiness(s, g, runners, answers, created, now);
    case _ => return Ok(Unit), None;
  }

  /** The other rows of a pass are where they were, up to finalization. */
  lemma OnlyOneRowMoved(snapshot: seq<Generation>, before: World, after: World, g: GenId)
    requires OnlyRow(before, after, g) && |snapshot| == |before.gens| && g < |snapshot|
    requires forall x :: g <= x < |snapshot| ==> SameRow(snapshot[x], before.gens[x])
    ensures forall x :: g < x < |snapshot| ==> SameRow(snapshot[x], after.gens[x])
    ensures forall x :: 0 <= x < g && LeftCreating(before.gens[x].state) ==> LeftCreating(after.gens[x].state)
    ensures forall x :: 0 <= x < |snapshot| && x != g ==>
              after.gens[x].posted == before.gens[x].posted && after.gens[x].landed == before.gens[x].landed
  {
    forall x | 0 <= x < |snapshot| && x != g
      ensures SameRow(before.gens[x], after.gens[x])
      ensures x > g ==> SameRow(snapshot[x], after.gens[x])
    {
    }
  }
}
