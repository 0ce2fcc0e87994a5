/** Retirement and hard expiry of a generation at GitLab: the durable intent,
    the busy-safe removal of the registration and the end of the row
    (runner_operation/destroy.rs, lifetime.rs and gitlab.rs). */
module GitlabRetirement {
  import opened Lifecycle
  import opened Wrappers
  import opened FleetWorld
  import opened FleetSafety
  import opened SupervisorAccess
  import opened PoolRegistration
  import opened RegistrationEvidence
  import opened PoolDriver

  /** The answer to one question about a registration. */
  datatype Verdict = Removable | ProvenGone | StillBusy | Unavailable | Unprovable | Unrecorded

  /** Row g and every other row are as they were, up to finalization. */
  ghost predicate Untouched(w0: World, w1: World, g: GenId)
    requires g < |w0.gens|
  {
    OnlyRow(w0, w1, g) && SameRow(w0.gens[g], w1.gens[g])
  }

  lemma UntouchedTransitive(a: World, b: World, c: World, g: GenId)
    requires g < |a.gens| && Untouched(a, b, g) && Untouched(b, c, g)
    ensures Untouched(a, c, g)
  {
    OnlyRowTransitive(a, b, c, g);
  }

  lemma RelyUntouched(w0: World, w1: World, g: GenId)
    requires Rely(w0, w1) && g < |w0.gens|
    ensures Untouched(w0, w1, g)
  {
    assert SameRow(w0.gens[g], w1.gens[g]);
  }

  /** A verdict of absence is true. */
  predicate Proven(w: World, g: GenId, v: Verdict) {
    g < |w.gens| && (v.ProvenGone? ==> Gone(w, g))
  }

  // ---- Questions ----

  /** One registration as GitLab shows it, or its absence. What is shown of it
      need not be true or complete, but counts as a disturbance if it is not. */
  method ReadRemote(s: Supervisor, id: RunnerId) returns (r: Reply<Option<RunnerRef>>)
    requires s.Valid()
    modifies s
    ensures s.Valid() && s.Continues() && Rely(old(s.w), s.w) && s.readings == old(s.readings)
    ensures r == Ok(None) ==> id !in old(s.w).remote
    ensures r.Ok? && r.value.Some? ==> r.value.value.id == id && id in old(s.w).remote
    ensures s.quiet ==> s.w == old(s.w) && r.Ok?
    ensures s.quiet && r.value.Some? ==> Shows(r.value.value, s.w.remote[id]) && !r.value.value.OwnershipHidden()
  {
    var crashed: bool, shown: RunnerRef := *, *;
    var answered := s.Chance();
    if s.calm && id in s.w.remote {
      shown := AsShown(id, s.w.remote[id]);
    }
    var read := if id in s.w.remote then Some(shown.(id := id)) else None;
    if !answered || (read.Some? && (!Shows(read.value, s.w.remote[id]) || read.value.OwnershipHidden())) {
      s.quiet := false;
    }
    s.Interfere();
    if !answered {
      return if crashed then Crash else Err;
    }
    return Ok(read);
  }

  /** Reads the registration behind the recorded id; a definite absence is a fact. */
  method ReadRegistration(s: Supervisor, g: GenId) returns (r: Reply<Option<RunnerRef>>)
    requires s.Valid() && g < |s.w.gens| && s.w.gens[g].runner.Some?
    modifies s
    ensures s.Valid() && s.Continues() && Untouched(old(s.w), s.w, g)
    ensures r == Ok(None) ==> Gone(s.w, g)
    ensures r.Ok? && r.value.Some? ==> Some(r.value.value.id) == old(s.w).gens[g].runner
    ensures s.readings == if r.Ok? && r.value.Some? then old(s.readings) + [Looked(g, r.value.value)] else old(s.readings)
    ensures s.quiet ==> s.w == old(s.w) && r.Ok? && (r.value.Some? <==> StillThere(s.w, g))
    ensures s.quiet && r.value.Some? ==> Shows(r.value.value, s.w.remote[r.value.value.id]) && !r.value.value.OwnershipHidden()
  {
    ghost var w0 := s.w;
    s.Safety();
    r := ReadRemote(s, s.w.gens[g].runner.value);
    RelyUntouched(w0, s.w, g);
    if r == Ok(None) {
      RecordedIsLanded(w0, g);
      GoneStable(w0, s.w, g);
    }
    if r.Ok? && r.value.Some? {
      s.readings := s.readings + [Looked(g, r.value.value)];
    }
  }

  lemma RecordedIsLanded(w: World, g: GenId)
    requires Inv(w) && g < |w.gens| && w.gens[g].runner.Some?
    ensures w.gens[g].landed == w.gens[g].runner
    ensures StillThere(w, g) ==> OwnGeneration(w.remote[w.gens[g].runner.value], g)
  {
    assert RowCoherent(w, g);
  }

  /** Reads the running jobs of the registration behind the recorded id. */
  method ReadJobs(s: Supervisor, g: GenId) returns (r: Reply<Option<seq<JobId>>>)
    requires s.Valid() && g < |s.w.gens| && s.w.gens[g].runner.Some?
    modifies s
    ensures s.Valid() && s.Continues() && Untouched(old(s.w), s.w, g)
    ensures r == Ok(None) ==> Gone(s.w, g)
    ensures s.readings == if r.Ok? && r.value.Some? then old(s.readings) + [ListedJobs(g, r.value.value)] else old(s.readings)
    ensures s.quiet ==> s.w == old(s.w) && r.Ok? && (r.value.Some? <==> StillThere(s.w, g))
  {
    ghost var w0 := s.w;
    s.Safety();
    RecordedIsLanded(w0, g);
    var present := s.w.gens[g].runner.value in s.w.remote;
    var crashed: bool, jobs: seq<JobId> := *, *;
    var answered := s.Chance();
    s.Interfere();
    if !present {
      GoneStable(w0, s.w, g);
    }
    if !answered {
      s.quiet := false;
      return if crashed then Crash else Err;
    }
    if !present {
      return Ok(None);
    }
    s.readings := s.readings + [ListedJobs(g, jobs)];
    return Ok(Some(jobs));
  }

  /** The recorded registration exists. */
  predicate StillThere(w: World, g: GenId) {
    g < |w.gens| && w.gens[g].runner.Some? && w.gens[g].runner.value in w.remote
  }

  datatype Observed = Runner(runner: RunnerRef) | Answer(verdict: Verdict)

  /** The exact registration behind a recorded identity, or the verdict that
      ends the question. Authority is checked before GitLab is asked. */
  method Observe(s: Supervisor, g: GenId) returns (r: Reply<Observed>)
    requires s.Valid() && g < |s.w.gens|
    modifies s
    ensures s.Valid() && s.Continues() && Untouched(old(s.w), s.w, g)
    ensures r.Ok? && r.value.Answer? ==> Proven(s.w, g, r.value.verdict) && !r.value.verdict.Removable?
    ensures r.Ok? && r.value.Runner? ==>
              old(s.w).gens[g].runner == Some(r.value.runner.id) && r.value.runner.IsOwnedGeneration(g) &&
              s.readings == old(s.readings) + [Looked(g, r.value.runner)]
    // A hidden note is never taken for a foreign one.
    ensures r == Ok(Answer(Unprovable)) ==> SeenForeign(s.readings, g)
    ensures s.quiet ==> s.w == old(s.w) && r.Ok? && ObservedExactly(s.w, s.guard, g, r.value)
  {
    if s.w.gens[g].runner.None? {
      return Ok(Answer(Unrecorded));
    }
    var head :- s.CurrentHead();
    ghost var w1 := s.w;
    if head.None? {
      return Ok(Answer(Unavailable));
    }
    var seen := ReadRegistration(s, g);
    UntouchedTransitive(old(s.w), w1, s.w, g);
    s.Safety();
    RecordedIsLanded(s.w, g);
    match seen
    case Crash => return Crash;
    case Err => return Ok(Answer(Unavailable));
    case Ok(None) => return Ok(Answer(ProvenGone));
    case Ok(Some(runner)) =>
      if runner.OwnershipHidden() {
        return Ok(Answer(Unavailable));
      }
      if !runner.IsOwnedGeneration(g) {
        return Ok(Answer(Unprovable));
      }
      return Ok(Runner(runner));
  }

  /** Undisturbed, the recorded registration is seen if it is there; its
      marker is then the Fleet's own. */
  predicate ObservedExactly(w: World, guard: Guard, g: GenId, o: Observed) {
    if g >= |w.gens| || w.gens[g].runner.None? then o == Answer(Unrecorded)
    else if !IsCurrent(w.head, guard) then o == Answer(Unavailable)
    else if !StillThere(w, g) then o == Answer(ProvenGone)
    else o.Runner?
  }

  /** Pausing decides nothing: a later pass rechecks. */
  method PauseRegistration(s: Supervisor, g: GenId) returns (r: Reply<Verdict>)
    requires s.Valid() && g < |s.w.gens| && s.w.gens[g].runner.Some?
    modifies s
    ensures s.Valid() && s.Continues() && Untouched(old(s.w), s.w, g)
    ensures r.Ok? ==> Proven(s.w, g, r.value) && !r.value.Removable?
    ensures s.quiet ==> r == Ok(if StillThere(old(s.w), g) then StillBusy else ProvenGone)
  {
    ghost var w0 := s.w;
    s.Safety();
    assert RowCoherent(w0, g);
    var present := s.w.gens[g].runner.value in s.w.remote;
    var paused := s.Call(PauseForRemoval(g));
    if !present {
      assert Apply(w0, PauseForRemoval(g)) == w0;
      GoneStable(w0, s.w, g);
    }
    match paused
    case Crash => return Crash;
    case Err => return Ok(Unavailable);
    case Ok(_) => return Ok(if present then StillBusy else ProvenGone);
  }

  /** Undisturbed, a registration that is there is removable or busy, and one
      that is not is known to be gone. */
  predicate DrainVerdict(w0: World, g: GenId, r: Reply<Verdict>, w1: World) {
    && (if StillThere(w0, g) then r in {Ok(Removable), Ok(StillBusy)} else r == Ok(ProvenGone))
    && (r == Ok(Removable) ==> w1 == w0)
  }

  /** Removal needs a registration already paused, no running job, and a
      second look: the pausing pass never also removes. */
  method PauseAndRecheck(s: Supervisor, g: GenId, runner: RunnerRef) returns (r: Reply<Verdict>)
    requires s.Valid() && g < |s.w.gens| && s.w.gens[g].runner == Some(runner.id)
    requires SeenOwned(s.readings, g) && s.readings[|s.readings| - 1].runner == runner
    modifies s
    ensures s.Valid() && s.Continues() && Untouched(old(s.w), s.w, g)
    ensures r.Ok? ==> Proven(s.w, g, r.value)
    ensures r == Ok(Removable) ==> SeenDrained(s.readings, g)
    ensures s.quiet ==> DrainVerdict(old(s.w), g, r, s.w)
  {
    if !runner.paused {
      r := PauseRegistration(s, g);
      return;
    }
    var read := ReadJobs(s, g);
    ghost var w1 := s.w;
    match read
    case Crash => return Crash;
    case Err => return Ok(Unavailable);
    case Ok(None) => return Ok(ProvenGone);
    case Ok(Some(jobs)) =>
      if jobs != [] {
        return Ok(StillBusy);
      }
      r := Recheck(s, g);
      UntouchedTransitive(old(s.w), w1, s.w, g);
  }

  method Recheck(s: Supervisor, g: GenId) returns (r: Reply<Verdict>)
    requires s.Valid() && g < |s.w.gens| && s.w.gens[g].runner.Some?
    modifies s
    ensures s.Valid() && s.Continues() && Untouched(old(s.w), s.w, g)
    ensures r.Ok? ==> Proven(s.w, g, r.value)
    ensures r == Ok(Removable) ==>
              && |s.readings| == |old(s.readings)| + 1 && s.readings[..|old(s.readings)|] == old(s.readings)
              && var again := s.readings[|old(s.readings)|];
                 again.Looked? && again.gen == g && again.runner.paused && again.runner.IsKnown() && !again.runner.IsActive()
    ensures s.quiet ==> DrainVerdict(old(s.w), g, r, s.w)
  {
    var read := ReadRegistration(s, g);
    ghost var w1 := s.w;
    match read
    case Crash => return Crash;
    case Err => return Ok(Unavailable);
    case Ok(None) => return Ok(ProvenGone);
    case Ok(Some(after)) =>
      if !after.paused {
        r := PauseRegistration(s, g);
        UntouchedTransitive(old(s.w), w1, s.w, g);
        return;
      }
      return Ok(if after.IsActive() || !after.IsKnown() then StillBusy else Removable);
  }

  predicate AdmitVerdict(w0: World, guard: Guard, g: GenId, r: Reply<Verdict>, w1: World) {
    if g >= |w0.gens| || w0.gens[g].runner.None? then r == Ok(Unrecorded) && w1 == w0
    else if !IsCurrent(w0.head, guard) then r == Ok(Unavailable)
    else DrainVerdict(w0, g, r, w1)
  }

  method AdmitUnderClaim(s: Supervisor, g: GenId, createStarted: bool) returns (r: Reply<Verdict>)
    requires s.Valid() && g < |s.w.gens|
    modifies s
    ensures s.Valid() && s.Continues() && Untouched(old(s.w), s.w, g)
    ensures r.Ok? ==> Proven(s.w, g, r.value)
    ensures r == Ok(Removable) ==> if createStarted then SeenDrained(s.readings, g) else SeenInactive(s.readings, g)
    ensures s.quiet ==> AdmitVerdict(old(s.w), s.guard, g, r, s.w)
  {
    var observed :- Observe(s, g);
    ghost var w1 := s.w;
    match observed
    case Answer(verdict) => return Ok(verdict);
    case Runner(runner) =>
      if !createStarted {
        return Ok(if runner.IsActive() then StillBusy else Removable);
      }
      r := PauseAndRecheck(s, g, runner);
      UntouchedTransitive(old(s.w), w1, s.w, g);
  }

  /** Deletes the exact registration; an answered delete is an absence. A
      registration whose token a job may hold has been seen drained. */
  method DeleteRegistration(s: Supervisor, g: GenId, busySafe: bool) returns (r: Reply<Verdict>)
    requires s.Valid() && g < |s.w.gens| && s.w.gens[g].runner.Some?
    requires if busySafe then SeenDrained(s.readings, g) else SeenOwned(s.readings, g)
    modifies s
    ensures s.Valid() && s.Continues() && Untouched(old(s.w), s.w, g)
    ensures r.Ok? ==> Proven(s.w, g, r.value) && !r.value.Removable? && !r.value.StillBusy?
    ensures s.quiet ==> r == Ok(ProvenGone)
  {
    ghost var w0 := s.w;
    s.Safety();
    assert RowCoherent(w0, g);
    var id := s.w.gens[g].runner.value;
    ghost var w1 := Apply(w0, Delete(id));
    StepKeepsInv(w0, Delete(id));
    var deleted := s.Call(Delete(id));
    if deleted.Ok? {
      GoneStable(w1, s.w, g);
    }
    match deleted
    case Crash => return Crash;
    case Err => return Ok(Unavailable);
    case Ok(_) => return Ok(ProvenGone);
  }

  /** Undisturbed, a removal leaves the registration gone unless it is busy. */
  predicate RemoveVerdict(w: World, guard: Guard, g: GenId, busySafe: bool, r: Reply<Verdict>) {
    if g >= |w.gens| || w.gens[g].runner.None? then r == Ok(Unrecorded)
    else if !IsCurrent(w.head, guard) then r == Ok(Unavailable)
    else r == Ok(ProvenGone) || (busySafe && StillThere(w, g) && r == Ok(StillBusy))
  }

  method RemoveUnderClaim(s: Supervisor, g: GenId, busySafe: bool) returns (r: Reply<Verdict>)
    requires s.Valid() && g < |s.w.gens|
    modifies s
    ensures s.Valid() && s.Continues() && Untouched(old(s.w), s.w, g)
    ensures r.Ok? ==> Proven(s.w, g, r.value)
    ensures s.quiet ==> RemoveVerdict(old(s.w), s.guard, g, busySafe, r)
  {
    var observed :- Observe(s, g);
    ghost var w1 := s.w;
    match observed
    case Answer(verdict) => return Ok(verdict);
    case Runner(runner) =>
      var checked := Ok(Removable);
      if busySafe {
        checked := PauseAndRecheck(s, g, runner);
        UntouchedTransitive(old(s.w), w1, s.w, g);
      }
      if checked != Ok(Removable) {
        return checked;
      }
      ghost var w2 := s.w;
      r := DeleteRegistration(s, g, busySafe);
      UntouchedTransitive(old(s.w), w2, s.w, g);
  }

  ghost function AbsenceVerdict(w: World, guard: Guard, g: GenId): Verdict {
    if !IsCurrent(w.head, guard) then Unavailable
    else if NameTaken(w, g) then Unprovable
    else ProvenGone
  }

  /** A faithful inventory without the name proves the registration absent,
      unless an open intent may still be behind it. */
  method ProveAbsentUnderClaim(s: Supervisor, g: GenId) returns (r: Reply<Verdict>)
    requires s.Valid() && g < |s.w.gens|
    modifies s
    ensures s.Valid() && s.Continues() && Untouched(old(s.w), s.w, g)
    ensures r.Ok? ==> Proven(s.w, g, r.value) && r.value in {ProvenGone, Unavailable, Unprovable}
    ensures s.quiet ==> s.w == old(s.w) && r == Ok(AbsenceVerdict(s.w, s.guard, g))
  {
    var head :- s.CurrentHead();
    ghost var w1 := s.w;
    if head.None? {
      return Ok(Unavailable);
    }
    var listed, at := s.ListRunners();
    assert Untouched(w1, at, g);
    UntouchedTransitive(old(s.w), w1, s.w, g);
    match listed
    case Crash => return Crash;
    case Err => return Ok(Unavailable);
    case Ok(view) =>
      if s.quiet {
        InventoryDecides(view, at, g);
      }
      if Named(view, g) != [] {
        return Ok(Unprovable);
      }
      NothingNamedIsGone(view, at, g);
      GoneStable(at, s.w, g);
      return Ok(ProvenGone);
  }

  // ---- Under the shared claim ----

  datatype Question = Admit(createStarted: bool) | Remove(busySafe: bool) | ProveAbsent

  /** What an undisturbed question is answered. */
  ghost predicate AnsweredExactly(w0: World, guard: Guard, g: GenId, q: Question, r: Reply<Verdict>, w1: World) {
    match q
    case Admit(_) => AdmitVerdict(w0, guard, g, r, w1)
    case Remove(busySafe) => RemoveVerdict(w0, guard, g, busySafe, r)
    case ProveAbsent =>
      g < |w0.gens| && w1 == w0 && r == Ok(if OpOpen(w0.gens[g].op) then Unprovable else AbsenceVerdict(w0, guard, g))
  }

  /** Every question is asked under a shared claim of its own. */
  method Ask(s: Supervisor, g: GenId, q: Question) returns (r: Reply<Verdict>)
    requires s.Valid() && s.w.gate.held.Free? && g < |s.w.gens|
    modifies s
    ensures s.Valid() && s.Continues() && Untouched(old(s.w), s.w, g)
    ensures r.Ok? ==> Proven(s.w, g, r.value)
    ensures q.ProveAbsent? && r.Ok? ==> r.value in {ProvenGone, Unavailable, Unprovable}
    ensures s.quiet && !old(s.w).gate.api ==> AnsweredExactly(old(s.w), s.guard, g, q, r, s.w)
  {
    OnlyRowReflexive(s.w, g);
    if q.ProveAbsent? && OpOpen(s.w.gens[g].op) {
      return Ok(Unprovable);
    }
    var claim := s.AcquireClaim();
    if !claim.Ok? {
      RelyUntouched(old(s.w), s.w, g);
      return claim.PropagateFailure();
    }
    ghost var w1 := s.w;
    r := AskUnderClaim(s, g, q);
    ghost var w2 := s.w;
    s.ReleaseGate();
    ClaimedQuestion(old(s.w), w1, w2, s.w, g);
    if s.quiet && !old(s.w).gate.api {
      ClaimedAnswer(old(s.w), w1, w2, s.w, s.guard, g, q, r);
    }
  }

  method AskUnderClaim(s: Supervisor, g: GenId, q: Question) returns (r: Reply<Verdict>)
    requires s.Valid() && g < |s.w.gens| && (q.ProveAbsent? ==> !OpOpen(s.w.gens[g].op))
    modifies s
    ensures s.Valid() && s.Continues() && Untouched(old(s.w), s.w, g)
    ensures r.Ok? ==> Proven(s.w, g, r.value)
    ensures q.ProveAbsent? && r.Ok? ==> r.value in {ProvenGone, Unavailable, Unprovable}
    ensures s.quiet ==> AnsweredExactly(old(s.w), s.guard, g, q, r, s.w)
  {
    match q
    case Admit(createStarted) => r := AdmitUnderClaim(s, g, createStarted);
    case Remove(busySafe) => r := RemoveUnderClaim(s, g, busySafe);
    case ProveAbsent => r := ProveAbsentUnderClaim(s, g);
  }

  /** The claim changes no answer. */
  lemma ClaimedAnswer(w0: World, w1: World, w2: World, w3: World, guard: Guard, g: GenId, q: Question, r: Reply<Verdict>)
    requires w0.gate.held.Free? && w1 == Apply(w0, AcquireShared) && w3 == w2.(gate := w2.gate.(held := Free))
    requires AnsweredExactly(w1, guard, g, q, r, w2)
    ensures AnsweredExactly(w0, guard, g, q, r, w3)
  {
  }

  lemma ClaimedQuestion(w0: World, w1: World, w2: World, w3: World, g: GenId)
    requires Rely(w0, w1.(gate := w1.gate.(held := Free))) && g < |w0.gens| && Untouched(w1, w2, g)
    requires w0.gate.held.Free? && w3 == w2.(gate := w2.gate.(held := Free))
    ensures Untouched(w0, w3, g)
  {
    var free := w1.(gate := w1.gate.(held := Free));
    RelyUntouched(w0, free, g);
    assert Untouched(free, w3, g);
    UntouchedTransitive(w0, free, w3, g);
  }

  // ---- The destroy chain ----

  /** Everything but the ledger is as it was. */
  predicate SameOutside(w0: World, w1: World) {
    w1.head == w0.head && w1.remote == w0.remote && w1.gate == w0.gate
  }

  /** Position on the destroy chain. */
  function Rank(s: GenState): Option<nat> {
    match s
    case Creating => Some(0)
    case WaitingOnline => Some(0)
    case Idle => Some(1)
    case Busy => Some(1)
    case CleanupRequired => Some(1)
    case Retiring => Some(2)
    case DestroyPending => Some(3)
    case Destroying => Some(4)
    case _ => None
  }

  function ChainNext(s: GenState): GenState {
    match s
    case Creating => CleanupRequired
    case WaitingOnline => CleanupRequired
    case Idle => Retiring
    case Busy => Retiring
    case CleanupRequired => Retiring
    case Retiring => DestroyPending
    case _ => Destroying
  }

  /** Each link of the chain is on the lifecycle diagram and one rank further. */
  lemma ChainIsLegal(s: GenState)
    requires Rank(s).Some? && Rank(s).value < 4
    ensures TransitionAllowed(s, ChainNext(s)) && Rank(ChainNext(s)) == Some(Rank(s).value + 1)
  {
  }

  predicate AtMostOneLink(from: GenState, to: GenState) {
    to == from || to == ChainNext(from)
  }

  /** Only the state of row g moved; its registration record is as it was. */
  ghost predicate OnlyMoved(w0: World, w1: World, g: GenId)
    requires g < |w0.gens|
  {
    && OnlyRow(w0, w1, g)
    && w1.gens[g] == w0.gens[g].(state := w1.gens[g].state, everQuarantined := w1.gens[g].everQuarantined)
  }

  lemma OnlyMovedTransitive(a: World, b: World, c: World, g: GenId)
    requires g < |a.gens| && OnlyMoved(a, b, g) && OnlyMoved(b, c, g)
    ensures OnlyMoved(a, c, g)
  {
    OnlyRowTransitive(a, b, c, g);
  }

  /** The registration is gone, or a hard expiry has it removed afterwards. */
  predicate MayPassRetiring(w: World, g: GenId)
    requires g < |w.gens|
  {
    Gone(w, g) || w.gens[g].expiring
  }

  method Link(s: Supervisor, g: GenId) returns (r: Reply<Unit>)
    requires s.Valid() && g < |s.w.gens|
    requires Rank(s.w.gens[g].state).Some? && Rank(s.w.gens[g].state).value < 4
    requires s.w.gens[g].state.Creating? ==> s.w.gens[g].runner.Some?
    requires Rank(s.w.gens[g].state).value >= 2 ==> MayPassRetiring(s.w, g)
    modifies s
    ensures s.Valid() && s.Continues() && OnlyMoved(old(s.w), s.w, g)
    ensures !s.w.gens[g].everQuarantined
    ensures old(Gone(s.w, g)) ==> Gone(s.w, g)
    ensures r.Ok? ==> s.w.gens[g].state == ChainNext(old(s.w).gens[g].state)
    ensures AtMostOneLink(old(s.w).gens[g].state, s.w.gens[g].state)
    ensures s.quiet ==> r.Ok? && SameOutside(old(s.w), s.w)
  {
    s.Safety();
    assert RowCoherent(s.w, g);
    var state := s.w.gens[g].state;
    ChainIsLegal(state);
    var next := ChainNext(state);
    if PastRetiring(next) {
      r := s.EndRow(g, next);
    } else {
      r := LinkBefore(s, g, next);
    }
  }

  method LinkBefore(s: Supervisor, g: GenId, next: GenState) returns (r: Reply<Unit>)
    requires s.Valid() && g < |s.w.gens| && TransitionAllowed(s.w.gens[g].state, next)
    requires next.CleanupRequired? || next.Retiring?
    requires s.w.gens[g].state.Creating? ==> s.w.gens[g].runner.Some?
    modifies s
    ensures s.Valid() && s.Continues() && OnlyRow(old(s.w), s.w, g)
    ensures Written(old(s.w).gens[g], Moved(old(s.w).gens[g], next), s.w.gens[g], r)
    ensures old(Gone(s.w, g)) ==> Gone(s.w, g)
    ensures s.quiet ==> r.Ok? && SameOutside(old(s.w), s.w)
  {
    s.Safety();
    assert RowCoherent(s.w, g);
    GoneOnlyShrinks(s.w, g, next);
    r := s.Call(Advance(g, next));
  }

  /** The state stayed, or moved along the chain, not beyond this rank. */
  predicate Onward(from: GenState, to: GenState, until: nat) {
    && Rank(from).Some? && Rank(to).Some?
    && (to == from || (Rank(from).value < Rank(to).value <= until && !to.Creating?))
  }

  lemma OnwardLink(from: GenState, mid: GenState, to: GenState, until: nat)
    requires Onward(from, mid, until) && Rank(mid).value < until <= 4 && AtMostOneLink(mid, to)
    ensures Onward(from, to, until)
  {
  }

  /** Where a walk that started in w0 may be. */
  ghost predicate Walked(w0: World, w: World, g: GenId, until: nat) {
    && g < |w0.gens| && OnlyMoved(w0, w, g)
    && Onward(w0.gens[g].state, w.gens[g].state, until)
    && (Gone(w0, g) ==> Gone(w, g))
  }

  predicate MayWalk(w: World, g: GenId, until: nat) {
    && g < |w.gens| && until <= 4 && Rank(w.gens[g].state).Some?
    && (w.gens[g].state.Creating? ==> w.gens[g].runner.Some?)
    && (until > 2 ==> MayPassRetiring(w, g))
  }

  method WalkOne(s: Supervisor, g: GenId, until: nat, ghost w0: World) returns (r: Reply<Unit>)
    requires s.Valid() && MayWalk(w0, g, until) && Walked(w0, s.w, g, until)
    requires Rank(s.w.gens[g].state).value < until
    modifies s
    ensures s.Valid() && s.Continues() && Walked(w0, s.w, g, until)
    ensures r.Ok? ==> Rank(s.w.gens[g].state).value == Rank(old(s.w).gens[g].state).value + 1
    ensures s.quiet ==> r.Ok? && SameOutside(old(s.w), s.w)
  {
    ghost var before := s.w;
    ChainIsLegal(s.w.gens[g].state);
    r := Link(s, g);
    OnlyMovedTransitive(w0, before, s.w, g);
    OnwardLink(w0.gens[g].state, before.gens[g].state, s.w.gens[g].state, until);
  }

  /** Advances along the chain until it has this rank; a row already there is
      left alone. */
  method Walk(s: Supervisor, g: GenId, until: nat) returns (r: Reply<Unit>)
    requires s.Valid() && MayWalk(s.w, g, until)
    modifies s
    ensures s.Valid() && s.Continues() && Walked(old(s.w), s.w, g, until)
    ensures r.Ok? ==> Rank(s.w.gens[g].state).value >= until
    ensures s.quiet ==> r.Ok? && SameOutside(old(s.w), s.w)
  {
    OnlyRowReflexive(s.w, g);
    while Rank(s.w.gens[g].state).value < until
      invariant s.Valid() && s.Continues() && Walked(old(s.w), s.w, g, until)
      invariant s.quiet ==> SameOutside(old(s.w), s.w)
      decreases until - Rank(s.w.gens[g].state).value
    {
      var _ :- WalkOne(s, g, until, old(s.w));
    }
    return Ok(Unit);
  }

  // ---- Ordinary retirement ----

  /** Quarantine, when safe destruction cannot be proven. */
  method IsolateRow(s: Supervisor, g: GenId) returns (r: Reply<Outcome>)
    requires s.Valid() && g < |s.w.gens| && Rank(s.w.gens[g].state).Some?
    modifies s
    ensures s.Valid() && s.Continues() && OnlyRow(old(s.w), s.w, g)
    ensures r.Ok? ==> Concluded(s.w, g, r.value) && r.value.Isolated?
    ensures s.quiet ==> r.Ok?
  {
    var _ :- s.AdvanceRow(g, Quarantined);
    return Ok(Isolated);
  }

  /** What each outcome of a destroy step says about the row. */
  predicate Concluded(w: World, g: GenId, o: Outcome) {
    && g < |w.gens|
    && match o
       case Ended => w.gens[g].state.Destroyed? && !w.gens[g].everQuarantined && Gone(w, g)
       case Pending => Rank(w.gens[g].state).Some? || w.gens[g].expiring
       case Isolated => w.gens[g].state.Quarantined? || w.gens[g].state.Destroyed?
       case Failed => false
  }

  method WalkToRetiring(s: Supervisor, g: GenId) returns (r: Reply<Unit>)
    requires s.Valid() && MayWalk(s.w, g, 2) && Rank(s.w.gens[g].state).value <= 2
    modifies s
    ensures s.Valid() && s.Continues() && OnlyMoved(old(s.w), s.w, g)
    ensures old(Gone(s.w, g)) ==> Gone(s.w, g)
    ensures r.Ok? ==> s.w.gens[g].state.Retiring?
    ensures s.quiet ==> r.Ok? && SameOutside(old(s.w), s.w)
  {
    r := Walk(s, g, 2);
  }

  ghost predicate AdmittedExactly(w0: World, guard: Guard, g: GenId, createStarted: bool, r: Reply<Verdict>, w1: World) {
    && g < |w0.gens|
    && if w0.gens[g].runner.Some? then AdmitVerdict(w0, guard, g, r, w1)
       else r == Ok(if createStarted || OpOpen(w0.gens[g].op) then Unprovable else AbsenceVerdict(w0, guard, g))
  }

  /** The removal question of a retirement, with the absence of an unrecorded
      registration proven only if no create ever started. */
  method AdmitRegistration(s: Supervisor, g: GenId, createStarted: bool) returns (r: Reply<Verdict>)
    requires s.Valid() && s.w.gate.held.Free? && g < |s.w.gens|
    modifies s
    ensures s.Valid() && s.Continues() && Untouched(old(s.w), s.w, g)
    ensures r.Ok? ==> Proven(s.w, g, r.value)
    ensures s.quiet && !old(s.w).gate.api ==> AdmittedExactly(old(s.w), s.guard, g, createStarted, r, s.w)
  {
    var verdict :- Ask(s, g, Admit(createStarted));
    ghost var w1 := s.w;
    if verdict.Unrecorded? {
      if createStarted {
        return Ok(Unprovable);
      }
      r := Ask(s, g, ProveAbsent);
      UntouchedTransitive(old(s.w), w1, s.w, g);
      return;
    }
    return Ok(verdict);
  }

  /** Undisturbed, a registration that is there is removed or still busy; one
      that is not recorded is proven absent only if no create ever started, no
      intent is open and nothing bears its name. */
  ghost predicate ClearsExactly(w: World, guard: Guard, g: GenId, createStarted: bool, r: Reply<Option<Outcome>>) {
    && g < |w.gens|
    && if w.gens[g].runner.Some? && IsCurrent(w.head, guard) && StillThere(w, g)
       then r in {Ok(None), Ok(Some(Pending))}
       else if w.gens[g].runner.None? && (createStarted || OpOpen(w.gens[g].op)) then r == Ok(Some(Isolated))
       else if !IsCurrent(w.head, guard) then r == Ok(Some(Pending))
       else if w.gens[g].runner.None? && NameTaken(w, g) then r == Ok(Some(Isolated))
       else r == Ok(None)
  }

  /** The intent is durable before the removal effect; `None` means the
      registration is gone and the row is Retiring. */
  method ClearRegistration(s: Supervisor, g: GenId, createStarted: bool) returns (r: Reply<Option<Outcome>>)
    requires s.Valid() && s.w.gate.held.Free? && MayWalk(s.w, g, 2) && Rank(s.w.gens[g].state).value <= 2
    requires !s.w.gens[g].expiring
    modifies s
    ensures s.Valid() && s.Continues() && OnlyRow(old(s.w), s.w, g) && ClearedTo(s.w, g, r)
    ensures s.quiet && !old(s.w).gate.api ==> ClearsExactly(old(s.w), s.guard, g, createStarted, r)
  {
    var verdict :- AdmitRegistration(s, g, createStarted);
    ghost var w1 := s.w;
    match verdict {
      case StillBusy => return Ok(Some(Pending));
      case Unavailable => return Ok(Some(Pending));
      case ProvenGone => r := IntendOnly(s, g);
      case Removable => r := RemoveAfterIntent(s, g, createStarted);
      case _ => r := IsolateUncleared(s, g);
    }
    OnlyRowTransitive(old(s.w), w1, s.w, g);
  }

  /** What is said of the row once its registration question is over. */
  predicate ClearedTo(w: World, g: GenId, r: Reply<Option<Outcome>>) {
    && (r == Ok(None) ==> g < |w.gens| && w.gens[g].state.Retiring? && Gone(w, g) && !w.gens[g].expiring)
    && (r.Ok? && r.value.Some? ==> Concluded(w, g, r.value.value))
  }

  method IntendOnly(s: Supervisor, g: GenId) returns (r: Reply<Option<Outcome>>)
    requires s.Valid() && MayWalk(s.w, g, 2) && Rank(s.w.gens[g].state).value <= 2
    requires Gone(s.w, g) && !s.w.gens[g].expiring
    modifies s
    ensures s.Valid() && s.Continues() && OnlyRow(old(s.w), s.w, g) && ClearedTo(s.w, g, r)
    ensures s.quiet ==> r == Ok(None)
  {
    var _ :- WalkToRetiring(s, g);
    return Ok(None);
  }

  method IsolateUncleared(s: Supervisor, g: GenId) returns (r: Reply<Option<Outcome>>)
    requires s.Valid() && g < |s.w.gens| && Rank(s.w.gens[g].state).Some?
    modifies s
    ensures s.Valid() && s.Continues() && OnlyRow(old(s.w), s.w, g) && ClearedTo(s.w, g, r)
    ensures r.Ok? ==> r == Ok(Some(Isolated))
    ensures s.quiet ==> r.Ok?
  {
    var isolated :- IsolateRow(s, g);
    return Ok(Some(isolated));
  }

  method RemoveAfterIntent(s: Supervisor, g: GenId, createStarted: bool) returns (r: Reply<Option<Outcome>>)
    requires s.Valid() && s.w.gate.held.Free? && MayWalk(s.w, g, 2) && Rank(s.w.gens[g].state).value <= 2
    requires !s.w.gens[g].expiring
    modifies s
    ensures s.Valid() && s.Continues() && OnlyRow(old(s.w), s.w, g) && ClearedTo(s.w, g, r)
    ensures s.quiet && MayRemove(old(s.w), s.guard, g) ==> r in {Ok(None), Ok(Some(Pending))}
  {
    var _ :- WalkToRetiring(s, g);
    ghost var w1 := s.w;
    r := RemoveRetiring(s, g, createStarted);
    OnlyRowTransitive(old(s.w), w1, s.w, g);
  }

  predicate MayRemove(w: World, guard: Guard, g: GenId) {
    g < |w.gens| && w.gens[g].runner.Some? && IsCurrent(w.head, guard) && !w.gate.api
  }

  method RemoveRetiring(s: Supervisor, g: GenId, createStarted: bool) returns (r: Reply<Option<Outcome>>)
    requires s.Valid() && s.w.gate.held.Free? && g < |s.w.gens|
    requires s.w.gens[g].state.Retiring? && !s.w.gens[g].expiring
    modifies s
    ensures s.Valid() && s.Continues() && OnlyRow(old(s.w), s.w, g) && ClearedTo(s.w, g, r)
    ensures s.quiet && MayRemove(old(s.w), s.guard, g) ==> r in {Ok(None), Ok(Some(Pending))}
  {
    var removed :- Ask(s, g, Remove(createStarted));
    ghost var w1 := s.w;
    match removed
    case ProvenGone => return Ok(None);
    case StillBusy => return Ok(Some(Pending));
    case Unavailable => return Ok(Some(Pending));
    case _ =>
      r := IsolateUncleared(s, g);
      OnlyRowTransitive(old(s.w), w1, s.w, g);
  }

  datatype ResourceRun = RunDestroyed | RunFailed | RunForeign

  /** What a destroy step is told by calls this model does not look into.
      Whether a create ever started, whether the backoff is over, whether the
      original pins could be loaded (`Some(false)`: they are missing) and what
      the runtime's destroy came to; `None` is an error. */
  datatype Facts = Facts(createStarted: Option<bool>, due: bool, proof: Option<bool>, run: Option<ResourceRun>)

  /** Missing pins and a foreign resource both end in quarantine. */
  function RuntimeOutcome(f: Facts): Reply<Outcome> {
    if f.proof.None? then Err
    else if !f.proof.value then Ok(Isolated)
    else if f.run.None? then Err
    else
      match f.run.value
      case RunDestroyed => Ok(Ended)
      case RunFailed => Ok(Pending)
      case RunForeign => Ok(Isolated)
  }

  /** A create that never started left no resources. */
  function DestroyOutcome(f: Facts): Reply<Outcome> {
    if f.createStarted == Some(false) then Ok(Ended) else RuntimeOutcome(f)
  }

  /** What an undisturbed retirement step comes to. */
  ghost predicate RetiresExactly(w: World, guard: Guard, g: GenId, f: Facts, r: Reply<Outcome>) {
    && g < |w.gens|
    && var gen := w.gens[g];
       if gen.expiring || (gen.state.DestroyPending? && !f.due) then r == Ok(Pending)
       else if f.createStarted.None? || Rank(gen.state).None? then r == Err
       else if Rank(gen.state).value > 2 then r == DestroyOutcome(f)
       else RetiresAs(w, guard, g, f, DestroyOutcome(f), r)
  }

  ghost predicate RetiresAs(w: World, guard: Guard, g: GenId, f: Facts, ended: Reply<Outcome>, r: Reply<Outcome>)
    requires f.createStarted.Some?
  {
    exists c: Option<Outcome> ::
      ClearsExactly(w, guard, g, f.createStarted.value, Ok(c)) && r == if c.None? then ended else Ok(c.value)
  }

  /** One retirement step of a selected generation. Past Retiring the
      registration has been proven gone already. */
  method Retire(s: Supervisor, g: GenId, f: Facts) returns (r: Reply<Outcome>)
    requires s.Valid() && s.w.gate.held.Free? && g < |s.w.gens| && !s.w.gens[g].state.Creating?
    modifies s
    ensures s.Valid() && s.Continues() && OnlyRow(old(s.w), s.w, g)
    ensures r.Ok? ==> Concluded(s.w, g, r.value)
    ensures s.quiet && !old(s.w).gate.api ==> RetiresExactly(old(s.w), s.guard, g, f, r)
  {
    OnlyRowReflexive(s.w, g);
    if s.w.gens[g].expiring || (s.w.gens[g].state.DestroyPending? && !f.due) {
      return Ok(Pending);
    }
    if f.createStarted.None? || Rank(s.w.gens[g].state).None? {
      return Err;
    }
    if Rank(s.w.gens[g].state).value <= 2 {
      r := RetireRegistered(s, g, f);
    } else {
      s.Safety();
      assert RowCoherent(s.w, g);
      r := DestroyRow(s, g, f);
    }
  }

  method RetireRegistered(s: Supervisor, g: GenId, f: Facts) returns (r: Reply<Outcome>)
    requires s.Valid() && s.w.gate.held.Free? && MayWalk(s.w, g, 2) && Rank(s.w.gens[g].state).value <= 2
    requires !s.w.gens[g].expiring && f.createStarted.Some?
    modifies s
    ensures s.Valid() && s.Continues() && OnlyRow(old(s.w), s.w, g)
    ensures r.Ok? ==> Concluded(s.w, g, r.value)
    ensures s.quiet && !old(s.w).gate.api ==> RetiresAs(old(s.w), s.guard, g, f, DestroyOutcome(f), r)
  {
    var concluded :- ClearRegistration(s, g, f.createStarted.value);
    if concluded.Some? {
      return Ok(concluded.value);
    }
    ghost var w1 := s.w;
    r := DestroyRow(s, g, f);
    OnlyRowTransitive(old(s.w), w1, s.w, g);
  }

  /** Ends a row whose registration is gone. */
  method DestroyRow(s: Supervisor, g: GenId, f: Facts) returns (r: Reply<Outcome>)
    requires s.Valid() && g < |s.w.gens| && Gone(s.w, g) && f.createStarted.Some?
    requires Rank(s.w.gens[g].state).Some? && Rank(s.w.gens[g].state).value >= 2
    requires !s.w.gens[g].expiring
    modifies s
    ensures s.Valid() && s.Continues() && OnlyRow(old(s.w), s.w, g)
    ensures r.Ok? ==> Concluded(s.w, g, r.value)
    ensures s.quiet ==> r == DestroyOutcome(f)
  {
    s.Safety();
    assert RowCoherent(s.w, g);
    var walked := Walk(s, g, 4);
    ghost var w1 := s.w;
    var _ :- walked;
    var outcome :- DestroyOutcome(f);
    r := Conclude(s, g, outcome);
    OnlyRowTransitive(old(s.w), w1, s.w, g);
  }

  method Conclude(s: Supervisor, g: GenId, o: Outcome) returns (r: Reply<Outcome>)
    requires s.Valid() && g < |s.w.gens| && s.w.gens[g].state.Destroying? && Gone(s.w, g)
    requires !s.w.gens[g].cleaned && !o.Failed?
    modifies s
    ensures s.Valid() && s.Continues() && OnlyRow(old(s.w), s.w, g)
    ensures r.Ok? ==> r.value == o && Concluded(s.w, g, o)
    ensures r.Ok? && o.Pending? ==> s.w.gens[g].state.DestroyPending?
    ensures s.quiet ==> r.Ok?
  {
    s.Safety();
    assert RowCoherent(s.w, g);
    match o
    case Ended =>
      var _ :- s.EndRow(g, Destroyed);
      return Ok(Ended);
    case Pending =>
      var _ :- s.EndRow(g, DestroyPending);
      return Ok(Pending);
    case Isolated =>
      r := IsolateRow(s, g);
  }

  // ---- Hard expiry ----

  /** The expiry intent, which needs a successful create to have been stored. */
  method RequestExpiryRow(s: Supervisor, g: GenId) returns (r: Reply<bool>)
    requires s.Valid() && g < |s.w.gens| && Rank(s.w.gens[g].state).Some?
    modifies s
    ensures s.Valid() && s.Continues() && OnlyRow(old(s.w), s.w, g)
    ensures s.w.gens[g] == old(s.w).gens[g].(expiring := s.w.gens[g].expiring)
    ensures r == Ok(true) ==> s.w.gens[g].expiring && s.w.gens[g].result
    ensures s.quiet ==> r == Ok(old(s.w).gens[g].result) && SameOutside(old(s.w), s.w)
  {
    OnlyRowReflexive(s.w, g);
    if !s.w.gens[g].result {
      return Ok(false);
    }
    var _ :- s.Call(RequestExpiry(g));
    return Ok(true);
  }

  /** The resources are gone and the checkpoint is stored (`None`), or that is
      where the step ended. */
  predicate Terminated(w: World, g: GenId, r: Reply<Option<Outcome>>) {
    && (r == Ok(None) ==> g < |w.gens| && w.gens[g].state.Destroying? && w.gens[g].cleaned)
    && (r.Ok? && r.value.Some? ==> Concluded(w, g, r.value.value))
  }

  /** Undisturbed, the runtime's outcome decides. */
  predicate TerminatesExactly(f: Facts, r: Reply<Option<Outcome>>) {
    match RuntimeOutcome(f)
    case Ok(o) => r == Ok(if o.Ended? then None else Some(o))
    case _ => r == Err
  }

  /** Resources first, even under a running job. */
  method TerminateResources(s: Supervisor, g: GenId, f: Facts) returns (r: Reply<Option<Outcome>>)
    requires s.Valid() && g < |s.w.gens| && Rank(s.w.gens[g].state).Some?
    requires s.w.gens[g].expiring && !s.w.gens[g].cleaned
    modifies s
    ensures s.Valid() && s.Continues() && OnlyRow(old(s.w), s.w, g)
    ensures r == Ok(None) ==> s.w.gens[g].runner == old(s.w).gens[g].runner
    ensures Terminated(s.w, g, r)
    ensures s.quiet ==> TerminatesExactly(f, r) && (r == Ok(None) ==> SameOutside(old(s.w), s.w))
  {
    OnlyRowReflexive(s.w, g);
    if f.proof.None? {
      return Err;
    }
    if !f.proof.value {
      r := IsolateUncleared(s, g);
      return;
    }
    s.Safety();
    assert RowCoherent(s.w, g);
    var walked := Walk(s, g, 4);
    ghost var w1 := s.w;
    var _ :- walked;
    if f.run.None? {
      return Err;
    }
    r := AfterTermination(s, g, f.run.value);
    OnlyRowTransitive(old(s.w), w1, s.w, g);
  }

  method AfterTermination(s: Supervisor, g: GenId, run: ResourceRun) returns (r: Reply<Option<Outcome>>)
    requires s.Valid() && g < |s.w.gens| && s.w.gens[g].state.Destroying?
    requires s.w.gens[g].expiring && !s.w.gens[g].cleaned
    modifies s
    ensures s.Valid() && s.Continues() && OnlyRow(old(s.w), s.w, g)
    ensures r == Ok(None) ==> s.w.gens[g].runner == old(s.w).gens[g].runner
    ensures r.Ok? && run.RunFailed? ==> s.w.gens[g].state.DestroyPending?
    ensures Terminated(s.w, g, r)
    ensures s.quiet ==> r == Ok(match run case RunDestroyed => None case RunFailed => Some(Pending) case RunForeign => Some(Isolated))
    ensures s.quiet && run.RunDestroyed? ==> SameOutside(old(s.w), s.w)
  {
    match run
    case RunDestroyed =>
      var _ :- s.Call(SetCleaned(g));
      return Ok(None);
    case RunFailed =>
      var _ :- s.EndRow(g, DestroyPending);
      return Ok(Some(Pending));
    case RunForeign =>
      r := IsolateUncleared(s, g);
  }

  /** The registration follows the resources; only its absence ends the row. */
  method DeregisterExpired(s: Supervisor, g: GenId) returns (r: Reply<Outcome>)
    requires s.Valid() && s.w.gate.held.Free? && g < |s.w.gens| && s.w.gens[g].state.Destroying?
    modifies s
    ensures s.Valid() && s.Continues() && OnlyRow(old(s.w), s.w, g)
    ensures r.Ok? ==> Concluded(s.w, g, r.value)
    ensures s.quiet && !old(s.w).gate.api && old(s.w).gens[g].runner.Some? ==>
              r == Ok(if IsCurrent(old(s.w).head, s.guard) then Ended else Pending)
  {
    s.Safety();
    assert RowCoherent(s.w, g);
    var removed :- Ask(s, g, Remove(false));
    ghost var w1 := s.w;
    match removed
    case ProvenGone =>
      var _ :- s.EndRow(g, Destroyed);
      OnlyRowTransitive(old(s.w), w1, s.w, g);
      return Ok(Ended);
    case StillBusy => return Ok(Pending);
    case Unavailable => return Ok(Pending);
    case _ =>
      r := IsolateRow(s, g);
      OnlyRowTransitive(old(s.w), w1, s.w, g);
  }

  /** What an undisturbed hard-expiry step comes to: resources first, then the
      registration, which at the current head is always removed. */
  predicate ExpiresExactly(w: World, guard: Guard, g: GenId, f: Facts, r: Reply<Outcome>) {
    && g < |w.gens|
    && var gen := w.gens[g];
       if !gen.result || (!gen.cleaned && gen.state.DestroyPending? && !f.due) then r == Ok(Pending)
       else FinishesExactly(w, guard, g, f, r)
  }

  predicate FinishesExactly(w: World, guard: Guard, g: GenId, f: Facts, r: Reply<Outcome>)
    requires g < |w.gens|
  {
    if !w.gens[g].cleaned && RuntimeOutcome(f) != Ok(Ended) then r == RuntimeOutcome(f)
    else r == Ok(if IsCurrent(w.head, guard) then Ended else Pending)
  }

  /** One hard-expiry step of a due generation. */
  method Expire(s: Supervisor, g: GenId, f: Facts) returns (r: Reply<Outcome>)
    requires s.Valid() && s.w.gate.held.Free? && g < |s.w.gens| && !NeverExpires(s.w.gens[g].state)
    modifies s
    ensures s.Valid() && s.Continues() && OnlyRow(old(s.w), s.w, g)
    ensures r.Ok? ==> Concluded(s.w, g, r.value)
    ensures s.quiet && !old(s.w).gate.api ==> ExpiresExactly(old(s.w), s.guard, g, f, r)
  {
    var requested :- RequestExpiryRow(s, g);
    ghost var w1 := s.w;
    if !requested {
      return Ok(Pending);
    }
    if !s.w.gens[g].cleaned && s.w.gens[g].state.DestroyPending? && !f.due {
      return Ok(Pending);
    }
    r := FinishExpiry(s, g, f);
    OnlyRowTransitive(old(s.w), w1, s.w, g);
  }

  method FinishExpiry(s: Supervisor, g: GenId, f: Facts) returns (r: Reply<Outcome>)
    requires s.Valid() && s.w.gate.held.Free? && g < |s.w.gens| && Rank(s.w.gens[g].state).Some?
    requires s.w.gens[g].expiring
    modifies s
    ensures s.Valid() && s.Continues() && OnlyRow(old(s.w), s.w, g)
    ensures r.Ok? ==> Concluded(s.w, g, r.value)
    ensures s.quiet && !old(s.w).gate.api ==> FinishesExactly(old(s.w), s.guard, g, f, r)
  {
    s.Safety();
    assert RowCoherent(s.w, g);
    ghost var w1 := s.w;
    OnlyRowReflexive(w1, g);
    if !s.w.gens[g].cleaned {
      var concluded :- TerminateResources(s, g, f);
      w1 := s.w;
      if concluded.Some? {
        return Ok(concluded.value);
      }
    }
    r := DeregisterExpired(s, g);
    OnlyRowTransitive(old(s.w), w1, s.w, g);
  }
}
