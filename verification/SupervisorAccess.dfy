/** The supervisor's access to its Fleet: every store call and remote call the
    code makes, each followed by whatever the rest of the world does before
    the next one. A call may also fail or be the last thing the process does. */
module SupervisorAccess {
  import opened Lifecycle
  import opened Wrappers
  import opened FleetWorld
  import opened FleetSafety

  /** The reply of a call. `Crash` stands for the process ending here. */
  datatype Reply<+T> = Ok(value: T) | Err | Crash {
    predicate IsFailure() { !Ok? }
    function PropagateFailure<U>(): Reply<U> requires IsFailure() { if Err? then Reply<U>.Err else Reply<U>.Crash }
    function Extract(): T requires Ok? { value }
  }

  datatype Unit = Unit

  datatype Guard = Guard(revision: Revision, fence: int)

  /** The head this supervisor was built for, and not the end of it. */
  predicate IsCurrent(head: Head, guard: Guard) {
    !head.tombstone && head.revision == guard.revision && head.fence == guard.fence
  }

  datatype Status = Online | Offline | Stale | NeverContacted | PausedStatus | UnknownStatus
  datatype Execution = IdleExecution | ActiveExecution | UnknownExecution

  /** One registration as read back: the note may be hidden from a token that
      lost its update permission. */
  datatype RunnerRef = RunnerRef(
    id: RunnerId,
    description: Description,
    note: Option<Note>,
    matching: bool,
    paused: bool,
    status: Status,
    execution: Execution)
  {
    predicate OwnershipHidden() { note.None? }

    predicate IsKnown() { !status.UnknownStatus? && !execution.UnknownExecution? }

    predicate IsOnlineIdle() { status.Online? && execution.IdleExecution? }

    predicate IsActive() { execution.ActiveExecution? }

    predicate IsAnchor() { note == Some(AnchorMarker(description)) }

    predicate IsOwnedGeneration(g: GenId) {
      description == GenerationName(g) && note == Some(GenerationMarker(description))
    }
  }

  /** One answer about one generation's registration. */
  datatype Reading = Looked(gen: GenId, runner: RunnerRef) | ListedJobs(gen: GenId, jobs: seq<JobId>)

  /** The last three readings: the owned registration paused, then no job, then
      still paused and known to be inactive. */
  predicate SeenDrained(readings: seq<Reading>, g: GenId) {
    && |readings| >= 3
    && var looked, jobs, again := readings[|readings| - 3], readings[|readings| - 2], readings[|readings| - 1];
       && looked.Looked? && looked.gen == g && looked.runner.IsOwnedGeneration(g) && looked.runner.paused
       && jobs == ListedJobs(g, [])
       && again.Looked? && again.gen == g && again.runner.paused && again.runner.IsKnown() && !again.runner.IsActive()
  }

  /** The last reading shows the generation's own registration. */
  predicate SeenOwned(readings: seq<Reading>, g: GenId) {
    && |readings| >= 1
    && var looked := readings[|readings| - 1];
       looked.Looked? && looked.gen == g && looked.runner.IsOwnedGeneration(g)
  }

  /** The last reading shows, note and all, somebody else's registration. */
  predicate SeenForeign(readings: seq<Reading>, g: GenId) {
    && |readings| >= 1
    && var looked := readings[|readings| - 1];
       looked.Looked? && looked.gen == g && !looked.runner.OwnershipHidden() && !looked.runner.IsOwnedGeneration(g)
  }

  /** No bootstrap was ever authorized, so being inactive is enough. */
  predicate SeenInactive(readings: seq<Reading>, g: GenId) {
    SeenOwned(readings, g) && !readings[|readings| - 1].runner.IsActive()
  }

  /** An entry shows the registration that is really there, apart from a
      hidden note and the passing status. */
  predicate Shows(r: RunnerRef, actual: Registration) {
    r.description == actual.description && (r.note.None? || r.note == Some(actual.note)) &&
    r.matching == actual.matching && r.paused == actual.paused
  }

  predicate DistinctIds(view: seq<RunnerRef>) {
    forall i, j :: 0 <= i < j < |view| ==> view[i].id != view[j].id
  }

  /** A complete, duplicate-free inventory of the registrations under the prefix. */
  predicate Faithful(view: seq<RunnerRef>, w: World) {
    && (forall i :: 0 <= i < |view| ==> view[i].id in w.remote && Shows(view[i], w.remote[view[i].id]))
    && DistinctIds(view)
    && (forall id :: id in w.remote.Keys ==> exists i :: 0 <= i < |view| && view[i].id == id)
  }

  predicate NothingHidden(view: seq<RunnerRef>) {
    forall x <- view :: !x.OwnershipHidden()
  }

  // ---- What the rest of the world may do ----

  predicate SameRow(before: Generation, after: Generation) {
    after == before || (before.state.Quarantined? && after == before.(state := Destroyed))
  }

  ghost predicate RowsRely(w0: World, w1: World) {
    && |w1.gens| == |w0.gens|
    && (forall g :: 0 <= g < |w0.gens| ==> SameRow(w0.gens[g], w1.gens[g]))
    && w1.anchors == w0.anchors
    && w1.gate.held == w0.gate.held
    && w1.provider == w0.provider
    && w1.anchorPosts == w0.anchorPosts
  }

  ghost predicate RemoteRelies(w0: World, w1: World) {
    && w1.nextId >= w0.nextId
    && (forall id :: id in w1.remote && id !in w0.remote ==> id >= w0.nextId && MayBeForeign(w0.provider, w1.remote[id]))
    && (forall id :: id in w1.remote && id in w0.remote ==>
          w1.remote[id].description == w0.remote[id].description && w1.remote[id].note == w0.remote[id].note)
  }

  ghost predicate HeadRelies(w0: World, w1: World) {
    && w1.head.tombstone == w0.head.tombstone
    && (w0.head.deleting ==> w1.head.deleting)
    && w1.head.revision >= w0.head.revision
    && w1.head.fence >= w0.head.fence
    && (w1.head.fence == w0.head.fence || !w0.gate.held.Free? ==>
          w1.head == w0.head && w1.limits == w0.limits && w1.log == w0.log)
    && (forall r :: r in w0.limits ==> r in w1.limits && w1.limits[r] == w0.limits[r])
    && (forall r :: r in w1.limits && r !in w0.limits ==> r > w0.head.revision)
  }

  /** Everything others may change between two of the supervisor's calls. */
  ghost predicate Rely(w0: World, w1: World) {
    RowsRely(w0, w1) && RemoteRelies(w0, w1) && HeadRelies(w0, w1)
  }

  lemma RelyReflexive(w: World)
    ensures Rely(w, w)
  {
  }

  lemma EnvironmentRelies(w: World, s: Step)
    requires Inv(w) && Enabled(w, s) && ByEnvironment(s)
    ensures Rely(w, Apply(w, s))
  {
    if s.Foreign? {
      ForeignRelies(w, s.id, s.registration);
    } else if s.CommitRevision? {
      RevisionRelies(w, s.max);
    } else if s.CommitDeletion? {
      DeletionRelies(w);
    } else if s.Finalize? {
      FinalizeRelies(w, s.gen);
    } else {
      QuietStepRelies(w, s);
    }
  }

  lemma DeletionRelies(w: World)
    requires GateExcludes(w.gate) && Enabled(w, CommitDeletion)
    ensures Rely(w, Apply(w, CommitDeletion))
  {
  }

  lemma ForeignRelies(w: World, id: RunnerId, registration: Registration)
    requires OwnComesFromPost(w) && Enabled(w, Foreign(id, registration))
    ensures Rely(w, Apply(w, Foreign(id, registration)))
  {
  }

  lemma RevisionRelies(w: World, max: int)
    requires HeadMatchesLog(w) && GateExcludes(w.gate) && Enabled(w, CommitRevision(max))
    ensures Rely(w, Apply(w, CommitRevision(max)))
  {
  }

  lemma FinalizeRelies(w: World, g: GenId)
    requires Enabled(w, Finalize(g))
    ensures Rely(w, Apply(w, Finalize(g)))
  {
  }

  lemma QuietStepRelies(w: World, s: Step)
    requires Enabled(w, s)
    requires s.OtherClaim? || s.OtherRelease? || s.ApiLock? || s.ApiUnlock? || s.Vanish? || s.Drift?
    ensures Rely(w, Apply(w, s))
  {
  }

  lemma RelyTransitive(a: World, b: World, c: World)
    requires Inv(a) && Rely(a, b) && Rely(b, c)
    ensures Rely(a, c)
  {
    assert RowsRely(a, c) by {
      forall g | 0 <= g < |a.gens| ensures SameRow(a.gens[g], c.gens[g]) {
        assert SameRow(a.gens[g], b.gens[g]) && SameRow(b.gens[g], c.gens[g]);
      }
    }
    assert RemoteRelies(a, c);
    assert HeadRelies(a, c);
  }

  /** A settled generation stays settled whatever others do. */
  lemma SettledStable(w0: World, w1: World, g: GenId)
    requires Inv(w0) && Rely(w0, w1) && g < |w0.gens| && Settled(w0, g)
    ensures Settled(w1, g)
  {
    assert RowCoherent(w0, g);
    assert SameRow(w0.gens[g], w1.gens[g]);
  }

  /** A registration that is gone stays gone: ids are not reused. */
  lemma GoneStable(w0: World, w1: World, g: GenId)
    requires Inv(w0) && Rely(w0, w1) && g < |w0.gens| && Gone(w0, g)
    ensures Gone(w1, g)
  {
    assert RowCoherent(w0, g);
    assert SameRow(w0.gens[g], w1.gens[g]);
  }

  /** Head and gate are as they were. */
  predicate SameStand(w0: World, w1: World) {
    w1.head == w0.head && w1.gate == w0.gate
  }

  /** A registration shown in full; its passing status is idle. */
  function AsShown(id: RunnerId, r: Registration): RunnerRef {
    RunnerRef(id, r.description, Some(r.note), r.matching, r.paused, Online, IdleExecution)
  }

  /** The view shows each registration but these once, with its note. */
  ghost predicate ShowsBut(view: seq<RunnerRef>, w: World, todo: set<RunnerId>) {
    && (forall i :: 0 <= i < |view| ==>
          view[i].id in w.remote && view[i].id !in todo && view[i] == AsShown(view[i].id, w.remote[view[i].id]))
    && DistinctIds(view)
    && (forall id :: id in w.remote.Keys && id !in todo ==> exists i :: 0 <= i < |view| && view[i].id == id)
  }

  lemma SomeId(todo: set<RunnerId>)
    requires todo != {}
    ensures exists id :: id in todo
  {
  }

  lemma ShowsOneMore(view: seq<RunnerRef>, w: World, todo: set<RunnerId>, id: RunnerId)
    requires ShowsBut(view, w, todo) && todo <= w.remote.Keys && id in todo
    ensures ShowsBut(view + [AsShown(id, w.remote[id])], w, todo - {id})
  {
    var more := view + [AsShown(id, w.remote[id])];
    forall x | x in w.remote.Keys && x !in todo - {id} ensures exists i :: 0 <= i < |more| && more[i].id == x {
      if x == id {
        assert more[|view|].id == id;
      } else {
        var i :| 0 <= i < |view| && view[i].id == x;
        assert more[i].id == x;
      }
    }
  }

  class Supervisor {
    var w: World
    var guard: Guard
    var maxRunners: int
    const provider: Provider
    /** In a calm world every call succeeds and shows what is there, and nobody
        else acts of their own accord. */
    const calm: bool
    ghost const firstLimit: int
    ghost var run: Run
    /** Since this was last set nobody else has acted, no call has failed and
        no note was hidden. */
    ghost var quiet: bool
    /** What was read of single registrations, in order. */
    ghost var readings: seq<Reading>

    /** The world is reached by a run of the Fleet machine, and the limit this
        supervisor was built with is its revision's. */
    ghost predicate Valid()
      reads this
    {
      && IsRun(firstLimit, run)
      && w == run.Now()
      && w.provider == provider
      && guard.revision <= w.head.revision
      && guard.fence <= w.head.fence
      && (guard.revision in w.limits ==> w.limits[guard.revision] == maxRunners)
    }

    lemma Safety()
      requires Valid()
      ensures Inv(w)
    {
      RunKeepsInv(firstLimit, run, |run.steps|);
    }

    /** The run only grows, the supervisor stays the one it is, and a
        disturbance stays noticed; a calm world brings none. */
    twostate predicate Continues()
      reads this
    {
      && old(run).steps <= run.steps && guard == old(guard) && maxRunners == old(maxRunners)
      && (quiet ==> old(quiet)) && (calm && old(quiet) ==> quiet)
    }

    constructor (provider: Provider, max: int, calm: bool)
      ensures Valid() && this.provider == provider && this.calm == calm && w == Start(provider, max) && quiet
      ensures guard == Guard(1, 1)
    {
      this.provider := provider;
      this.calm := calm;
      firstLimit := max;
      w := Start(provider, max);
      guard := Guard(1, 1);
      maxRunners := max;
      run := Run([Start(provider, max)], []);
      quiet := true;
      readings := [];
    }

    /** Takes one step of the machine, with nobody else acting. */
    method Take(s: Step)
      requires Valid() && Enabled(w, s)
      modifies this
      ensures Valid() && w == Apply(old(w), s) && run == Extended(old(run), s)
      ensures Continues() && quiet == old(quiet) && readings == old(readings)
    {
      RunExtends(firstLimit, run, s);
      run := Extended(run, s);
      w := Apply(w, s);
    }

    /** What may go either way; in a calm world it goes well. */
    method Chance() returns (well: bool)
      ensures calm ==> well
    {
      well := *;
      well := well || calm;
    }

    /** At most one step by somebody else. */
    method SomeoneActs()
      requires Valid() && !calm
      modifies this
      ensures Valid() && Rely(old(w), w) && Continues() && readings == old(readings)
      ensures quiet ==> w == old(w)
    {
      var s: Step := *;
      var possible := Possible(s);
      RelyReflexive(w);
      if possible {
        Safety();
        EnvironmentRelies(w, s);
        Take(s);
        quiet := false;
      }
    }

    /** Any number of steps by everyone else. */
    method Interfere()
      requires Valid()
      modifies this
      ensures Valid() && Rely(old(w), w) && Continues() && readings == old(readings)
      ensures quiet ==> w == old(w)
    {
      var turns: nat := *;
      if calm {
        turns := 0;
      }
      Safety();
      RelyReflexive(w);
      while turns > 0
        invariant Valid() && Rely(old(w), w) && Continues() && readings == old(readings)
        invariant (quiet ==> w == old(w)) && (calm ==> turns == 0)
      {
        ghost var before := w;
        SomeoneActs();
        RelyTransitive(old(w), before, w);
        turns := turns - 1;
      }
    }

    /** Whether others can take this step now. */
    method Possible(s: Step) returns (yes: bool)
      ensures yes ==> ByEnvironment(s) && Enabled(w, s)
    {
      match s
      case OtherClaim => yes := !w.gate.held.Exclusive? && !w.gate.api;
      case OtherRelease => yes := w.gate.others > 0;
      case ApiLock => yes := w.gate.held.Free? && w.gate.others == 0 && !w.gate.api;
      case ApiUnlock => yes := w.gate.api;
      case CommitRevision(max) => yes := w.gate.api && !w.head.deleting;
      case CommitDeletion => yes := w.gate.api;
      case Finalize(g) => yes := w.gate.api && g < |w.gens| && w.gens[g].state.Quarantined?;
      case Vanish(id) => yes := true;
      case Foreign(id, registration) => yes := id >= w.nextId && MayBeForeign(w.provider, registration);
      case Drift(id, matching, paused) => yes := id in w.remote;
      case _ => yes := false;
    }

    /** One of the supervisor's own calls, and then everyone else's turn. */
    method Call(s: Step) returns (r: Reply<Unit>)
      requires Valid() && Enabled(w, s) && !ByEnvironment(s)
      modifies this
      ensures Valid() && Continues()
      ensures Rely(Apply(old(w), s), w) || (!r.Ok? && Rely(old(w), w))
      ensures r.Ok? ==> Rely(Apply(old(w), s), w)
      ensures quiet ==> r.Ok? && w == Apply(old(w), s)
    {
      var failed: bool := *;
      var reached := Chance();
      var answered := Chance();
      if reached {
        Take(s);
      } else {
        quiet := false;
      }
      Interfere();
      if reached && answered {
        return Ok(Unit);
      }
      quiet := false;
      return if failed then Err else Crash;
    }

    /** Waits for the shared side of the gate; the wait may never end. */
    method AcquireClaim() returns (r: Reply<Unit>)
      requires Valid() && w.gate.held.Free?
      modifies this
      ensures Valid() && Continues()
      ensures r.Ok? ==> w.gate.held.Shared? && Rely(old(w), w.(gate := w.gate.(held := Free)))
      ensures !r.Ok? ==> w.gate.held.Free? && Rely(old(w), w)
      ensures quiet ==> w == if r.Ok? then Apply(old(w), AcquireShared) else old(w)
      ensures quiet && !old(w.gate.api) ==> r.Ok?
    {
      Interfere();
      if w.gate.api {
        return Crash;
      }
      Take(AcquireShared);
      return Ok(Unit);
    }

    method AcquireExclusively() returns (r: Reply<Unit>)
      requires Valid() && w.gate.held.Free?
      modifies this
      ensures Valid() && Continues()
      ensures r.Ok? ==> w.gate.held.Exclusive? && Rely(old(w), w.(gate := w.gate.(held := Free)))
      ensures !r.Ok? ==> w.gate.held.Free? && Rely(old(w), w)
      ensures quiet ==> w == if r.Ok? then Apply(old(w), AcquireExclusive) else old(w)
      ensures quiet && !old(w.gate.api) && old(w.gate.others) == 0 ==> r.Ok?
    {
      Interfere();
      if w.gate.api || w.gate.others > 0 {
        return Crash;
      }
      Take(AcquireExclusive);
      return Ok(Unit);
    }

    method ReleaseGate()
      requires Valid()
      modifies this
      ensures Valid() && Continues()
      ensures w == old(w).(gate := old(w).gate.(held := Free)) && quiet == old(quiet)
    {
      Take(Release);
    }

    /** The Fleet head, if it still is the one this supervisor was built for. */
    method CurrentHead() returns (r: Reply<Option<Head>>)
      requires Valid()
      modifies this
      ensures Valid() && Rely(old(w), w) && Continues() && readings == old(readings)
      ensures r.Ok? && r.value.Some? ==>
                !r.value.value.tombstone && r.value.value.revision == guard.revision &&
                !w.head.tombstone && (!r.value.value.deleting && !w.gate.held.Free? ==> !w.head.deleting) &&
                (r.value.value.deleting ==> w.head.deleting) && (!w.gate.held.Free? ==> w.head.revision == guard.revision)
      ensures r.Ok? && r.value.Some? && old(w.head.deleting) ==> r.value.value.deleting
      ensures quiet ==> w == old(w) && r == Ok(if IsCurrent(w.head, guard) then Some(w.head) else None)
    {
      var failed: bool := *;
      var answered := Chance();
      if !answered {
        quiet := false;
        return if failed then Err else Crash;
      }
      var head := w.head;
      Interfere();
      if IsCurrent(head, guard) {
        return Ok(Some(head));
      }
      return Ok(None);
    }

    /** A plain read of the ledger, which may fail. */
    method ReadRows() returns (r: Reply<Unit>)
      requires Valid()
      modifies `quiet
      ensures Valid() && Continues()
      ensures quiet ==> r.Ok?
    {
      var failed: bool := *;
      var answered := Chance();
      if answered {
        return Ok(Unit);
      }
      quiet := false;
      return if failed then Err else Crash;
    }

    /** Every registration with its note, in some order. */
    method Snapshot() returns (view: seq<RunnerRef>)
      ensures Faithful(view, w) && NothingHidden(view)
    {
      view := [];
      var todo := w.remote.Keys;
      while todo != {}
        invariant todo <= w.remote.Keys && ShowsBut(view, w, todo)
        decreases todo
      {
        SomeId(todo);
        var id :| id in todo;
        ShowsOneMore(view, w, todo, id);
        view := view + [AsShown(id, w.remote[id])];
        todo := todo - {id};
      }
    }

    /** The detailed registrations under the prefix, or a failure. */
    method ListRunners() returns (r: Reply<seq<RunnerRef>>, ghost at: World)
      requires Valid()
      modifies this
      ensures Valid() && Rely(old(w), w) && Continues()
      ensures Inv(at) && Rely(old(w), at) && Rely(at, w)
      ensures r.Ok? ==> Faithful(r.value, at)
      ensures quiet ==> w == old(w) == at && r.Ok? && NothingHidden(r.value)
    {
      at := w;
      Safety();
      RelyReflexive(w);
      var crashed: bool, view: seq<RunnerRef> := *, *;
      var answered := Chance();
      if calm {
        view := Snapshot();
      }
      if !answered || !Faithful(view, w) {
        quiet := false;
        return if crashed then Crash else Err, w;
      }
      if exists x <- view :: x.OwnershipHidden() {
        quiet := false;
      }
      Interfere();
      return Ok(view), at;
    }

    // ---- Row writes ----

    /** Moves a generation along the lifecycle. Leaving Creating needs the
        registration question answered; becoming Busy needs the job. */
    method AdvanceRow(g: GenId, next: GenState) returns (r: Reply<Unit>)
      requires Valid() && g < |w.gens| && TransitionAllowed(w.gens[g].state, next)
      requires w.gens[g].state.Creating? && !next.Quarantined? ==> !OpOpen(w.gens[g].op) || w.gens[g].runner.Some?
      requires next.Busy? && provider.GitlabPool? ==> w.gens[g].job.Some?
      requires !PastRetiring(next) && !next.Destroyed?
      modifies this
      ensures Valid() && Continues() && OnlyRow(old(w), w, g)
      ensures Written(old(w).gens[g], Moved(old(w).gens[g], next), w.gens[g], r)
      ensures quiet ==> r.Ok? && w == Apply(old(w), Advance(g, next)) && SameStand(old(w), w)
    {
      Safety();
      assert RowCoherent(w, g);
      r := Call(Advance(g, next));
    }

    /** The end of the lifecycle, which needs the registration gone. */
    method EndRow(g: GenId, next: GenState) returns (r: Reply<Unit>)
      requires Valid() && g < |w.gens| && TransitionAllowed(w.gens[g].state, next)
      requires PastRetiring(next) || next.Destroyed?
      requires Gone(w, g) || (PastRetiring(next) && w.gens[g].expiring)
      requires next.DestroyPending? ==> !w.gens[g].cleaned
      modifies this
      ensures Valid() && Continues() && OnlyRow(old(w), w, g)
      ensures Written(old(w).gens[g], Moved(old(w).gens[g], next), w.gens[g], r)
      ensures old(Gone(w, g)) ==> Gone(w, g)
      ensures quiet ==> r.Ok? && w == Apply(old(w), Advance(g, next)) && SameStand(old(w), w)
    {
      Safety();
      GoneOnlyShrinks(w, g, next);
      r := Call(Advance(g, next));
    }

    method SetOpRow(g: GenId, op: RegistrationOp) returns (r: Reply<Unit>)
      requires Valid() && g < |w.gens| && !w.gens[g].op.NoOp? && !op.NoOp?
      requires op.Completed? ==> w.gens[g].runner.Some? || Settled(w, g)
      modifies this
      ensures Valid() && Continues() && OnlyRow(old(w), w, g)
      ensures Written(old(w).gens[g], old(w).gens[g].(op := op), w.gens[g], r)
      ensures quiet ==> r.Ok? && w == Apply(old(w), SetOp(g, op)) && SameStand(old(w), w)
    {
      Safety();
      assert RowCoherent(w, g);
      r := Call(SetOp(g, op));
    }

    /** Binds the exact registration id; the store refuses a non-positive id
        and one that contradicts the id already bound. */
    method SetRunnerRow(g: GenId, id: RunnerId) returns (r: Reply<Unit>)
      requires Valid() && g < |w.gens| && (w.gens[g].runner.None? ==> w.gens[g].landed == Some(id))
      modifies this
      ensures Valid() && Continues() && OnlyRow(old(w), w, g)
      ensures RunnerRefused(old(w).gens[g], id) ==> r.Err? && w == old(w)
      ensures !RunnerRefused(old(w).gens[g], id) ==>
                Written(old(w).gens[g], old(w).gens[g].(runner := Some(id)), w.gens[g], r)
      ensures quiet && !RunnerRefused(old(w).gens[g], id) ==>
                r.Ok? && w == Apply(old(w), SetRunner(g, id)) && SameStand(old(w), w)
    {
      Safety();
      assert RowCoherent(w, g);
      RelyReflexive(w);
      if RunnerRefused(w.gens[g], id) {
        return Err;
      }
      r := Call(SetRunner(g, id));
    }

    method WriteJob(g: GenId, job: JobId) returns (r: Reply<Unit>)
      requires Valid() && Enabled(w, SetJob(g, job))
      modifies this
      ensures Valid() && Continues() && OnlyRow(old(w), w, g)
      ensures Written(old(w).gens[g], old(w).gens[g].(job := Some(job)), w.gens[g], r)
      ensures quiet ==> r.Ok?
    {
      r := Call(SetJob(g, job));
    }

    /** The first association wins; a different job is a conflict. */
    method SetJobRow(g: GenId, job: JobId) returns (r: Reply<Unit>)
      requires Valid() && g < |w.gens|
      modifies this
      ensures Valid() && Continues() && OnlyRow(old(w), w, g)
      ensures Written(old(w).gens[g], old(w).gens[g].(job := Some(job)), w.gens[g], r)
      ensures quiet ==> !r.Crash? && (r.Err? <==> JobConflicts(old(w).gens[g], job))
    {
      if JobConflicts(w.gens[g], job) {
        return Err;
      }
      r := WriteJob(g, job);
    }

    /** Pauses the registration of a generation whose job is recorded. */
    method PauseRow(g: GenId) returns (r: Reply<Unit>)
      requires Valid() && g < |w.gens| && w.gens[g].job.Some? && w.gens[g].runner.Some?
      modifies this
      ensures Valid() && Continues() && OnlyRow(old(w), w, g)
      ensures SameRow(old(w).gens[g], w.gens[g])
      ensures !old(w).gens[g].state.Quarantined? ==> w.gens[g] == old(w).gens[g]
      ensures quiet ==> r.Ok? && PausedOrGone(w, g)
    {
      PauseOnlyPauses(w, g);
      r := Call(Pause(g));
    }
  }

  lemma GoneOnlyShrinks(w: World, g: GenId, next: GenState)
    requires Inv(w) && g < |w.gens| && Enabled(w, Advance(g, next))
    ensures forall w1 :: (Rely(w, w1) || Rely(Apply(w, Advance(g, next)), w1)) && Gone(w, g) ==> Gone(w1, g)
  {
    StepKeepsInv(w, Advance(g, next));
    forall w1 | (Rely(w, w1) || Rely(Apply(w, Advance(g, next)), w1)) && Gone(w, g) ensures Gone(w1, g) {
      if Rely(w, w1) {
        GoneStable(w, w1, g);
      } else {
        GoneStable(Apply(w, Advance(g, next)), w1, g);
      }
    }
  }

  predicate PausedOrGone(w: World, g: GenId) {
    g < |w.gens| && w.gens[g].runner.Some? &&
    (w.gens[g].runner.value in w.remote ==> w.remote[w.gens[g].runner.value].paused)
  }

  lemma PauseOnlyPauses(w: World, g: GenId)
    requires g < |w.gens| && w.gens[g].runner.Some?
    ensures var w1 := Apply(w, Pause(g)); w1 == w.(remote := w1.remote) && PausedOrGone(w1, g)
  {
  }

  /** The store binds no id that is not positive, and none over another. */
  predicate RunnerRefused(gen: Generation, id: RunnerId) {
    id == 0 || (gen.runner.Some? && gen.runner != Some(id))
  }

  /** Another job is on record already. */
  predicate JobConflicts(gen: Generation, job: JobId) {
    gen.job.Some? && gen.job != Some(job)
  }

  /** Nothing but row g changed, apart from what others may do. */
  ghost predicate OnlyRow(w0: World, w1: World, g: GenId) {
    && |w1.gens| == |w0.gens|
    && (forall x :: 0 <= x < |w0.gens| && x != g ==> SameRow(w0.gens[x], w1.gens[x]))
    && w1.anchors == w0.anchors
    && w1.head.tombstone == w0.head.tombstone
    && w1.gate.held == w0.gate.held
    && w1.anchorPosts == w0.anchorPosts
  }

  lemma OnlyRowTransitive(a: World, b: World, c: World, g: GenId)
    requires OnlyRow(a, b, g) && OnlyRow(b, c, g)
    ensures OnlyRow(a, c, g)
  {
    forall x | 0 <= x < |a.gens| && x != g ensures SameRow(a.gens[x], c.gens[x]) {
      assert SameRow(a.gens[x], b.gens[x]) && SameRow(b.gens[x], c.gens[x]);
    }
  }

  function Moved(gen: Generation, next: GenState): Generation {
    gen.(state := next, everQuarantined := gen.everQuarantined || next.Quarantined?)
  }

  /** A row write that was answered has happened; one that was not may have. */
  predicate Written(before: Generation, wanted: Generation, after: Generation, r: Reply<Unit>) {
    SameRow(wanted, after) || (!r.Ok? && SameRow(before, after))
  }
}
