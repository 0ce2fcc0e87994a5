/** Every step of a Fleet keeps the invariant, so every run is safe. */
module FleetSafety {
  import opened Lifecycle
  import opened Wrappers
  import opened FleetWorld

  // ---- Counting ----

  lemma {:induction false} OccupancyUpdate(gens: seq<Generation>, g: nat, gen: Generation)
    requires g < |gens|
    ensures Occupancy(gens[g := gen]) ==
            Occupancy(gens) - (if CountsOccupancy(gens[g].state) then 1 else 0) +
            (if CountsOccupancy(gen.state) then 1 else 0)
  {
    var n := |gens| - 1;
    if g == n {
      assert gens[g := gen][..n] == gens[..n];
    } else {
      assert gens[g := gen][..n] == gens[..n][g := gen];
      OccupancyUpdate(gens[..n], g, gen);
    }
  }

  lemma {:induction false} OccupancyZero(gens: seq<Generation>, g: nat)
    requires Occupancy(gens) == 0 && g < |gens|
    ensures gens[g].state == Destroyed
  {
    if g < |gens| - 1 {
      OccupancyZero(gens[..|gens| - 1], g);
    }
  }

  /** Effective capacity never exceeds occupancy. */
  lemma {:induction false} EffectiveWithinOccupancy(gens: seq<Generation>)
    ensures Effective(gens) <= Occupancy(gens)
  {
    if gens != [] {
      EffectiveWithinOccupancy(gens[..|gens| - 1]);
    }
  }

  // ---- The log ----

  /** Appending an event keeps the log properties when the event is new (a
      post), comes before the end, and an insertion is within the limit. */
  lemma LogGrows(log: seq<Event>, e: Event)
    requires PostedAtMostOnce(log) && NothingAfterTheEnd(log) && InsertedWithinLimit(log)
    requires e.GenerationPosted? ==> e !in log
    requires e.GenerationInserted? || e.GenerationPosted? || e.RevisionCommitted? ==> DeletionCommitted !in log
    requires e.AnchorPosted? ==> TombstoneWritten !in log
    requires e.GenerationInserted? ==> e.occupancy <= MaxInForce(log)
    ensures PostedAtMostOnce(log + [e]) && NothingAfterTheEnd(log + [e]) && InsertedWithinLimit(log + [e])
    ensures MaxInForce(log + [e]) == if e.RevisionCommitted? then e.max else MaxInForce(log)
    ensures forall x :: x in log + [e] <==> x in log || x == e
  {
    var more := log + [e];
    assert more[..|more| - 1] == log;
    forall i | 0 <= i < |more| && more[i].GenerationInserted?
      ensures more[i].occupancy <= MaxInForce(more[..i])
    {
      if i < |log| {
        assert more[..i] == log[..i];
      } else {
        assert more[..i] == log;
      }
    }
  }

  // ---- Rows ----

  /** Changing one generation row keeps the invariant when the new row is
      coherent, its landing is unchanged and a tombstoned Fleet stays empty. */
  lemma RowUpdateKeepsInv(w: World, g: GenId, gen: Generation)
    requires Inv(w) && g < |w.gens|
    requires gen.landed == w.gens[g].landed && gen.posted == w.gens[g].posted
    requires w.head.tombstone ==> gen.state == w.gens[g].state || gen.state == Destroyed
    requires RowCoherent(SetGen(w, g, gen), g)
    ensures Inv(SetGen(w, g, gen))
  {
    var w' := SetGen(w, g, gen);
    OccupancyUpdate(w.gens, g, gen);
    if w.head.tombstone {
      OccupancyZero(w.gens, g);
    }
    forall x | 0 <= x < |w'.gens| ensures RowCoherent(w', x) {
      if x != g {
        assert RowCoherent(w, x);
      }
    }
  }

  /** Taking registrations away keeps the invariant. */
  lemma RemovalKeepsInv(w: World, id: RunnerId)
    requires Inv(w)
    ensures Inv(w.(remote := Without(w.remote, id)))
  {
    var w' := w.(remote := Without(w.remote, id));
    forall x | 0 <= x < |w'.gens| ensures RowCoherent(w', x) {
      assert RowCoherent(w, x);
    }
  }

  lemma AdvanceKeepsInv(w: World, g: GenId, next: GenState)
    requires Inv(w) && Enabled(w, Advance(g, next))
    ensures Inv(Apply(w, Advance(g, next)))
  {
    var gen := w.gens[g];
    var changed := gen.(state := next, everQuarantined := gen.everQuarantined || next.Quarantined?);
    assert RowCoherent(w, g);
    if w.head.tombstone {
      OccupancyZero(w.gens, g);
    }
    var w' := SetGen(w, g, changed);
    assert Settled(w', g) == Settled(w, g);
    RowUpdateKeepsInv(w, g, changed);
  }

  lemma OpWriteKeepsInv(w: World, s: Step)
    requires Inv(w) && Enabled(w, s)
    requires s.InsertOp? || s.SetOp?
    ensures Inv(Apply(w, s))
  {
    var gen := w.gens[s.gen];
    assert RowCoherent(w, s.gen);
    RowUpdateKeepsInv(w, s.gen, gen.(op := if s.InsertOp? then Starting else s.op));
  }

  lemma CheckpointKeepsInv(w: World, s: Step)
    requires Inv(w) && Enabled(w, s)
    requires s.SetResult? || s.RequestExpiry? || s.SetCleaned?
    ensures Inv(Apply(w, s))
  {
    var gen := w.gens[s.gen];
    assert RowCoherent(w, s.gen);
    var changed := match s
      case SetResult(_) => gen.(result := true)
      case RequestExpiry(_) => gen.(expiring := true)
      case SetCleaned(_) => gen.(cleaned := true);
    RowUpdateKeepsInv(w, s.gen, changed);
  }

  lemma IdentityWriteKeepsInv(w: World, s: Step)
    requires Inv(w) && Enabled(w, s)
    requires s.SetRunner? || s.SetJob? || s.Finalize?
    ensures Inv(Apply(w, s))
  {
    var g := s.gen;
    var gen := w.gens[g];
    assert RowCoherent(w, g);
    var changed := match s
      case SetRunner(_, id) => gen.(runner := Some(id))
      case SetJob(_, job) => gen.(job := Some(job))
      case Finalize(_) => gen.(state := Destroyed);
    RowUpdateKeepsInv(w, g, changed);
  }

  lemma PostKeepsRows(w: World, g: GenId, landed: Option<RunnerId>)
    requires Inv(w) && Enabled(w, PostGeneration(g, landed))
    ensures var w' := Apply(w, PostGeneration(g, landed));
            forall x :: 0 <= x < |w'.gens| ==> RowCoherent(w', x)
  {
    var w' := Apply(w, PostGeneration(g, landed));
    forall x | 0 <= x < |w'.gens| ensures RowCoherent(w', x) {
      assert RowCoherent(w, x);
    }
  }

  lemma LandingIsDistinct(w: World, w': World, g: GenId)
    requires Inv(w) && g < |w.gens| && |w'.gens| == |w.gens|
    requires w'.gens[g].landed.Some? ==> w'.gens[g].landed.value >= w.nextId
    requires forall x :: 0 <= x < |w.gens| && x != g ==> w'.gens[x].landed == w.gens[x].landed
    ensures DistinctLandings(w'.gens)
  {
    forall x | 0 <= x < |w.gens| && w.gens[x].landed.Some? ensures w.gens[x].landed.value < w.nextId {
      assert RowCoherent(w, x);
    }
  }

  lemma PostKeepsRegistrations(w: World, g: GenId, landed: Option<RunnerId>)
    requires Inv(w) && Enabled(w, PostGeneration(g, landed))
    ensures var w' := Apply(w, PostGeneration(g, landed));
            OwnComesFromPost(w') && NamesAreOurs(w') && OneNamedAnchor(w') && DistinctLandings(w'.gens)
  {
    assert RowCoherent(w, g);
    LandingIsDistinct(w, Apply(w, PostGeneration(g, landed)), g);
  }

  lemma PostKeepsInv(w: World, g: GenId, landed: Option<RunnerId>)
    requires Inv(w) && Enabled(w, PostGeneration(g, landed))
    ensures Inv(Apply(w, PostGeneration(g, landed)))
  {
    var w' := Apply(w, PostGeneration(g, landed));
    assert RowCoherent(w, g);
    LogGrows(w.log, GenerationPosted(g));
    PostKeepsRows(w, g, landed);
    PostKeepsRegistrations(w, g, landed);
    OccupancyUpdate(w.gens, g, w'.gens[g]);
  }

  lemma InsertKeepsInv(w: World)
    requires Inv(w) && Enabled(w, Insert)
    ensures Inv(Apply(w, Insert))
    ensures Occupancy(Apply(w, Insert).gens) == Occupancy(w.gens) + 1
  {
    var w' := Apply(w, Insert);
    assert w'.gens[..|w'.gens| - 1] == w.gens;
    LogGrows(w.log, GenerationInserted(|w.gens|, Occupancy(w'.gens)));
    forall x | 0 <= x < |w'.gens| ensures RowCoherent(w', x) {
      if x < |w.gens| {
        assert RowCoherent(w, x);
      }
    }
  }

  /** A registration with a fresh id that is not a generation's of this Fleet. */
  lemma LandKeepsInv(w: World, id: RunnerId, r: Registration)
    requires Inv(w) && id >= w.nextId
    requires MayBeForeign(w.provider, r) || (OwnAnchor(r) && NoLiveAnchor(w) && r.description.AnchorName? &&
                                  r.description.revision in w.anchors && !w.head.tombstone)
    ensures Inv(Land(w, Some(id), r))
  {
    var w' := Land(w, Some(id), r);
    forall x | 0 <= x < |w'.gens| ensures RowCoherent(w', x) {
      assert RowCoherent(w, x);
    }
  }

  lemma PostAnchorKeepsInv(w: World, r: Revision, landed: Option<RunnerId>)
    requires Inv(w) && Enabled(w, PostAnchor(r, landed))
    ensures Inv(Apply(w, PostAnchor(r, landed)))
  {
    var name := AnchorName(r);
    var mid := Land(w, landed, Registration(name, AnchorMarker(name), true, true));
    if landed.Some? {
      LandKeepsInv(w, landed.value, Registration(name, AnchorMarker(name), true, true));
    }
    LogGrows(mid.log, AnchorPosted(r));
    RowsAfterEvent(mid, Apply(w, PostAnchor(r, landed)), AnchorPosted(r));
  }

  lemma RevisionKeepsInv(w: World, max: int)
    requires Inv(w) && Enabled(w, CommitRevision(max))
    ensures Inv(Apply(w, CommitRevision(max)))
  {
    var e := RevisionCommitted(max);
    var w' := Apply(w, CommitRevision(max));
    LogGrows(w.log, e);
    RowsAfterEvent(w, w', e);
  }

  lemma DeletionKeepsInv(w: World)
    requires Inv(w) && Enabled(w, CommitDeletion)
    ensures Inv(Apply(w, CommitDeletion))
  {
    var w' := Apply(w, CommitDeletion);
    LogGrows(w.log, DeletionCommitted);
    RowsAfterEvent(w, w', DeletionCommitted);
  }

  lemma TombstoneKeepsInv(w: World)
    requires Inv(w) && Enabled(w, SetTombstone)
    ensures Inv(Apply(w, SetTombstone))
  {
    var w' := Apply(w, SetTombstone);
    LogGrows(w.log, TombstoneWritten);
    RowsAfterEvent(w, w', TombstoneWritten);
  }

  /** A head commit logs one event and leaves rows and registrations alone. */
  lemma RowsAfterEvent(w: World, w': World, e: Event)
    requires Inv(w) && !e.GenerationPosted?
    requires w'.gens == w.gens && w'.remote == w.remote && w'.nextId == w.nextId && w'.log == w.log + [e]
    requires w'.provider == w.provider
    ensures forall x :: 0 <= x < |w'.gens| ==> RowCoherent(w', x)
    ensures OwnComesFromPost(w')
  {
    forall x | 0 <= x < |w'.gens| ensures RowCoherent(w', x) {
      assert RowCoherent(w, x);
    }
  }

  /** Rows depend only on the generations, the registrations' ids and the log. */
  lemma RowsKept(w: World, w': World)
    requires Inv(w)
    requires w'.gens == w.gens && w'.remote.Keys == w.remote.Keys && w'.nextId == w.nextId && w'.log == w.log
    requires w'.provider == w.provider
    requires forall a :: a in w.remote ==>
               w'.remote[a].note == w.remote[a].note && w'.remote[a].description == w.remote[a].description
    ensures forall x :: 0 <= x < |w'.gens| ==> RowCoherent(w', x)
  {
    forall x | 0 <= x < |w'.gens| ensures RowCoherent(w', x) {
      assert RowCoherent(w, x);
    }
  }

  lemma GateStepKeepsInv(w: World, s: Step)
    requires Inv(w) && Enabled(w, s)
    requires s.AcquireShared? || s.AcquireExclusive? || s.Release? || s.OtherClaim? || s.OtherRelease? ||
             s.ApiLock? || s.ApiUnlock?
    ensures Inv(Apply(w, s))
  {
    RowsKept(w, Apply(w, s));
  }

  lemma AnchorRowStepKeepsInv(w: World, s: Step)
    requires Inv(w) && Enabled(w, s)
    requires s.BeginAnchor? || s.SetAnchor? || s.RemoveAnchor?
    ensures Inv(Apply(w, s))
  {
    RowsKept(w, Apply(w, s));
  }

  lemma AttributesKeepInv(w: World, id: RunnerId, matching: bool, paused: bool)
    requires Inv(w) && id in w.remote
    ensures Inv(w.(remote := w.remote[id := w.remote[id].(matching := matching, paused := paused)]))
  {
    var w' := w.(remote := w.remote[id := w.remote[id].(matching := matching, paused := paused)]);
    RowsKept(w, w');
    assert forall a :: a in w'.remote ==>
             w'.remote[a].note == w.remote[a].note && w'.remote[a].description == w.remote[a].description;
  }

  lemma RowStepKeepsInv(w: World, s: Step)
    requires Inv(w) && Enabled(w, s) && OnGeneration(s)
    ensures Inv(Apply(w, s))
  {
    match s
    case Advance(g, next) => AdvanceKeepsInv(w, g, next);
    case InsertOp(_) => OpWriteKeepsInv(w, s);
    case SetOp(_, _) => OpWriteKeepsInv(w, s);
    case SetResult(_) => CheckpointKeepsInv(w, s);
    case RequestExpiry(_) => CheckpointKeepsInv(w, s);
    case SetCleaned(_) => CheckpointKeepsInv(w, s);
    case SetRunner(_, _) => IdentityWriteKeepsInv(w, s);
    case SetJob(_, _) => IdentityWriteKeepsInv(w, s);
    case Finalize(_) => IdentityWriteKeepsInv(w, s);
    case PostGeneration(g, landed) => PostKeepsInv(w, g, landed);
    case Pause(g) => PauseKeepsInv(w, g);
    case PauseForRemoval(g) => PauseKeepsInv(w, g);
  }

  lemma PauseKeepsInv(w: World, g: GenId)
    requires Inv(w) && g < |w.gens| && w.gens[g].runner.Some?
    ensures Inv(Paused(w, g))
  {
    var runner := w.gens[g].runner.value;
    if runner in w.remote {
      AttributesKeepInv(w, runner, w.remote[runner].matching, true);
    }
  }

  predicate OnGeneration(s: Step) {
    s.Advance? || s.InsertOp? || s.SetOp? || s.SetResult? || s.SetRunner? || s.SetJob? || s.Finalize? ||
    s.PostGeneration? || s.Pause? || s.RequestExpiry? || s.SetCleaned? || s.PauseForRemoval?
  }

  predicate OnRegistrations(s: Step) {
    s.PostAnchor? || s.Delete? || s.Vanish? || s.Foreign? || s.Drift?
  }

  lemma RegistrationStepKeepsInv(w: World, s: Step)
    requires Inv(w) && Enabled(w, s) && OnRegistrations(s)
    ensures Inv(Apply(w, s))
  {
    match s
    case PostAnchor(r, landed) => PostAnchorKeepsInv(w, r, landed);
    case Delete(id) => RemovalKeepsInv(w, id);
    case Vanish(id) => RemovalKeepsInv(w, id);
    case Foreign(id, r) => LandKeepsInv(w, id, r);
    case Drift(id, matching, paused) => AttributesKeepInv(w, id, matching, paused);
  }

  predicate OnHead(s: Step) {
    s.CommitRevision? || s.CommitDeletion? || s.SetTombstone? || s.Insert?
  }

  lemma HeadStepKeepsInv(w: World, s: Step)
    requires Inv(w) && Enabled(w, s) && OnHead(s)
    ensures Inv(Apply(w, s))
  {
    match s
    case Insert => InsertKeepsInv(w);
    case CommitRevision(max) => RevisionKeepsInv(w, max);
    case CommitDeletion => DeletionKeepsInv(w);
    case SetTombstone => TombstoneKeepsInv(w);
  }

  predicate OnAnchorRows(s: Step) {
    s.BeginAnchor? || s.SetAnchor? || s.RemoveAnchor?
  }

  /** Any enabled step, by the supervisor or by anyone else, keeps the
      invariant. */
  lemma StepKeepsInv(w: World, s: Step)
    requires Inv(w) && Enabled(w, s)
    ensures Inv(Apply(w, s))
  {
    if OnGeneration(s) {
      RowStepKeepsInv(w, s);
    } else if OnRegistrations(s) {
      RegistrationStepKeepsInv(w, s);
    } else if OnHead(s) {
      HeadStepKeepsInv(w, s);
    } else if OnAnchorRows(s) {
      AnchorRowStepKeepsInv(w, s);
    } else {
      GateStepKeepsInv(w, s);
    }
  }

  // ---- Runs ----

  /** A run: the worlds it goes through and the steps between them. */
  datatype Run = Run(worlds: seq<World>, steps: seq<Step>) {
    predicate Shaped() {
      |worlds| == |steps| + 1
    }

    function Now(): World
      requires Shaped()
    {
      worlds[|steps|]
    }

    ghost predicate Taken(i: nat)
      requires Shaped() && i < |steps|
    {
      Enabled(worlds[i], steps[i]) && worlds[i + 1] == Apply(worlds[i], steps[i])
    }
  }

  ghost predicate IsRun(max: int, run: Run) {
    run.Shaped() && run.worlds[0] == Start(run.worlds[0].provider, max) && forall i :: 0 <= i < |run.steps| ==> run.Taken(i)
  }

  function Extended(run: Run, s: Step): Run
    requires run.Shaped()
  {
    Run(run.worlds + [Apply(run.Now(), s)], run.steps + [s])
  }

  lemma RunExtends(max: int, run: Run, s: Step)
    requires IsRun(max, run) && Enabled(run.Now(), s)
    ensures IsRun(max, Extended(run, s)) && Extended(run, s).Now() == Apply(run.Now(), s)
  {
    var more := Extended(run, s);
    forall i | 0 <= i < |more.steps| ensures more.Taken(i) {
      if i < |run.steps| {
        assert run.Taken(i);
      }
    }
  }

  lemma {:induction false} RunKeepsInv(max: int, run: Run, n: nat)
    requires IsRun(max, run) && n <= |run.steps|
    ensures Inv(run.worlds[n])
  {
    if n == 0 {
      StartSatisfiesInv(run.worlds[0].provider, max);
    } else {
      RunKeepsInv(max, run, n - 1);
      assert run.Taken(n - 1);
      StepKeepsInv(run.worlds[n - 1], run.steps[n - 1]);
    }
  }

  /** Every run of enabled steps, in any interleaving and of any length, goes
      through safe worlds only; the last of them is what a crash leaves behind. */
  lemma EveryRunIsSafe(max: int, run: Run)
    requires IsRun(max, run)
    ensures forall w :: w in run.worlds ==> Safe(w)
  {
    forall n | 0 <= n <= |run.steps| ensures Safe(run.worlds[n]) {
      RunKeepsInv(max, run, n);
      InvIsSafe(run.worlds[n]);
    }
  }

  /** The largest limit any revision so far has had. */
  function LargestLimit(log: seq<Event>): (max: int)
    ensures max >= MaxInForce(log) && max >= 0
  {
    if log == [] then 0
    else
      var e, before := log[|log| - 1], LargestLimit(log[..|log| - 1]);
      if e.RevisionCommitted? && e.max > before then e.max else before
  }

  /** A step on one generation row never raises occupancy. */
  lemma RowStepNeverOccupies(w: World, s: Step)
    requires Enabled(w, s) && OnGeneration(s)
    ensures Occupancy(Apply(w, s).gens) <= Occupancy(w.gens)
  {
    OccupancyUpdate(w.gens, s.gen, Apply(w, s).gens[s.gen]);
    assert w.gens[s.gen := w.gens[s.gen]] == w.gens;
  }

  /** Only an insertion makes occupancy grow, and then by one and to at most
      the limit of the revision in force. */
  lemma OccupancyGrowsOnlyByInsert(w: World, s: Step)
    requires Inv(w) && Enabled(w, s)
    ensures Occupancy(Apply(w, s).gens) > Occupancy(w.gens) ==>
              s.Insert? && Occupancy(Apply(w, s).gens) == Occupancy(w.gens) + 1 <= MaxInForce(w.log)
  {
    if s.Insert? {
      InsertKeepsInv(w);
    } else if OnGeneration(s) {
      RowStepNeverOccupies(w, s);
    }
  }

  lemma LargestLimitGrows(log: seq<Event>, more: seq<Event>)
    requires log <= more && |more| <= |log| + 1
    ensures LargestLimit(log) <= LargestLimit(more)
  {
    if |more| > |log| {
      assert more[..|more| - 1] == log;
    } else {
      assert more == log;
    }
  }

  /** Over any run with changing revisions, occupancy (and with it effective
      capacity) never exceeds the largest limit that has been in force. */
  lemma {:induction false} OccupancyStaysBounded(max: int, run: Run, n: nat)
    requires IsRun(max, run) && n <= |run.steps|
    ensures var w := run.worlds[n]; Effective(w.gens) <= Occupancy(w.gens) <= LargestLimit(w.log)
  {
    EffectiveWithinOccupancy(run.worlds[n].gens);
    if n > 0 {
      OccupancyStaysBounded(max, run, n - 1);
      RunKeepsInv(max, run, n - 1);
      assert run.Taken(n - 1);
      StepStaysBounded(run.worlds[n - 1], run.steps[n - 1]);
    }
  }

  lemma StepStaysBounded(w: World, s: Step)
    requires Inv(w) && Enabled(w, s) && Occupancy(w.gens) <= LargestLimit(w.log)
    ensures Occupancy(Apply(w, s).gens) <= LargestLimit(Apply(w, s).log)
  {
    OccupancyGrowsOnlyByInsert(w, s);
    LogOnlyGrows(w, s);
    LargestLimitGrows(w.log, Apply(w, s).log);
  }

  lemma LogOnlyGrows(w: World, s: Step)
    ensures w.log <= Apply(w, s).log && |Apply(w, s).log| <= |w.log| + 1
  {
  }

  /** Whatever the step, a generation's state stays or moves along the diagram. */
  lemma StepMovesLegally(w: World, s: Step, g: GenId)
    requires Enabled(w, s) && g < |w.gens|
    ensures var w' := Apply(w, s);
            g < |w'.gens| && (w'.gens[g].state == w.gens[g].state || TransitionAllowed(w.gens[g].state, w'.gens[g].state))
  {
    if OnGeneration(s) {
      RowStepMovesLegally(w, s, g);
    } else if !s.Insert? {
      assert Apply(w, s).gens == w.gens;
    }
  }

  lemma RowStepMovesLegally(w: World, s: Step, g: GenId)
    requires Enabled(w, s) && OnGeneration(s) && g < |w.gens|
    ensures var w' := Apply(w, s);
            |w'.gens| == |w.gens| && (w'.gens[g].state == w.gens[g].state || TransitionAllowed(w.gens[g].state, w'.gens[g].state))
  {
    assert Apply(w, s).gens == w.gens || Apply(w, s).gens == w.gens[s.gen := Apply(w, s).gens[s.gen]];
  }

  /** The states one generation goes through from world m to world n. */
  function History(run: Run, g: GenId, m: nat, n: nat): seq<GenState>
    requires m <= n < |run.worlds| && forall k :: m <= k <= n ==> g < |run.worlds[k].gens|
  {
    seq(n - m + 1, i requires 0 <= i <= n - m => run.worlds[m + i].gens[g].state)
  }

  lemma {:induction false} RowsStay(max: int, run: Run, g: GenId, m: nat, n: nat)
    requires IsRun(max, run) && m <= n <= |run.steps| && g < |run.worlds[m].gens|
    ensures forall k :: m <= k <= n ==> g < |run.worlds[k].gens|
    decreases n - m
  {
    if m < n {
      RowsStay(max, run, g, m, n - 1);
      assert run.Taken(n - 1);
      StepMovesLegally(run.worlds[n - 1], run.steps[n - 1], g);
    }
  }

  /** Over any run, each generation's history is legal; so once it stops
      counting as effective it never counts again, and once destroyed it stays
      destroyed. */
  lemma HistoriesAreLegal(max: int, run: Run, g: GenId, m: nat, n: nat)
    requires IsRun(max, run) && m <= n <= |run.steps| && g < |run.worlds[m].gens|
    ensures g < |run.worlds[n].gens|
    ensures !CountsEffective(run.worlds[m].gens[g].state) ==> !CountsEffective(run.worlds[n].gens[g].state)
    ensures run.worlds[m].gens[g].state.Destroyed? ==> run.worlds[n].gens[g].state.Destroyed?
  {
    RowsStay(max, run, g, m, n);
    var h := History(run, g, m, n);
    forall i | 0 <= i < |h| - 1 ensures h[i + 1] == h[i] || TransitionAllowed(h[i], h[i + 1]) {
      assert run.Taken(m + i);
      StepMovesLegally(run.worlds[m + i], run.steps[m + i], g);
    }
    EffectiveNeverReturns(h, 0, n - m);
  }

  lemma StepCountsAnchors(w: World, s: Step)
    requires w.anchorPosts == AnchorsPosted(w.log)
    ensures Apply(w, s).anchorPosts == AnchorsPosted(Apply(w, s).log)
  {
    LogOnlyGrows(w, s);
    OnlyAnchorsCount(w, s);
    OneEventMore(w.log, Apply(w, s).log);
  }

  /** The counter moves with the event. */
  lemma OnlyAnchorsCount(w: World, s: Step)
    ensures var w1 := Apply(w, s);
            w1.anchorPosts == w.anchorPosts + if |w1.log| > |w.log| && w1.log[|w.log|].AnchorPosted? then 1 else 0
  {
  }

  lemma OneEventMore(log: seq<Event>, more: seq<Event>)
    requires log <= more && |more| <= |log| + 1
    ensures AnchorsPosted(more) ==
            AnchorsPosted(log) + if |more| > |log| && more[|log|].AnchorPosted? then 1 else 0
  {
    if |more| > |log| {
      assert more[..|more| - 1] == log;
    } else {
      assert more == log;
    }
  }

  /** The counter counts the anchor requests of the log. */
  lemma {:induction false} AnchorsAreCounted(max: int, run: Run, n: nat)
    requires IsRun(max, run) && n <= |run.steps|
    ensures run.worlds[n].anchorPosts == AnchorsPosted(run.worlds[n].log)
  {
    if n > 0 {
      AnchorsAreCounted(max, run, n - 1);
      assert run.Taken(n - 1);
      StepCountsAnchors(run.worlds[n - 1], run.steps[n - 1]);
    } else {
      assert run.worlds[0].log[..0] == [];
    }
  }

  lemma {:induction false} ProviderStays(max: int, run: Run, n: nat)
    requires IsRun(max, run) && n <= |run.steps|
    ensures run.worlds[n].provider == run.worlds[0].provider
  {
    if n > 0 {
      ProviderStays(max, run, n - 1);
      assert run.Taken(n - 1);
      StepKeepsProvider(run.worlds[n - 1], run.steps[n - 1]);
    }
  }

  lemma StepKeepsProvider(w: World, s: Step)
    ensures Apply(w, s).provider == w.provider
  {
  }

  /** A run that goes on from another has gone through the same worlds. */
  lemma {:induction false} RunsAgree(max: int, before: Run, after: Run, n: nat)
    requires IsRun(max, before) && IsRun(max, after) && before.worlds[0] == after.worlds[0]
    requires before.steps <= after.steps && n <= |before.steps|
    ensures before.worlds[n] == after.worlds[n]
  {
    if n > 0 {
      RunsAgree(max, before, after, n - 1);
      assert before.Taken(n - 1) && after.Taken(n - 1);
    }
  }

  /** A run that goes on has been where it was. */
  lemma RunPasses(max: int, before: Run, after: Run)
    requires IsRun(max, before) && IsRun(max, after) && before.steps <= after.steps
    requires before.Now().provider == after.Now().provider
    ensures after.worlds[|before.steps|] == before.Now()
  {
    ProviderStays(max, before, |before.steps|);
    ProviderStays(max, after, |after.steps|);
    RunsAgree(max, before, after, |before.steps|);
  }

  lemma {:induction false} LeftStaysLeft(max: int, run: Run, g: GenId, m: nat, n: nat)
    requires IsRun(max, run) && m <= n <= |run.steps| && g < |run.worlds[m].gens|
    requires LeftCreating(run.worlds[m].gens[g].state)
    ensures g < |run.worlds[n].gens| && LeftCreating(run.worlds[n].gens[g].state)
    decreases n - m
  {
    if m < n {
      LeftStaysLeft(max, run, g, m, n - 1);
      assert run.Taken(n - 1);
      StepMovesLegally(run.worlds[n - 1], run.steps[n - 1], g);
    }
  }

  /** However a run goes on, a row that has left the create window never
      returns to it. */
  lemma NeverCreatingAgain(max: int, before: Run, after: Run, g: GenId)
    requires IsRun(max, before) && IsRun(max, after) && before.steps <= after.steps
    requires before.Now().provider == after.Now().provider
    requires g < |before.Now().gens| && LeftCreating(before.Now().gens[g].state)
    ensures g < |after.Now().gens| && LeftCreating(after.Now().gens[g].state)
  {
    RunPasses(max, before, after);
    LeftStaysLeft(max, after, g, |before.steps|, |after.steps|);
  }

  // ---- Exact recording ----

  /** The registration landed under this id and nobody wrote it down. */
  predicate Unrecorded(gen: Generation, id: RunnerId) {
    gen.landed == Some(id) && gen.runner.None? && !gen.everQuarantined
  }

  /** Still in the create window with its id unrecorded. */
  predicate Awaiting(w: World, g: GenId, id: RunnerId) {
    g < |w.gens| && Unrecorded(w.gens[g], id) && !LeftCreating(w.gens[g].state)
  }

  /** Unrecorded for good, or already gone. */
  predicate Missed(w: World, g: GenId, id: RunnerId) {
    g < |w.gens| && Unrecorded(w.gens[g], id) && (LeftCreating(w.gens[g].state) || id !in w.remote)
  }

  lemma RowStepNeverMisses(w: World, s: Step, g: GenId, id: RunnerId)
    requires Inv(w) && Enabled(w, s) && OnGeneration(s)
    requires Missed(Apply(w, s), g, id)
    ensures Missed(w, g, id)
  {
    if g < |w.gens| {
      assert RowCoherent(w, g);
    }
    if s.PostGeneration? || s.Advance? {
      RowMoveNeverMisses(w, s, g, id);
    }
  }

  lemma RowMoveNeverMisses(w: World, s: Step, g: GenId, id: RunnerId)
    requires Inv(w) && Enabled(w, s) && (s.PostGeneration? || s.Advance?)
    requires Missed(Apply(w, s), g, id)
    ensures Missed(w, g, id)
  {
    assert RowCoherent(w, g);
  }

  /** The row is missed only if somebody else removes what it waits for. */
  lemma OnlyRemovalMisses(w: World, s: Step, g: GenId, id: RunnerId)
    requires Inv(w) && Enabled(w, s) && Missed(Apply(w, s), g, id)
    ensures Missed(w, g, id) || (s == Vanish(id) && Awaiting(w, g, id))
  {
    if OnGeneration(s) {
      RowStepNeverMisses(w, s, g, id);
    } else if !OnRegistrations(s) && !s.Insert? {
      assert Apply(w, s).gens == w.gens && Apply(w, s).remote == w.remote;
    }
  }

  /** In every run, a registration that landed and is unrecorded although its
      unquarantined generation has left Creating, or although it is gone, was
      removed by somebody else while that generation was waiting in the create
      window with no id on record. */
  lemma {:induction false} UnrecordedWasRemoved(max: int, run: Run, n: nat, g: GenId, id: RunnerId) returns (i: nat)
    requires IsRun(max, run) && n <= |run.steps| && Missed(run.worlds[n], g, id)
    ensures i < n && run.steps[i] == Vanish(id) && Awaiting(run.worlds[i], g, id)
    decreases n
  {
    if n == 0 {
      assert false;
    } else {
      RunKeepsInv(max, run, n - 1);
      assert run.Taken(n - 1);
      OnlyRemovalMisses(run.worlds[n - 1], run.steps[n - 1], g, id);
      if Missed(run.worlds[n - 1], g, id) {
        i := UnrecordedWasRemoved(max, run, n - 1, g, id);
      } else {
        i := n - 1;
      }
    }
  }

  /** The exact-recording theorem: unless somebody else removed it while its
      generation waited for it, what landed is recorded, exactly, by the time an
      unquarantined generation has left Creating. */
  lemma LandedIsRecordedExactly(max: int, run: Run, n: nat, g: GenId, id: RunnerId)
    requires IsRun(max, run) && n <= |run.steps| && g < |run.worlds[n].gens|
    requires run.worlds[n].gens[g].landed == Some(id) && !run.worlds[n].gens[g].everQuarantined
    requires LeftCreating(run.worlds[n].gens[g].state)
    requires forall i :: 0 <= i < n && run.steps[i] == Vanish(id) ==> !Awaiting(run.worlds[i], g, id)
    ensures run.worlds[n].gens[g].runner == Some(id)
  {
    RunKeepsInv(max, run, n);
    assert RowCoherent(run.worlds[n], g);
    if run.worlds[n].gens[g].runner.None? {
      var i := UnrecordedWasRemoved(max, run, n, g, id);
    }
  }
}
