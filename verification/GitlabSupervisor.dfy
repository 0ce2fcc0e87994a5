/** One pass of the GitLab Pool supervisor, its effects in order, and the
    service that repeats it (gitlab_supervisor.rs). */
module GitlabSupervisor {
  import opened Int64
  import opened Wrappers
  import opened FleetWorld
  import opened FleetSafety
  import opened SupervisorAccess
  import opened GitlabReadiness
  import opened GitlabAnchors
  import opened GitlabGeneration
  import opened GitlabDestroy
  import opened GitlabObservation
  import opened PoolDriver

  datatype Report = Report(
    target: U64,
    inventory: Inventory,
    created: nat,
    destroyed: nat,
    staleDemand: bool,
    staleInventory: bool)

  const StaleReport := Report(0, Inventory(0, 0, 0, 0), 0, 0, true, true)

  /** A pass creates nothing without a fresh demand proof, over an unknown
      registration, on a stale inventory or while the Fleet is being deleted. */
  predicate MayCreate(report: Report, deleting: bool) {
    !report.staleDemand && !report.staleInventory && report.inventory.unknown == 0 && !deleting
  }

  /** What a pass may do to the number of rows. */
  ghost predicate Grown(before: nat, after: nat, most: nat) {
    before <= after <= before + most
  }

  /** Rows are only added, within the capacity, and only by a pass that may
      create; its report counts those that came up, and at most one did not. */
  ghost predicate PassGrows(before: nat, after: nat, most: nat, r: Reply<Report>, deleting: bool) {
    && Grown(before, after, most)
    && (r.Ok? && !MayCreate(r.value, deleting) ==> after == before && r.value.created == 0)
    && (r.Ok? ==> Grown(r.value.created, after - before, 1))
  }

  /** What a completed pass over n rows reports as destroyed it has tried and
      ended: hard expiry looks at every row, the excess pass at every row
      unless demand is stale. */
  predicate PassReports(n: nat, r: Reply<Report>, expiry: seq<Attempt>, excess: seq<Attempt>) {
    r.Ok? ==>
      && r.value.destroyed == AllEnded(expiry) + AllEnded(excess)
      && (!r.value.staleDemand ==> |excess| == n)
  }

  /** A pass that had its inventory leaves none of the n rows it found in the
      create window. */
  predicate PassSettles(n: nat, r: Reply<Report>, w: World) {
    r.Ok? && !r.value.staleInventory ==> forall g :: 0 <= g < n ==> g < |w.gens| && LeftCreating(w.gens[g].state)
  }

  ghost predicate AllDestroyed(w: World) {
    forall g :: 0 <= g < |w.gens| ==> w.gens[g].state.Destroyed?
  }

  /** A Fleet deleted at the revision in charge, with nothing left of it but
      its own anchors; nobody else is at the gate. */
  ghost predicate OnlyAnchorsLeft(w: World, guard: Guard) {
    && IsCurrent(w.head, guard) && w.head.deleting && !w.gate.api && w.gate.others == 0
    && AllDestroyed(w)
    && forall id :: id in w.remote ==> OwnAnchor(w.remote[id])
  }

  predicate CountsFit(w: World) {
    Effective(w.gens) <= I64_MAX && Occupancy(w.gens) <= I64_MAX
  }

  /** Every row is in one of the two states that neither expiry, readiness nor
      retirement touches, whatever they are answered. */
  ghost predicate LeftAlone(w: World) {
    forall g :: 0 <= g < |w.gens| ==> w.gens[g].state.Destroyed? || w.gens[g].state.Quarantined?
  }

  /** And nobody else is at the gate; the counters are 64-bit. */
  ghost predicate Resting(w: World) {
    LeftAlone(w) && CountsFit(w) && GateIdle(w)
  }

  /** A Fleet at the revision in charge, with one sound anchor on record and all
      its generations destroyed or quarantined. */
  ghost predicate AtRest(w: World, guard: Guard) {
    && IsCurrent(w.head, guard) && !w.head.deleting && Resting(w)
    && SomeSettled(w, guard.revision)
  }

  /** A pass that admits no generation succeeds and leaves everything as it was. */
  ghost predicate LeavesAtRest<T>(w0: World, w1: World, r: Reply<T>) {
    |w1.gens| == |w0.gens| ==> r.Ok? && w1 == w0
  }

  lemma {:induction false} DestroyedOccupyNothing(gens: seq<Generation>)
    requires forall g :: 0 <= g < |gens| ==> gens[g].state.Destroyed?
    ensures Occupancy(gens) == 0 && Effective(gens) == 0
  {
    if gens != [] {
      DestroyedOccupyNothing(gens[..|gens| - 1]);
    }
  }

  /** Over such a Fleet a clean inventory shows nothing unknown, and once the
      anchors are cleared it may be buried. */
  lemma NothingIsInTheWay(w0: World, view: seq<RunnerRef>, w1: World, guard: Guard)
    requires OnlyAnchorsLeft(w0, guard) && CleanView(view, w0) && AnchorsCleared(w0, w1)
    ensures Classified(w1.gens, view).unknown == 0 && MayBury(w1, guard)
  {
    DestroyedOccupyNothing(w0.gens);
    UnknownIsExact(w1.gens, view);
    forall x | x in view ensures x.IsAnchor() {
      var i :| 0 <= i < |view| && view[i] == x;
      assert Shows(view[i], w0.remote[view[i].id]);
    }
    assert w1.remote == map[];
  }

  method Tick(s: Supervisor, policy: Policy, now: int)
    returns (r: Reply<Report>, deleting: bool, ghost expiry: seq<Attempt>, ghost excess: seq<Attempt>)
    requires s.Valid() && s.w.gate.held.Free? && ValidPolicy(policy) && policy.max == s.maxRunners
    modifies s
    ensures s.Valid() && s.Continues() && s.w.gate.held.Free?
    ensures PassGrows(|old(s.w).gens|, |s.w.gens|, policy.max, r, deleting)
    ensures PassReports(|old(s.w).gens|, r, expiry, excess) && PassSettles(|old(s.w).gens|, r, s.w)
    ensures s.quiet && r.Ok? && IsCurrent(old(s.w).head, s.guard) ==> |expiry| == |old(s.w).gens|
    ensures s.quiet && OnlyAnchorsLeft(old(s.w), s.guard) ==> r.Ok? && s.w.head.tombstone
    ensures s.quiet && AtRest(old(s.w), s.guard) ==> LeavesAtRest(old(s.w), s.w, r)
    // A pass entered after the deletion commit registers no anchor.
    ensures old(s.w).head.deleting ==> s.w.anchorPosts == old(s.w).anchorPosts
  {
    deleting, expiry, excess := false, [], [];
    var head :- s.CurrentHead();
    if head.None? {
      return Ok(StaleReport), deleting, [], [];
    }
    deleting := head.value.deleting;
    r, expiry, excess := TickCurrent(s, policy, now, deleting);
  }

  /** A pass at the current head: hard expiry first, then everything that
      needs the inventory. */
  method TickCurrent(s: Supervisor, policy: Policy, now: int, deleting: bool)
    returns (r: Reply<Report>, ghost expiry: seq<Attempt>, ghost excess: seq<Attempt>)
    requires s.Valid() && s.w.gate.held.Free? && ValidPolicy(policy) && policy.max == s.maxRunners
    requires !s.w.head.tombstone
    modifies s
    ensures s.Valid() && s.Continues() && s.w.gate.held.Free?
    ensures PassGrows(|old(s.w).gens|, |s.w.gens|, policy.max, r, deleting)
    ensures PassReports(|old(s.w).gens|, r, expiry, excess) && PassSettles(|old(s.w).gens|, r, s.w)
    ensures r.Ok? ==> |expiry| == |old(s.w).gens|
    ensures s.quiet && deleting && OnlyAnchorsLeft(old(s.w), s.guard) ==> r.Ok? && s.w.head.tombstone
    ensures deleting ==> s.w.anchorPosts == old(s.w).anchorPosts
    ensures s.quiet && !deleting && AtRest(old(s.w), s.guard) ==> LeavesAtRest(old(s.w), s.w, r)
  {
    expiry, excess := [], [];
    var expired;
    expired, expiry := ExpireRunners(s);
    if !expired.Ok? {
      return expired.PropagateFailure(), expiry, [];
    }
    r, excess := TickInventory(s, policy, now, deleting);
    if r.Ok? {
      r := Ok(r.value.(destroyed := r.value.destroyed + expired.value));
    }
  }

  /** Without an inventory a pass only writes its status. */
  method TickInventory(s: Supervisor, policy: Policy, now: int, deleting: bool)
    returns (r: Reply<Report>, ghost excess: seq<Attempt>)
    requires s.Valid() && s.w.gate.held.Free? && ValidPolicy(policy) && policy.max == s.maxRunners
    requires !s.w.head.tombstone
    modifies s
    ensures s.Valid() && s.Continues() && s.w.gate.held.Free?
    ensures PassGrows(|old(s.w).gens|, |s.w.gens|, policy.max, r, deleting)
    ensures PassReports(|old(s.w).gens|, r, [], excess) && PassSettles(|old(s.w).gens|, r, s.w)
    ensures s.quiet && deleting && OnlyAnchorsLeft(old(s.w), s.guard) ==> r.Ok? && s.w.head.tombstone
    ensures deleting ==> s.w.anchorPosts == old(s.w).anchorPosts
    ensures s.quiet && !deleting && AtRest(old(s.w), s.guard) ==> LeavesAtRest(old(s.w), s.w, r)
  {
    excess := [];
    var listed, at := s.ListRunners();
    if listed.Crash? {
      return Crash, [];
    }
    if listed.Err? {
      var status := ObserveStatus(s, deleting, false);
      return if status.Ok? then Ok(StaleReport) else status.PropagateFailure(), [];
    }
    FaithfulIsListed(listed.value, at, s.w);
    r, excess := TickListed(s, policy, now, deleting, listed.value);
  }

  /** One anchor of the current revision, sound and on record. */
  ghost predicate SettledAndSound(w: World, revision: Revision, id: RunnerId) {
    AnchorsSettled(w, revision, id) && SoundAnchor(w, id)
  }

  ghost predicate SomeSettled(w: World, revision: Revision) {
    exists id: RunnerId :: SettledAndSound(w, revision, id)
  }

  /** What an undisturbed look at any Fleet not being deleted comes to: one
      sound anchor on record, or none at all if the one it had chosen has
      drifted; and over a Fleet without any, always one. */
  ghost predicate ComesCloser(w0: World, w1: World, revision: Revision) {
    && SameStand(w0, w1)
    && (SomeSettled(w1, revision) || NoLiveAnchor(w1))
    && (SomeSettled(w0, revision) || NoLiveAnchor(w0) ==> SomeSettled(w1, revision))
  }

  lemma SettledIsKept(view: seq<RunnerRef>, revision: Revision, w0: World, anchor: Option<RunnerId>, w1: World)
    requires CleanView(view, w0) && SomeSettled(w0, revision)
    requires LeavesSettled(view, false, revision, w0, true, Ok(anchor), w1)
    ensures w1 == w0 && anchor.Some? && SettledAndSound(w0, revision, anchor.value)
  {
    var id: RunnerId :| SettledAndSound(w0, revision, id);
  }

  /** A sound anchor stays; deleting a drifted one leaves none. */
  lemma DemandSettles(w0: World, w1: World, revision: Revision, id: RunnerId)
    requires Inv(w0) && AnchorsSettled(w0, revision, id)
    requires w1 == if SoundAnchor(w0, id) then w0 else Apply(w0, Delete(id))
    ensures if SoundAnchor(w0, id) then SomeSettled(w1, revision) else NoLiveAnchor(w1)
  {
    if SoundAnchor(w0, id) {
      assert SettledAndSound(w1, revision, id);
    } else {
      forall x | x in w1.remote ensures !OwnAnchor(w1.remote[x]) {
        assert x in w0.remote && id in w0.remote;
      }
    }
  }

  /** What an undisturbed look at such a Fleet comes to: it changes nothing and
      reads the demand. */
  ghost predicate ReadsSettled(w0: World, guard: Guard, manageable: bool, pending: nat, r: Reply<Demand>, w1: World) {
    SomeSettled(w0, guard.revision) ==>
      && w1 == w0
      && r == Ok(if IsCurrent(w0.head, guard) && !w0.head.deleting && manageable then Proven(SaturateUnsigned(pending)) else StaleDemand)
  }

  method AnchorsThenDemand(s: Supervisor, runners: seq<RunnerRef>, deleting: bool, manageable: bool, pending: nat)
    returns (r: Reply<Demand>)
    requires s.Valid() && s.w.gate.held.Free? && !s.w.head.tombstone && Listed(runners, s.w)
    modifies s
    ensures s.Valid() && s.Continues() && s.w.gate.held.Free? && AnchorFrame(old(s.w), s.w)
    ensures deleting ==> s.w.anchorPosts == old(s.w).anchorPosts && (r.Ok? ==> r.value.Proven?)
    ensures s.quiet && !deleting && !old(s.w).gate.api && CleanView(runners, old(s.w)) ==>
              ReadsSettled(old(s.w), s.guard, manageable, pending, r, s.w)
    ensures s.quiet && !deleting && !old(s.w).gate.api && CleanView(runners, old(s.w)) ==>
              r.Ok? && ComesCloser(old(s.w), s.w, s.guard.revision)
    ensures s.quiet && deleting && !old(s.w).gate.api && CleanView(runners, old(s.w)) ==>
              r.Ok? && AnchorsCleared(old(s.w), s.w)
  {
    var anchor :- ReconcileAnchors(s, runners, deleting);
    ghost var w1 := s.w;
    s.Safety();
    r := ObserveDemand(s, anchor, deleting, manageable, pending);
    AnchorFrameTransitive(old(s.w), w1, s.w);
    if s.quiet && !deleting && !old(s.w).gate.api && CleanView(runners, old(s.w)) {
      DemandSettles(w1, s.w, s.guard.revision, anchor.value);
      if SomeSettled(old(s.w), s.guard.revision) {
        SettledIsKept(runners, s.guard.revision, old(s.w), anchor, w1);
      }
    }
  }

  /** The inventory and the two anchor passes, twice over. Undisturbed, this
      ends with exactly one sound anchor on record, from whatever anchors and
      rows it starts with: a drifted anchor is gone after the first time and
      replaced in the second. */
  method LookTwice(s: Supervisor, manageable: bool, pending: nat) returns (r: Reply<Demand>)
    requires s.Valid() && s.w.gate.held.Free? && !s.w.head.tombstone
    modifies s
    ensures s.Valid() && s.Continues() && s.w.gate.held.Free? && AnchorFrame(old(s.w), s.w)
    ensures s.quiet && !old(s.w).gate.api ==> r.Ok? && SomeSettled(s.w, s.guard.revision)
  {
    var _ :- Look(s, manageable, pending);
    ghost var w1 := s.w;
    r := Look(s, manageable, pending);
    AnchorFrameTransitive(old(s.w), w1, s.w);
  }

  method Look(s: Supervisor, manageable: bool, pending: nat) returns (r: Reply<Demand>)
    requires s.Valid() && s.w.gate.held.Free? && !s.w.head.tombstone
    modifies s
    ensures s.Valid() && s.Continues() && s.w.gate.held.Free? && AnchorFrame(old(s.w), s.w)
    ensures s.quiet && !old(s.w).gate.api ==> r.Ok? && ComesCloser(old(s.w), s.w, s.guard.revision)
  {
    var listed, at := s.ListRunners();
    ghost var w1 := s.w;
    FrameOfRely(old(s.w), w1);
    if !listed.Ok? {
      return listed.PropagateFailure();
    }
    FaithfulIsListed(listed.value, at, w1);
    r := AnchorsThenDemand(s, listed.value, false, manageable, pending);
    AnchorFrameTransitive(old(s.w), w1, s.w);
  }

  /** The rest of the pass, over a complete inventory. */
  method TickListed(s: Supervisor, policy: Policy, now: int, deleting: bool, runners: seq<RunnerRef>)
    returns (r: Reply<Report>, ghost excess: seq<Attempt>)
    requires s.Valid() && s.w.gate.held.Free? && ValidPolicy(policy) && policy.max == s.maxRunners
    requires !s.w.head.tombstone && Listed(runners, s.w)
    modifies s
    ensures s.Valid() && s.Continues() && s.w.gate.held.Free?
    ensures PassGrows(|old(s.w).gens|, |s.w.gens|, policy.max, r, deleting)
    ensures PassReports(|old(s.w).gens|, r, [], excess) && PassSettles(|old(s.w).gens|, r, s.w)
    ensures s.quiet && deleting && OnlyAnchorsLeft(old(s.w), s.guard) && CleanView(runners, old(s.w)) ==>
              r.Ok? && s.w.head.tombstone
    ensures s.quiet && !deleting && AtRest(old(s.w), s.guard) && CleanView(runners, old(s.w)) ==>
              LeavesAtRest(old(s.w), s.w, r)
    ensures deleting ==> s.w.anchorPosts == old(s.w).anchorPosts
  {
    excess := [];
    var manageable: bool, pending: nat := *, *;
    var demand :- AnchorsThenDemand(s, runners, deleting, manageable, pending);
    if s.quiet && deleting && OnlyAnchorsLeft(old(s.w), s.guard) && CleanView(runners, old(s.w)) {
      NothingIsInTheWay(old(s.w), runners, s.w, s.guard);
    }
    r, excess := TickDemanded(s, policy, now, deleting, runners, demand);
  }

  /** Classifies the inventory against the rows and goes on with the counts. */
  method TickDemanded(s: Supervisor, policy: Policy, now: int, deleting: bool, runners: seq<RunnerRef>, demand: Demand)
    returns (r: Reply<Report>, ghost excess: seq<Attempt>)
    requires s.Valid() && s.w.gate.held.Free? && ValidPolicy(policy) && policy.max == s.maxRunners
    modifies s
    ensures s.Valid() && s.Continues() && s.w.gate.held.Free?
    ensures PassGrows(|old(s.w).gens|, |s.w.gens|, policy.max, r, deleting)
    ensures PassReports(|old(s.w).gens|, r, [], excess) && PassSettles(|old(s.w).gens|, r, s.w)
    ensures s.quiet && ReadyToBury(old(s.w), s.guard, deleting, demand, Classified(old(s.w).gens, runners)) ==>
              r.Ok? && s.w.head.tombstone
    ensures s.quiet && !deleting && Resting(old(s.w)) ==> LeavesAtRest(old(s.w), s.w, r)
    ensures s.w.anchorPosts == old(s.w).anchorPosts
  {
    excess := [];
    s.Safety();
    RunnersAreDistinct(s.w);
    var _ :- s.ReadRows();
    var inventory := ClassifyInventory(s.w.gens, runners);
    r, excess := TickObserved(s, policy, now, deleting, runners, demand, inventory);
  }

  /** A deleted Fleet that a pass, undisturbed, will bury. */
  ghost predicate ReadyToBury(w: World, guard: Guard, deleting: bool, demand: Demand, inventory: Inventory) {
    && deleting && demand.Proven? && inventory.unknown == 0
    && AllDestroyed(w) && MayBury(w, guard) && !w.gate.api && w.gate.others == 0
  }

  /** Readiness, then scaling on fresh demand only, then the status. */
  method TickObserved(s: Supervisor, policy: Policy, now: int, deleting: bool, runners: seq<RunnerRef>,
                      demand: Demand, inventory: Inventory)
    returns (r: Reply<Report>, ghost excess: seq<Attempt>)
    requires s.Valid() && s.w.gate.held.Free? && ValidPolicy(policy) && policy.max == s.maxRunners
    modifies s
    ensures s.Valid() && s.Continues() && s.w.gate.held.Free?
    ensures PassGrows(|old(s.w).gens|, |s.w.gens|, policy.max, r, deleting)
    ensures r.Ok? ==> r.value.inventory == inventory && r.value.staleDemand == demand.StaleDemand? && !r.value.staleInventory
    ensures PassReports(|old(s.w).gens|, r, [], excess) && PassSettles(|old(s.w).gens|, r, s.w)
    ensures s.quiet && ReadyToBury(old(s.w), s.guard, deleting, demand, inventory) ==> r.Ok? && s.w.head.tombstone
    ensures s.quiet && !deleting && Resting(old(s.w)) ==> LeavesAtRest(old(s.w), s.w, r)
    ensures s.w.anchorPosts == old(s.w).anchorPosts
  {
    excess := [];
    var created := Timestamps(|s.w.gens|);
    var _ :- ReconcileReadiness(s, runners, created, now);
    ghost var run1 := s.run;
    r, excess := ScaleAndReport(s, policy, now, deleting, demand, inventory);
    if r.Ok? {
      forall g | 0 <= g < |old(s.w).gens| ensures g < |s.w.gens| && LeftCreating(s.w.gens[g].state) {
        NeverCreatingAgain(s.firstLimit, run1, s.run, g);
      }
    }
  }

  method ScaleAndReport(s: Supervisor, policy: Policy, now: int, deleting: bool, demand: Demand, inventory: Inventory)
    returns (r: Reply<Report>, ghost excess: seq<Attempt>)
    requires s.Valid() && s.w.gate.held.Free? && ValidPolicy(policy) && policy.max == s.maxRunners
    modifies s
    ensures s.Valid() && s.Continues() && s.w.gate.held.Free?
    ensures PassGrows(|old(s.w).gens|, |s.w.gens|, policy.max, r, deleting)
    ensures PassReports(|old(s.w).gens|, r, [], excess)
    ensures r.Ok? ==> r.value.inventory == inventory && r.value.staleDemand == demand.StaleDemand? && !r.value.staleInventory
    ensures s.quiet && ReadyToBury(old(s.w), s.guard, deleting, demand, inventory) ==> r.Ok? && s.w.head.tombstone
    ensures s.quiet && !deleting && Resting(old(s.w)) ==> LeavesAtRest(old(s.w), s.w, r)
    ensures s.w.anchorPosts == old(s.w).anchorPosts
  {
    excess := [];
    var target := if deleting || demand.StaleDemand? then 0 else DriverTarget(policy, demand.pending);
    var report := Report(target, inventory, 0, 0, demand.StaleDemand?, false);
    if !report.staleDemand {
      var scaled;
      scaled, excess := Scale(s, policy, now, deleting, report);
      if !scaled.Ok? {
        return scaled, excess;
      }
      report := scaled.value;
    }
    var status := ObserveStatus(s, deleting, inventory.unknown == 0);
    r := if status.Ok? then Ok(report) else status.PropagateFailure();
  }

  method Timestamps(n: nat) returns (t: seq<int>)
    ensures |t| == n
  {
    t := [];
    while |t| < n
      invariant |t| <= n
    {
      var stamp: int := *;
      t := t + [stamp];
    }
  }

  /** Destroy first, then create what the counters still leave room for. */
  method Scale(s: Supervisor, policy: Policy, now: int, deleting: bool, report: Report)
    returns (r: Reply<Report>, ghost excess: seq<Attempt>)
    requires s.Valid() && s.w.gate.held.Free? && ValidPolicy(policy) && policy.max == s.maxRunners
    requires report.created == 0 && !report.staleDemand && !report.staleInventory && report.target <= policy.max
    modifies s
    ensures s.Valid() && s.Continues() && s.w.gate.held.Free?
    ensures Grown(|old(s.w).gens|, |s.w.gens|, policy.max)
    ensures r.Ok? ==> r.value == report.(created := r.value.created, destroyed := r.value.destroyed)
    ensures r.Ok? && !MayCreate(report, deleting) ==> |s.w.gens| == |old(s.w).gens| && r.value.created == 0
    ensures r.Ok? ==> Grown(r.value.created, |s.w.gens| - |old(s.w).gens|, 1)
    ensures r.Ok? ==> |excess| == |old(s.w).gens| && r.value.destroyed == AllEnded(excess)
    ensures deleting && LeftAlone(old(s.w)) ==> s.w == old(s.w) && (s.quiet ==> r.Ok?)
    ensures s.quiet && Resting(old(s.w)) ==> LeavesAtRest(old(s.w), s.w, r)
    ensures s.w.anchorPosts == old(s.w).anchorPosts
  {
    excess := [];
    var listed := s.ReadRows();
    if !listed.Ok? {
      return listed.PropagateFailure(), excess;
    }
    var cs := Candidates(s);
    var destroyed, attempts := DestroyExcess(s, cs, report.target, now);
    excess := attempts;
    if !destroyed.Ok? {
      return destroyed.PropagateFailure(), excess;
    }
    var after := report.(destroyed := destroyed.value);
    if deleting || report.inventory.unknown > 0 {
      return Ok(after), excess;
    }
    var answers: nat -> Answers := *;
    var created := CreateUpTo(s, policy, report.target, answers);
    r := if created.Ok? then Ok(after.(created := created.value)) else created.PropagateFailure();
  }

  /** The rows as the ledger lists them, with their stored revision and time. */
  method Candidates(s: Supervisor) returns (cs: seq<Candidate>)
    ensures |cs| == |s.w.gens| && forall i :: 0 <= i < |cs| ==> cs[i].state == s.w.gens[i].state
  {
    cs := [];
    while |cs| < |s.w.gens|
      invariant |cs| <= |s.w.gens| && forall i :: 0 <= i < |cs| ==> cs[i].state == s.w.gens[i].state
    {
      var revision: nat, updatedAt: int := *, *;
      cs := cs + [Candidate(s.w.gens[|cs|].state, revision, updatedAt)];
    }
  }

  /** How many generations the counters leave room for. */
  function CreatesFor(w: World, policy: Policy, target: U64): U64
    requires CountsFit(w)
  {
    DriverCreateCount(policy, target, Effective(w.gens), Occupancy(w.gens))
  }

  /** Where an undisturbed creation loop stopped: at the last attempt, which
      was not admitted or did not come up, or not at all. */
  predicate StoppedAt(w0: World, w1: World, guard: Guard, max: int, created: nat, a: Answers) {
    || (|w1.gens| == |w0.gens| + created && !AdmitsAll(w1.head, w1.gens, guard, max, a))
    || (|w1.gens| == |w0.gens| + created + 1 && !ComesUp(a))
  }

  /** Creates one at a time and stops at the first that is not admitted or
      does not come up; `answers` are what each attempt is told. */
  method CreateUpTo(s: Supervisor, policy: Policy, target: U64, answers: nat -> Answers) returns (r: Reply<nat>)
    requires s.Valid() && s.w.gate.held.Free? && ValidPolicy(policy) && policy.max == s.maxRunners && target <= policy.max
    modifies s
    ensures s.Valid() && s.Continues() && s.w.gate.held.Free?
    ensures Grown(|old(s.w).gens|, |s.w.gens|, policy.max)
    ensures r.Ok? ==> Grown(r.value, |s.w.gens| - |old(s.w).gens|, 1)
    ensures r.Ok? ==> CountsFit(old(s.w)) && r.value <= CreatesFor(old(s.w), policy, target)
    ensures s.quiet && GateIdle(old(s.w)) && r.Ok? && r.value < CreatesFor(old(s.w), policy, target) ==>
              StoppedAt(old(s.w), s.w, s.guard, s.maxRunners, r.value, answers(r.value))
    ensures s.quiet && GateIdle(old(s.w)) && CountsFit(old(s.w)) ==> LeavesAtRest(old(s.w), s.w, r)
    ensures s.w.anchorPosts == old(s.w).anchorPosts
  {
    var _ :- s.ReadRows();
    var effective, occupancy := Effective(s.w.gens), Occupancy(s.w.gens);
    if effective > I64_MAX || occupancy > I64_MAX {
      return Err;
    }
    var creates := DriverCreateCount(policy, target, effective, occupancy);
    CreatesExactlyWhatFits(policy, target, effective, occupancy, 0);
    var created: nat, attempts: nat := 0, 0;
    while attempts < creates
      invariant s.Valid() && s.Continues() && s.w.gate.held.Free?
      invariant created == attempts <= creates <= policy.max
      invariant |s.w.gens| == |old(s.w).gens| + created
      invariant s.w.anchorPosts == old(s.w).anchorPosts
      invariant s.quiet && GateIdle(old(s.w)) ==> GateIdle(s.w) && (created == 0 ==> s.w == old(s.w))
    {
      var one :- CreateOneGeneration(s, answers(created));
      if !one {
        return Ok(created);
      }
      created, attempts := created + 1, attempts + 1;
    }
    return Ok(created);
  }

  /** A supervisor rebuilt for the head it finds: after a Fleet change, or
      after a crash, when only the durable world is left. */
  method Rewire(s: Supervisor)
    requires s.Valid()
    modifies s
    ensures s.Valid() && s.w == old(s.w).(gate := old(s.w).gate.(held := Free)) && s.guard == Guard(s.w.head.revision, s.w.head.fence)
  {
    s.ReleaseGate();
    s.guard := Guard(s.w.head.revision, s.w.head.fence);
    if s.guard.revision in s.w.limits {
      s.maxRunners := s.w.limits[s.guard.revision];
    }
  }

  /** The service: any number of passes, crashes, restarts and rebuilds, with
      everyone else acting at any point. Whatever happened, the whole history
      is a run of the machine, so every world it went through was safe and
      occupancy never passed the largest limit ever in force. */
  method Serve(firstLimit: int, turns: nat) returns (s: Supervisor)
    ensures s.Valid() && forall w :: w in s.run.worlds ==> Safe(w)
    ensures Effective(s.w.gens) <= Occupancy(s.w.gens) <= LargestLimit(s.w.log)
  {
    s := new Supervisor(GitlabPool, firstLimit, false);
    var left := turns;
    while left > 0
      invariant fresh(s) && s.Valid() && s.w.gate.held.Free?
    {
      var policy: Policy, now: int := *, *;
      if ValidPolicy(policy) && policy.max == s.maxRunners {
        var report, _, _, _ := Tick(s, policy, now);
        if !report.Ok? {
          s.Interfere();
        }
      }
      var rebuild: bool := *;
      if rebuild {
        Rewire(s);
      }
      left := left - 1;
    }
    EveryRunIsSafe(s.firstLimit, s.run);
    OccupancyStaysBounded(s.firstLimit, s.run, |s.run.steps|);
  }
}
