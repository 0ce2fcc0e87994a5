/** Demand, inventory classification and the status write that may end in the
    tombstone (gitlab_supervisor_observation.rs, and observe_demand of
    gitlab_supervisor_anchor.rs). */
module GitlabObservation {
  import opened Int64
  import opened Lifecycle
  import opened Wrappers
  import opened FleetWorld
  import opened SupervisorAccess
  import opened GitlabAnchors
  import opened GitlabGeneration

  datatype Inventory = Inventory(owned: nat, idle: nat, active: nat, unknown: nat)

  /** Some occupying generation recorded exactly this registration. */
  ghost predicate ExactOwner(gens: seq<Generation>, x: RunnerRef) {
    x.id <= I64_MAX &&
    exists g :: 0 <= g < |gens| && CountsOccupancy(gens[g].state) && gens[g].runner == Some(x.id) && x.IsOwnedGeneration(g)
  }

  ghost predicate Accounted(gens: seq<Generation>, x: RunnerRef) {
    ExactOwner(gens, x) && x.IsKnown()
  }

  /** The classification every listed registration gets. */
  ghost function Classified(gens: seq<Generation>, view: seq<RunnerRef>): Inventory {
    if view == [] then Inventory(0, 0, 0, 0)
    else
      var rest, x := Classified(gens, view[..|view| - 1]), view[|view| - 1];
      if x.IsAnchor() then rest
      else if Accounted(gens, x) then
        rest.(owned := rest.owned + 1,
              idle := rest.idle + (if x.IsOnlineIdle() && !x.paused then 1 else 0),
              active := rest.active + (if x.IsActive() then 1 else 0))
      else rest.(unknown := rest.unknown + 1)
  }

  ghost predicate DistinctRunners(gens: seq<Generation>) {
    forall a, b :: 0 <= a < b < |gens| && gens[a].runner.Some? ==> gens[a].runner != gens[b].runner
  }

  lemma RunnersAreDistinct(w: World)
    requires Inv(w)
    ensures DistinctRunners(w.gens)
  {
    forall a, b | 0 <= a < b < |w.gens| && w.gens[a].runner.Some? ensures w.gens[a].runner != w.gens[b].runner {
      assert RowCoherent(w, a) && RowCoherent(w, b);
    }
  }

  /** The identity map is keyed by recorded id; distinct identities make it
      decide exact ownership. */
  method Identities(gens: seq<Generation>) returns (identities: map<RunnerId, GenId>)
    requires DistinctRunners(gens)
    ensures forall id :: id in identities ==>
              identities[id] < |gens| && CountsOccupancy(gens[identities[id]].state) && gens[identities[id]].runner == Some(id)
    ensures forall g :: 0 <= g < |gens| && CountsOccupancy(gens[g].state) && gens[g].runner.Some? ==>
              gens[g].runner.value in identities && identities[gens[g].runner.value] == g
  {
    identities := map[];
    for g := 0 to |gens|
      invariant forall id :: id in identities ==>
                  identities[id] < g && CountsOccupancy(gens[identities[id]].state) && gens[identities[id]].runner == Some(id)
      invariant forall x :: 0 <= x < g && CountsOccupancy(gens[x].state) && gens[x].runner.Some? ==>
                  gens[x].runner.value in identities && identities[gens[x].runner.value] == x
    {
      if CountsOccupancy(gens[g].state) && gens[g].runner.Some? {
        identities := identities[gens[g].runner.value := g];
      }
    }
  }

  /** Every registration under the prefix is an anchor, an occupying
      generation's exact registration, or unknown. */
  method ClassifyInventory(gens: seq<Generation>, view: seq<RunnerRef>) returns (inventory: Inventory)
    requires DistinctRunners(gens)
    ensures inventory == Classified(gens, view)
  {
    var identities := Identities(gens);
    inventory := Inventory(0, 0, 0, 0);
    for i := 0 to |view|
      invariant inventory == Classified(gens, view[..i])
    {
      var x := view[i];
      assert view[..i + 1][..i] == view[..i];
      if !x.IsAnchor() {
        var owned := x.id <= I64_MAX && x.id in identities && x.IsOwnedGeneration(identities[x.id]);
        assert owned <==> ExactOwner(gens, x);
        if owned && x.IsKnown() {
          inventory := inventory.(owned := inventory.owned + 1,
                                  idle := inventory.idle + (if x.IsOnlineIdle() && !x.paused then 1 else 0),
                                  active := inventory.active + (if x.IsActive() then 1 else 0));
        } else {
          inventory := inventory.(unknown := inventory.unknown + 1);
        }
      }
    }
    assert view[..|view|] == view;
  }

  /** Nothing unknown means everything listed is accounted for, and the other
      way round; idle and active runners are among the owned. */
  lemma {:induction false} UnknownIsExact(gens: seq<Generation>, view: seq<RunnerRef>)
    ensures var inv := Classified(gens, view);
            && (inv.unknown == 0 <==> forall x :: x in view ==> x.IsAnchor() || Accounted(gens, x))
            && inv.idle + inv.active <= inv.owned
            && inv.owned + inv.unknown <= |view|
  {
    if view != [] {
      var n := |view| - 1;
      UnknownIsExact(gens, view[..n]);
      assert view == view[..n] + [view[n]];
    }
  }

  // ---- Demand ----

  /** The anchor's same-request demand proof. */
  datatype DemandProof = DemandProof(present: bool, manageable: bool, paused: bool, matching: bool, pending: U64)

  predicate ProvenFor(p: DemandProof) {
    p.present && p.manageable && p.paused && p.matching
  }

  predicate Drifted(p: DemandProof) {
    p.present && (!p.matching || !p.paused)
  }

  datatype Demand = Proven(pending: U64) | StaleDemand

  /** One demand read through the anchor; its answer is true of the anchor. */
  method ReadDemand(s: Supervisor, id: RunnerId, manageable: bool, pending: nat) returns (r: Reply<DemandProof>)
    requires s.Valid()
    modifies s
    ensures s.Valid() && s.Continues() && Rely(old(s.w), s.w)
    ensures s.quiet ==> s.w == old(s.w) && r.Ok?
    ensures s.quiet ==> (r.value.present <==> id in s.w.remote)
    ensures s.quiet ==> r.value.manageable == manageable && r.value.pending == SaturateUnsigned(pending)
    ensures s.quiet && id in s.w.remote ==>
              r.value.matching == s.w.remote[id].matching && r.value.paused == s.w.remote[id].paused
  {
    var present := id in s.w.remote;
    var shown := if present then s.w.remote[id] else Registration(OtherName(""), NoMarker, false, false);
    var crashed: bool := *;
    var answered := s.Chance();
    s.Interfere();
    if !answered {
      s.quiet := false;
      return if crashed then Crash else Err;
    }
    return Ok(DemandProof(present, manageable, shown.paused, shown.matching, SaturateUnsigned(pending)));
  }

  /** Everything a demand pass leaves alone. */
  ghost predicate DemandFrame(w0: World, w1: World) {
    AnchorFrame(w0, w1) && w1.anchors == w0.anchors && AnchorsShrink(w0, w1) && w1.gate.held == w0.gate.held &&
    w1.anchorPosts == w0.anchorPosts
  }

  lemma DemandFrameOfRely(w0: World, w1: World)
    requires Rely(w0, w1)
    ensures DemandFrame(w0, w1)
  {
  }

  lemma DemandFrameTransitive(a: World, b: World, c: World)
    requires DemandFrame(a, b) && DemandFrame(b, c)
    ensures DemandFrame(a, c)
  {
    AnchorFrameTransitive(a, b, c);
    AnchorsShrinkTransitive(a, b, c);
  }

  /** Undisturbed, a sound anchor proves its demand and is left alone; a
      drifted one is deleted, nothing else. */
  predicate ProvesExactly(w0: World, anchor: Option<RunnerId>, manageable: bool, pending: nat, r: Reply<Demand>, w1: World) {
    if anchor.Some? && SoundAnchor(w0, anchor.value)
    then w1 == w0 && r == Ok(if manageable then Proven(SaturateUnsigned(pending)) else StaleDemand)
    else r == Ok(StaleDemand) && w1 == if anchor.Some? then Apply(w0, Delete(anchor.value)) else w0
  }

  /** Demand is the anchor's proof or nothing; a drifted anchor is deleted,
      never repaired. `manageable` and `pending` are what the proof says beyond
      the anchor's own state. */
  method ProveDemand(s: Supervisor, anchor: Option<RunnerId>, manageable: bool, pending: nat) returns (r: Reply<Demand>)
    requires s.Valid() && (anchor.Some? ==> NeverLanded(s.w, anchor.value))
    modifies s
    ensures s.Valid() && s.Continues() && DemandFrame(old(s.w), s.w)
    ensures r.Ok? && r.value.Proven? ==> anchor.Some?
    ensures s.quiet ==> ProvesExactly(old(s.w), anchor, manageable, pending, r, s.w)
  {
    DemandFrameOfRely(s.w, s.w);
    if anchor.None? {
      return Ok(StaleDemand);
    }
    var read := ReadDemand(s, anchor.value, manageable, pending);
    ghost var w1 := s.w;
    DemandFrameOfRely(old(s.w), w1);
    if read.Crash? {
      return Crash;
    }
    if read.Err? {
      return Ok(StaleDemand);
    }
    if ProvenFor(read.value) {
      return Ok(Proven(read.value.pending));
    }
    if Drifted(read.value) {
      NeverLandedStays(old(s.w), w1, anchor.value);
      var deleted := DeleteAnchor(s, anchor.value);
      DemandFrameTransitive(old(s.w), w1, s.w);
      if deleted.Crash? {
        return Crash;
      }
    }
    return Ok(StaleDemand);
  }

  predicate MayProve(w: World, guard: Guard, anchor: Option<RunnerId>) {
    anchor.Some? && SoundAnchor(w, anchor.value) && IsCurrent(w.head, guard) && !w.head.deleting
  }

  /** A proof is written only under the claim and only while the head is
      current and not being deleted; anything else keeps the old demand. */
  method ObserveDemand(s: Supervisor, anchor: Option<RunnerId>, deleting: bool, manageable: bool, pending: nat)
    returns (r: Reply<Demand>)
    requires s.Valid() && s.w.gate.held.Free? && (anchor.Some? ==> NeverLanded(s.w, anchor.value))
    modifies s
    ensures s.Valid() && s.Continues() && DemandFrame(old(s.w), s.w)
    ensures r.Ok? && r.value.Proven? ==> deleting || (anchor.Some? && !s.w.head.tombstone)
    ensures deleting ==> r == Ok(Proven(0)) && s.w == old(s.w)
    ensures s.quiet && !deleting && !old(s.w).gate.api ==>
              r == Ok(if MayProve(old(s.w), s.guard, anchor) && manageable then Proven(SaturateUnsigned(pending)) else StaleDemand)
    ensures s.quiet && !old(s.w).gate.api && anchor.Some? && SoundAnchor(old(s.w), anchor.value) ==> s.w == old(s.w)
    // A drifted anchor is deleted, and the next pass registers another.
    ensures s.quiet && !old(s.w).gate.api && !deleting && anchor.Some? && !SoundAnchor(old(s.w), anchor.value) ==>
              s.w == Apply(old(s.w), Delete(anchor.value))
  {
    DemandFrameOfRely(s.w, s.w);
    if deleting {
      return Ok(Proven(0));
    }
    var proven :- ProveDemand(s, anchor, manageable, pending);
    ghost var w1 := s.w;
    r := StoreUnderClaim(s, proven);
    DemandFrameTransitive(old(s.w), w1, s.w);
  }

  method StoreUnderClaim(s: Supervisor, proven: Demand) returns (r: Reply<Demand>)
    requires s.Valid() && s.w.gate.held.Free?
    modifies s
    ensures s.Valid() && s.Continues() && DemandFrame(old(s.w), s.w)
    ensures r.Ok? && r.value.Proven? ==> proven == r.value && !s.w.head.tombstone
    ensures s.quiet && !old(s.w).gate.api ==>
              r == Ok(if IsCurrent(old(s.w).head, s.guard) && !old(s.w).head.deleting then proven else StaleDemand)
    ensures s.quiet && !old(s.w).gate.api ==> s.w == old(s.w)
  {
    var claim := s.AcquireClaim();
    ghost var w1 := s.w.(gate := s.w.gate.(held := Free));
    DemandFrameOfRely(old(s.w), w1);
    if !claim.Ok? {
      return claim.PropagateFailure();
    }
    r := StoreDemand(s, proven);
    s.ReleaseGate();
    DemandFrameTransitive(old(s.w), w1, s.w);
  }

  method StoreDemand(s: Supervisor, proven: Demand) returns (r: Reply<Demand>)
    requires s.Valid() && s.w.gate.held.Shared?
    modifies s
    ensures s.Valid() && s.Continues() && s.w.gate.held.Shared?
    ensures DemandFrame(old(s.w).(gate := old(s.w).gate.(held := Free)), s.w.(gate := s.w.gate.(held := Free)))
    ensures r.Ok? && r.value.Proven? ==> proven == r.value && !s.w.head.deleting && !s.w.head.tombstone
    ensures s.quiet ==> r == Ok(if IsCurrent(old(s.w).head, s.guard) && !old(s.w).head.deleting then proven else StaleDemand)
    ensures s.quiet ==> s.w == old(s.w)
  {
    var head :- s.CurrentHead();
    if head.Some? && !head.value.deleting && proven.Proven? {
      var written := s.Chance();
      if !written {
        s.quiet := false;
        return Err;
      }
      return Ok(proven);
    }
    return Ok(StaleDemand);
  }

  // ---- Status ----

  /** When an undisturbed pass buries a Fleet. */
  predicate MayBury(w: World, guard: Guard) {
    IsCurrent(w.head, guard) && w.head.deleting && Occupancy(w.gens) == 0 && w.anchors == map[] && w.remote == map[]
  }

  /** Buried exactly if it may be, and nothing else changed. */
  predicate Buried(w0: World, w1: World, guard: Guard, asked: bool) {
    w1.head == if asked && MayBury(w0, guard) then w0.head.(tombstone := true) else w0.head
  }

  /** While deleting, an empty Fleet gets its tombstone: only under the
      exclusive gate, with every count read again and the prefix empty. */
  method ObserveStatus(s: Supervisor, deleting: bool, clear: bool) returns (r: Reply<Unit>)
    requires s.Valid() && s.w.gate.held.Free?
    modifies s
    ensures s.Valid() && s.Continues() && s.w.gate.held.Free? && |s.w.gens| == |old(s.w).gens|
    ensures s.w.head.tombstone && !old(s.w).head.tombstone ==> deleting && clear && s.w.head.deleting
    ensures s.quiet && !old(s.w).gate.api && old(s.w).gate.others == 0 ==>
              r.Ok? && Buried(old(s.w), s.w, s.guard, deleting && clear)
    ensures s.w.anchorPosts == old(s.w).anchorPosts
    ensures !deleting ==> s.w == old(s.w)
  {
    var written := s.Chance();
    if !deleting {
      s.quiet := s.quiet && written;
      return if written then Ok(Unit) else Err;
    }
    var occupancy :- ReadOccupancy(s);
    if occupancy > 0 || !clear {
      return Ok(Unit);
    }
    r := Bury(s);
  }

  method Bury(s: Supervisor) returns (r: Reply<Unit>)
    requires s.Valid() && s.w.gate.held.Free?
    modifies s
    ensures s.Valid() && s.Continues() && s.w.gate.held.Free? && |s.w.gens| == |old(s.w).gens|
    ensures s.w.head.tombstone && !old(s.w).head.tombstone ==> s.w.head.deleting
    ensures s.quiet && !old(s.w).gate.api && old(s.w).gate.others == 0 ==>
              r.Ok? && Buried(old(s.w), s.w, s.guard, true)
    ensures s.w.anchorPosts == old(s.w).anchorPosts
  {
    var gate := s.AcquireExclusively();
    if !gate.Ok? {
      return gate.PropagateFailure();
    }
    r := BuryUnderGate(s);
    s.ReleaseGate();
  }

  method BuryUnderGate(s: Supervisor) returns (r: Reply<Unit>)
    requires s.Valid() && s.w.gate.held.Exclusive?
    modifies s
    ensures s.Valid() && s.Continues() && s.w.gate.held.Exclusive? && |s.w.gens| == |old(s.w).gens|
    ensures s.w.head.tombstone && !old(s.w).head.tombstone ==> s.w.head.deleting
    ensures s.quiet ==> r.Ok? && Buried(old(s.w), s.w, s.guard, true)
    ensures s.w.anchorPosts == old(s.w).anchorPosts
  {
    var head :- s.CurrentHead();
    if head.None? || !head.value.deleting {
      return Ok(Unit);
    }
    var occupancy :- ReadOccupancy(s);
    if occupancy != 0 || s.w.anchors != map[] {
      return Ok(Unit);
    }
    r := BuryIfUnlisted(s);
  }

  /** Anchors share the prefix, so an empty inventory proves them gone too. */
  method BuryIfUnlisted(s: Supervisor) returns (r: Reply<Unit>)
    requires s.Valid() && s.w.gate.held.Exclusive? && s.w.head.deleting
    requires Occupancy(s.w.gens) == 0 && s.w.anchors == map[]
    modifies s
    ensures s.Valid() && s.Continues() && s.w.gate.held.Exclusive? && |s.w.gens| == |old(s.w).gens|
    ensures s.w.head.deleting
    ensures s.quiet ==> r.Ok?
    ensures s.quiet ==> s.w.head == if old(s.w).remote == map[] then old(s.w).head.(tombstone := true) else old(s.w).head
    ensures s.w.anchorPosts == old(s.w).anchorPosts
  {
    ghost var w1 := s.w;
    var listed, at := s.ListRunners();
    if !listed.Ok? || listed.value != [] {
      if listed.Ok? {
        SomethingListed(listed.value, at);
      }
      return if listed.Crash? then Crash else Ok(Unit);
    }
    if at.remote.Keys == {} {
      assert at.remote == map[];
    }
    EmptyPrefix(w1, at, s.w);
    r := s.Call(SetTombstone);
  }

  lemma SomethingListed(view: seq<RunnerRef>, w: World)
    requires Faithful(view, w) && view != []
    ensures w.remote != map[]
  {
    assert view[0].id in w.remote;
  }

  /** An empty faithful inventory leaves nothing of this Fleet under the prefix. */
  lemma EmptyPrefix(w0: World, at: World, w1: World)
    requires Rely(w0, at) && Rely(at, w1) && Faithful([], at) && Occupancy(w0.gens) == 0
    ensures NoOwnRegistration(w1) && Occupancy(w1.gens) == 0
  {
    OthersNeverOccupy(w0.gens, at.gens);
    OthersNeverOccupy(at.gens, w1.gens);
    forall id | id in w1.remote ensures !Own(w1.remote[id]) {
      assert id !in at.remote.Keys;
    }
  }
}
