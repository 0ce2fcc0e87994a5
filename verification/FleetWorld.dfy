/** One Pool Fleet as a state machine: the durable ledger, the registrations
    that exist at GitLab, the Fleet head and the per-fleet effect gate. Every
    durable write and every remote call is one step; a crash is simply a run
    that continues with another step, because nothing else survives it. */
module FleetWorld {
  import opened Int64
  import opened Lifecycle
  import opened Wrappers

  type GenId = nat        // position in insertion order; minted ids never repeat
  type RunnerId = nat
  type Revision = nat     // starts at 1 and only counts up
  type JobId = nat

  /** A registration's description. Everything here is under the Fleet's
      runner_name_prefix. */
  datatype Description =
    | AnchorName(revision: Revision)
    | GenerationName(gen: GenId)
    | OtherName(text: string)

  /** The maintenance note: this Fleet's ownership marker for a role and a
      description, or anything else. */
  datatype Note =
    | AnchorMarker(name: Description)
    | GenerationMarker(name: Description)
    | NoMarker

  datatype Registration = Registration(description: Description, note: Note, matching: bool, paused: bool)

  /** State of the write-ahead registration operation of one generation. */
  datatype RegistrationOp = NoOp | Starting | Blocked | Completed

  /** A generation row with its identity, association and result side tables.
      `expiring` and `cleaned` are the two checkpoints of a hard expiry.
      `posted`, `landed` and `everQuarantined` are history: no code reads them. */
  datatype Generation = Generation(
    state: GenState,
    op: RegistrationOp,
    runner: Option<RunnerId>,
    job: Option<JobId>,
    result: bool,
    expiring: bool,
    cleaned: bool,
    posted: bool,
    landed: Option<RunnerId>,
    everQuarantined: bool)

  datatype AnchorRow = AnchorRow(runner: Option<RunnerId>, active: bool)

  /** The Runner Backend. GitLab proves ownership by the maintenance note;
      Forgejo has only the name, which carries a freshly minted id that
      nobody else uses. */
  datatype Provider = GitlabPool | ForgejoPool

  datatype Head = Head(revision: Revision, fence: int, deleting: bool, tombstone: bool)

  datatype Hold = Free | Shared | Exclusive

  /** The per-fleet read/write gate: this supervisor's guard, the shared
      claims of other tasks, and an API mutation holding it exclusively. */
  datatype Gate = Gate(held: Hold, others: nat, api: bool)

  datatype Event =
    | RevisionCommitted(max: int)
    | DeletionCommitted
    | GenerationInserted(gen: GenId, occupancy: nat)
    | GenerationPosted(gen: GenId)
    | AnchorPosted(revision: Revision)
    | TombstoneWritten

  /** `log` and `anchorPosts` (how many anchor requests were sent) are history:
      no code reads them. */
  datatype World = World(
    provider: Provider,
    head: Head,
    limits: map<Revision, int>,
    gate: Gate,
    gens: seq<Generation>,
    anchors: map<Revision, AnchorRow>,
    remote: map<RunnerId, Registration>,
    nextId: RunnerId,
    log: seq<Event>,
    anchorPosts: nat)

  // ---- Readings of a world ----

  predicate OwnAnchor(r: Registration) {
    r.note == AnchorMarker(r.description)
  }

  predicate OwnGeneration(r: Registration, g: GenId) {
    r.description == GenerationName(g) && r.note == GenerationMarker(r.description)
  }

  predicate Own(r: Registration) {
    r.note.AnchorMarker? || r.note.GenerationMarker?
  }

  predicate OpOpen(op: RegistrationOp) {
    op.Starting? || op.Blocked?
  }

  function Occupancy(gens: seq<Generation>): (n: nat)
    ensures n <= |gens|
  {
    if gens == [] then 0
    else Occupancy(gens[..|gens| - 1]) + if CountsOccupancy(gens[|gens| - 1].state) then 1 else 0
  }

  function Effective(gens: seq<Generation>): nat {
    if gens == [] then 0
    else Effective(gens[..|gens| - 1]) + if CountsEffective(gens[|gens| - 1].state) then 1 else 0
  }

  /** The capacity limit of the revision in force after these events; below
      every count before the first revision. */
  function MaxInForce(log: seq<Event>): int {
    if log == [] then 0
    else if log[|log| - 1].RevisionCommitted? then log[|log| - 1].max
    else MaxInForce(log[..|log| - 1])
  }

  /** How many anchor requests a log records. */
  function AnchorsPosted(log: seq<Event>): nat {
    if log == [] then 0
    else AnchorsPosted(log[..|log| - 1]) + if log[|log| - 1].AnchorPosted? then 1 else 0
  }

  /** The generation's landed registration can no longer be missed: it never
      landed, it is recorded, or it is gone. */
  predicate Settled(w: World, g: GenId)
    requires g < |w.gens|
  {
    var gen := w.gens[g];
    gen.landed.None? || gen.runner == gen.landed || gen.landed.value !in w.remote
  }

  /** The generation has no registration: it never landed or it is gone. */
  predicate Gone(w: World, g: GenId)
    requires g < |w.gens|
  {
    w.gens[g].landed.None? || w.gens[g].landed.value !in w.remote
  }

  predicate PastRetiring(s: GenState) {
    s.DestroyPending? || s.Destroying?
  }

  predicate LeftCreating(s: GenState) {
    !s.CreatePending? && !s.Creating?
  }

  // ---- Steps ----

  datatype Step =
    // the supervisor: gate
    | AcquireShared
    | AcquireExclusive
    | Release
    // the supervisor: generation ledger and registrations
    | Insert
    | Advance(gen: GenId, next: GenState)
    | InsertOp(gen: GenId)
    | SetOp(gen: GenId, op: RegistrationOp)
    | PostGeneration(gen: GenId, landed: Option<RunnerId>)
    | SetRunner(gen: GenId, id: RunnerId)
    | SetJob(gen: GenId, job: JobId)
    | SetResult(gen: GenId)
    | RequestExpiry(gen: GenId)
    | SetCleaned(gen: GenId)
    | Pause(gen: GenId)
    | PauseForRemoval(gen: GenId)
    | Delete(id: RunnerId)
    // the supervisor: anchors and tombstone
    | BeginAnchor(revision: Revision)
    | PostAnchor(revision: Revision, landed: Option<RunnerId>)
    | SetAnchor(revision: Revision, recorded: Option<RunnerId>, active: bool)
    | RemoveAnchor(revision: Revision)
    | SetTombstone
    // everyone else
    | OtherClaim
    | OtherRelease
    | ApiLock
    | ApiUnlock
    | CommitRevision(max: int)
    | CommitDeletion
    | Finalize(gen: GenId)
    | Vanish(id: RunnerId)
    | Foreign(id: RunnerId, registration: Registration)
    | Drift(id: RunnerId, matching: bool, paused: bool)

  predicate ByEnvironment(s: Step) {
    s.OtherClaim? || s.OtherRelease? || s.ApiLock? || s.ApiUnlock? || s.CommitRevision? ||
    s.CommitDeletion? || s.Finalize? || s.Vanish? || s.Foreign? || s.Drift?
  }

  /** What somebody else may register: never this Fleet's marker, and at
      Forgejo never a generation's name. */
  predicate MayBeForeign(provider: Provider, r: Registration) {
    !Own(r) && (provider.ForgejoPool? ==> !r.description.GenerationName?)
  }

  predicate FreshId(w: World, landed: Option<RunnerId>) {
    landed.None? || landed.value >= w.nextId
  }

  predicate AnchorIdAgrees(w: World, revision: Revision, id: Option<RunnerId>)
    requires revision in w.anchors
  {
    id.None? || w.anchors[revision].runner.None? || w.anchors[revision].runner == id
  }

  ghost predicate NoLiveAnchor(w: World) {
    forall id :: id in w.remote ==> !OwnAnchor(w.remote[id])
  }

  ghost predicate NoOwnRegistration(w: World) {
    forall id :: id in w.remote ==> !Own(w.remote[id])
  }

  /** No row in the create window landed this registration and has yet to
      record it. */
  ghost predicate NobodyAwaits(w: World, id: RunnerId) {
    forall g :: 0 <= g < |w.gens| && w.gens[g].landed == Some(id) ==> w.gens[g].runner.Some? || LeftCreating(w.gens[g].state)
  }

  /** When each step may happen. For the supervisor's steps this is the
      discipline its code is proved to follow; for the rest it is what the
      gate, the store and GitLab allow. */
  ghost predicate Enabled(w: World, s: Step) {
    match s
    case AcquireShared => w.gate.held.Free? && !w.gate.api
    case AcquireExclusive => w.gate.held.Free? && !w.gate.api && w.gate.others == 0
    case Release => true
    case Insert =>
      w.gate.held.Exclusive? && !w.head.deleting && !w.head.tombstone &&
      Occupancy(w.gens) < MaxInForce(w.log)
    case Advance(g, next) =>
      g < |w.gens| && TransitionAllowed(w.gens[g].state, next) &&
      (w.gens[g].state.Creating? && !next.Quarantined? ==> Settled(w, g)) &&
      (PastRetiring(next) && !w.gens[g].expiring ==> Gone(w, g)) &&
      (next.Destroyed? ==> Gone(w, g)) &&
      (next.DestroyPending? ==> !w.gens[g].cleaned) &&
      (next.Busy? && w.provider.GitlabPool? ==> w.gens[g].job.Some?)
    case InsertOp(g) => g < |w.gens| && w.gens[g].op.NoOp? && w.gens[g].state.Creating?
    case SetOp(g, op) =>
      g < |w.gens| && !w.gens[g].op.NoOp? && !op.NoOp? && (op.Completed? ==> Settled(w, g))
    case PostGeneration(g, landed) =>
      g < |w.gens| && w.gens[g].state.Creating? && w.gens[g].op.Starting? && !w.gens[g].posted &&
      w.gate.held.Shared? && !w.head.deleting && !w.head.tombstone && FreshId(w, landed)
    case SetRunner(g, id) =>
      g < |w.gens| && w.gens[g].landed == Some(id) && (w.gens[g].runner.None? || w.gens[g].runner == Some(id))
    case SetJob(g, job) => g < |w.gens| && (w.gens[g].job.None? || w.gens[g].job == Some(job))
    case SetResult(g) => g < |w.gens| && w.gens[g].state.Creating? && w.gens[g].runner.Some?
    case RequestExpiry(g) => g < |w.gens| && w.gens[g].result && !NeverExpires(w.gens[g].state)
    case SetCleaned(g) => g < |w.gens| && w.gens[g].expiring && w.gens[g].state.Destroying?
    case Pause(g) => g < |w.gens| && w.gens[g].job.Some? && w.gens[g].runner.Some?
    case PauseForRemoval(g) => g < |w.gens| && w.gens[g].runner.Some?
    case Delete(id) => NobodyAwaits(w, id)
    case BeginAnchor(r) => !w.head.tombstone
    case PostAnchor(r, landed) =>
      r in w.anchors && NoLiveAnchor(w) && !w.head.tombstone && w.gate.held.Shared? && FreshId(w, landed)
    case SetAnchor(r, id, active) =>
      r in w.anchors && AnchorIdAgrees(w, r, id) && (id.Some? ==> id.value <= I64_MAX) &&
      (!active ==> id.None? && w.anchors[r].runner.None?)
    case RemoveAnchor(r) =>
      forall id :: id in w.remote && OwnAnchor(w.remote[id]) ==> w.remote[id].description != AnchorName(r)
    case SetTombstone =>
      w.gate.held.Exclusive? && w.head.deleting && Occupancy(w.gens) == 0 && w.anchors == map[] &&
      NoOwnRegistration(w)
    case OtherClaim => !w.gate.held.Exclusive? && !w.gate.api
    case OtherRelease => w.gate.others > 0
    case ApiLock => w.gate.held.Free? && w.gate.others == 0 && !w.gate.api
    case ApiUnlock => w.gate.api
    case CommitRevision(max) => w.gate.api && !w.head.deleting
    case CommitDeletion => w.gate.api
    case Finalize(g) => w.gate.api && g < |w.gens| && w.gens[g].state.Quarantined?
    case Vanish(id) => true
    case Foreign(id, registration) => id >= w.nextId && MayBeForeign(w.provider, registration)
    case Drift(id, matching, paused) => id in w.remote
  }

  function Land(w: World, landed: Option<RunnerId>, r: Registration): World {
    if landed.None? then w
    else w.(remote := w.remote[landed.value := r],
            nextId := if landed.value >= w.nextId then landed.value + 1 else w.nextId)
  }

  predicate NeverExpires(s: GenState) {
    s.CreatePending? || s.Quarantined? || s.Destroyed?
  }

  /** The registration behind the recorded identity, if any, is paused. */
  function Paused(w: World, g: GenId): World {
    var runner := GenAt(w, g).runner;
    if runner.Some? && runner.value in w.remote
    then w.(remote := w.remote[runner.value := w.remote[runner.value].(paused := true)])
    else w
  }

  function SetGen(w: World, g: GenId, gen: Generation): World {
    if g < |w.gens| then w.(gens := w.gens[g := gen]) else w
  }

  function GenAt(w: World, g: GenId): Generation {
    if g < |w.gens| then w.gens[g] else NewGeneration
  }

  const NewGeneration := Generation(CreatePending, NoOp, None, None, false, false, false, false, None, false)

  function Without<K, V>(m: map<K, V>, k: K): map<K, V> {
    map x | x in m && x != k :: m[x]
  }

  /** The effect of one step. */
  function Apply(w: World, s: Step): World {
    match s
    case AcquireShared => w.(gate := w.gate.(held := Shared))
    case AcquireExclusive => w.(gate := w.gate.(held := Exclusive))
    case Release => w.(gate := w.gate.(held := Free))
    case Insert =>
      var gens := w.gens + [NewGeneration];
      w.(gens := gens, log := w.log + [GenerationInserted(|w.gens|, Occupancy(gens))])
    case Advance(g, next) =>
      var gen := GenAt(w, g);
      SetGen(w, g, gen.(state := next, everQuarantined := gen.everQuarantined || next.Quarantined?))
    case InsertOp(g) => SetGen(w, g, GenAt(w, g).(op := Starting))
    case SetOp(g, op) => SetGen(w, g, GenAt(w, g).(op := op))
    case PostGeneration(g, landed) =>
      var name := GenerationName(g);
      var sent := SetGen(w, g, GenAt(w, g).(posted := true, landed := landed));
      Land(sent, landed, Registration(name, GenerationMarker(name), true, false)).(
        log := w.log + [GenerationPosted(g)])
    case SetRunner(g, id) => SetGen(w, g, GenAt(w, g).(runner := Some(id)))
    case SetJob(g, job) => SetGen(w, g, GenAt(w, g).(job := Some(job)))
    case SetResult(g) => SetGen(w, g, GenAt(w, g).(result := true))
    case RequestExpiry(g) => SetGen(w, g, GenAt(w, g).(expiring := true))
    case SetCleaned(g) => SetGen(w, g, GenAt(w, g).(cleaned := true))
    case Pause(g) => Paused(w, g)
    case PauseForRemoval(g) => Paused(w, g)
    case Delete(id) => w.(remote := Without(w.remote, id))
    case BeginAnchor(r) =>
      if r in w.anchors then w else w.(anchors := w.anchors[r := AnchorRow(None, false)])
    case PostAnchor(r, landed) =>
      var name := AnchorName(r);
      Land(w, landed, Registration(name, AnchorMarker(name), true, true)).(
        log := w.log + [AnchorPosted(r)], anchorPosts := w.anchorPosts + 1)
    case SetAnchor(r, id, active) =>
      if r in w.anchors
      then w.(anchors := w.anchors[r := AnchorRow(if id.Some? then id else w.anchors[r].runner, active)])
      else w
    case RemoveAnchor(r) => w.(anchors := Without(w.anchors, r))
    case SetTombstone => w.(head := w.head.(tombstone := true), log := w.log + [TombstoneWritten])
    case OtherClaim => w.(gate := w.gate.(others := w.gate.others + 1))
    case OtherRelease => w.(gate := w.gate.(others := if w.gate.others > 0 then w.gate.others - 1 else 0))
    case ApiLock => w.(gate := w.gate.(api := true))
    case ApiUnlock => w.(gate := w.gate.(api := false))
    case CommitRevision(max) =>
      w.(head := w.head.(revision := w.head.revision + 1, fence := w.head.fence + 1),
         limits := w.limits[w.head.revision + 1 := max],
         log := w.log + [RevisionCommitted(max)])
    case CommitDeletion =>
      w.(head := w.head.(revision := w.head.revision + 1, fence := w.head.fence + 1, deleting := true),
         log := w.log + [DeletionCommitted])
    case Finalize(g) => SetGen(w, g, GenAt(w, g).(state := Destroyed))
    case Vanish(id) => w.(remote := Without(w.remote, id))
    case Foreign(id, registration) => Land(w, Some(id), registration)
    case Drift(id, matching, paused) =>
      if id in w.remote
      then w.(remote := w.remote[id := w.remote[id].(matching := matching, paused := paused)])
      else w
  }

  // ---- What every run keeps ----

  /** No generation is registered twice. */
  ghost predicate PostedAtMostOnce(log: seq<Event>) {
    forall i, j :: 0 <= i < j < |log| && log[i].GenerationPosted? ==> log[i] != log[j]
  }

  /** Once deletion has committed no generation row is inserted and no
      generation is registered; once the tombstone is written no anchor is
      registered either. */
  ghost predicate NothingAfterTheEnd(log: seq<Event>) {
    && (forall i, j :: 0 <= i < j < |log| && log[i].DeletionCommitted? ==>
          !log[j].GenerationInserted? && !log[j].GenerationPosted? && !log[j].RevisionCommitted?)
    && (forall i, j :: 0 <= i < j < |log| && log[i].TombstoneWritten? ==> !log[j].AnchorPosted?)
  }

  /** A generation is inserted only below the limit of the revision then in
      force: the occupancy it brings is within that limit. */
  ghost predicate InsertedWithinLimit(log: seq<Event>) {
    forall i :: 0 <= i < |log| && log[i].GenerationInserted? ==> log[i].occupancy <= MaxInForce(log[..i])
  }

  /** At most one anchor registration is live, and a durable anchor row names
      its description. */
  ghost predicate OneNamedAnchor(w: World) {
    && (forall a, b :: a in w.remote && b in w.remote && OwnAnchor(w.remote[a]) && OwnAnchor(w.remote[b]) ==> a == b)
    && (forall a :: a in w.remote && OwnAnchor(w.remote[a]) ==>
          w.remote[a].description.AnchorName? && w.remote[a].description.revision in w.anchors)
  }

  /** A generation that left Creating and was never quarantined has recorded
      the exact id of its registration, as long as that registration exists. */
  ghost predicate LandedIsRecorded(w: World) {
    forall g :: 0 <= g < |w.gens| && LeftCreating(w.gens[g].state) && !w.gens[g].everQuarantined ==> Settled(w, g)
  }

  /** Outside quarantine and hard expiry, a generation gets past Retiring only
      once its registration is gone, and it ends only without one. */
  ghost predicate EndsUnregistered(w: World) {
    forall g :: 0 <= g < |w.gens| && MustBeGone(w.gens[g]) ==> Gone(w, g)
  }

  predicate MustBeGone(gen: Generation) {
    !gen.everQuarantined && (gen.state.Destroyed? || (PastRetiring(gen.state) && !gen.expiring))
  }

  /** A Busy generation at GitLab has its job association. */
  ghost predicate BusyIsAssociated(w: World) {
    w.provider.GitlabPool? ==> forall g :: 0 <= g < |w.gens| && w.gens[g].state.Busy? ==> w.gens[g].job.Some?
  }

  /** A tombstoned Fleet occupies nothing and owns nothing. */
  ghost predicate TombstoneIsEmpty(w: World) {
    w.head.tombstone ==> Occupancy(w.gens) == 0 && w.anchors == map[] && NoOwnRegistration(w)
  }

  /** The gate's read/write exclusion. */
  ghost predicate GateExcludes(g: Gate) {
    && (g.api ==> g.held.Free? && g.others == 0)
    && (g.held.Exclusive? ==> g.others == 0)
  }

  ghost predicate Safe(w: World) {
    && PostedAtMostOnce(w.log)
    && NothingAfterTheEnd(w.log)
    && InsertedWithinLimit(w.log)
    && OneNamedAnchor(w)
    && LandedIsRecorded(w)
    && EndsUnregistered(w)
    && BusyIsAssociated(w)
    && TombstoneIsEmpty(w)
    && GateExcludes(w.gate)
  }

  /** What one generation row and the registrations carrying its name agree on. */
  ghost predicate RowCoherent(w: World, g: GenId)
    requires g < |w.gens|
  {
    var gen := w.gens[g];
    && (gen.posted <==> GenerationPosted(g) in w.log)
    && (gen.landed.Some? ==> gen.posted && gen.landed.value < w.nextId)
    && (gen.landed.Some? && gen.landed.value in w.remote ==> OwnGeneration(w.remote[gen.landed.value], g))
    && (gen.op.NoOp? ==> !gen.posted)
    && (gen.runner.Some? ==> gen.runner == gen.landed)
    && (gen.state.CreatePending? ==> gen.op.NoOp? && gen.runner.None?)
    && (gen.op.Completed? ==> Settled(w, g))
    && (gen.result ==> gen.runner.Some?)
    && (gen.state.Quarantined? ==> gen.everQuarantined)
    && (gen.everQuarantined ==> gen.state.Quarantined? || gen.state.Destroyed?)
    && (gen.expiring ==> gen.result)
    && (gen.cleaned ==> gen.expiring && gen.state in {Destroying, Quarantined, Destroyed})
    && (LeftCreating(gen.state) && !gen.everQuarantined ==> Settled(w, g))
    && (MustBeGone(gen) ==> Gone(w, g))
    && (gen.state.Busy? && w.provider.GitlabPool? ==> gen.job.Some?)
  }

  /** No two generations ever landed under the same id. */
  ghost predicate DistinctLandings(gens: seq<Generation>) {
    forall a, b :: 0 <= a < b < |gens| && gens[a].landed.Some? ==> gens[a].landed != gens[b].landed
  }

  /** Every marked registration is one the Fleet sent. */
  ghost predicate OwnComesFromPost(w: World) {
    forall id :: id in w.remote ==>
      && id < w.nextId
      && (w.remote[id].note.GenerationMarker? ==>
            && w.remote[id].description.GenerationName?
            && w.remote[id].note == GenerationMarker(w.remote[id].description)
            && w.remote[id].description.gen < |w.gens|
            && w.gens[w.remote[id].description.gen].landed == Some(id))
      && (w.remote[id].note.AnchorMarker? ==> OwnAnchor(w.remote[id]))
  }

  /** At Forgejo a generation's name is borne by its own registration only. */
  ghost predicate NamesAreOurs(w: World) {
    w.provider.ForgejoPool? ==>
      forall id :: id in w.remote && w.remote[id].description.GenerationName? ==>
        w.remote[id].note == GenerationMarker(w.remote[id].description)
  }

  /** The log and the head tell the same story. */
  ghost predicate HeadMatchesLog(w: World) {
    && (w.head.deleting <==> DeletionCommitted in w.log)
    && (w.head.tombstone <==> TombstoneWritten in w.log)
    && (w.head.tombstone ==> w.head.deleting)
    && (!w.head.deleting ==> w.head.revision in w.limits && w.limits[w.head.revision] == MaxInForce(w.log))
    && (forall r :: r in w.limits ==> r <= w.head.revision)
    && (forall g: GenId :: GenerationPosted(g) in w.log ==> g < |w.gens|)
  }

  ghost predicate Inv(w: World) {
    && PostedAtMostOnce(w.log)
    && NothingAfterTheEnd(w.log)
    && InsertedWithinLimit(w.log)
    && OneNamedAnchor(w)
    && TombstoneIsEmpty(w)
    && GateExcludes(w.gate)
    && (forall r :: r in w.anchors && w.anchors[r].runner.Some? ==>
          w.anchors[r].active && w.anchors[r].runner.value <= I64_MAX)
    && (forall g :: 0 <= g < |w.gens| ==> RowCoherent(w, g))
    && DistinctLandings(w.gens)
    && OwnComesFromPost(w)
    && NamesAreOurs(w)
    && HeadMatchesLog(w)
  }

  lemma InvIsSafe(w: World)
    requires Inv(w)
    ensures Safe(w)
  {
    forall g | 0 <= g < |w.gens|
      ensures LeftCreating(w.gens[g].state) && !w.gens[g].everQuarantined ==> Settled(w, g)
      ensures MustBeGone(w.gens[g]) ==> Gone(w, g)
      ensures w.gens[g].state.Busy? && w.provider.GitlabPool? ==> w.gens[g].job.Some?
    {
      assert RowCoherent(w, g);
    }
  }

  /** A Fleet at its first committed revision. */
  function Start(provider: Provider, max: int): World {
    World(provider, Head(1, 1, false, false), map[1 := max], Gate(Free, 0, false), [], map[], map[], 0, [RevisionCommitted(max)], 0)
  }

  lemma StartSatisfiesInv(provider: Provider, max: int)
    ensures Inv(Start(provider, max))
  {
  }
}
