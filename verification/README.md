# Shaula verification model

Shaula is a capacity controller for ephemeral CI runners. It keeps a durable
ledger of runner generations and must make it agree with a remote world it only
partly sees: requests whose reply is lost, deletes that fail, crashes between any
two writes, and Fleet PUT/DELETE commits that arrive in the middle of a pass. This
Dafny 4.11 project models five parts of it and proves what they promise. Paths
below are relative to the repository root.

`dafny verify dfyconfig.toml` checks everything.

## How it is built

**Pool supervisor (GitLab, with Forgejo as second backend).** `FleetWorld` is one
Fleet as a state machine: ledger, registrations at the backend, Fleet head
(revision, deletion marker, tombstone) and the per-fleet read/write gate. Each
durable write and each remote call is one step, everyone else's writes are steps
too, and a crash is just a run that goes on with other steps. `FleetSafety` proves
that every step keeps the invariant, so every world of every run is safe.
`SupervisorAccess.Supervisor` is the supervisor's access to that world: each call
takes at most one step that the machine allows, then lets everyone else take any
number of theirs, and may fail or be the last thing the process does (`Crash`).
The supervisor's code is written against it, one module per source file, so that
verifying a method means: whatever the others do and wherever it crashes, this code
only ever takes steps the machine allows. `GitlabSupervisor.Serve` closes the loop:
any number of passes, failures, crashes and rebuilds is a run of the machine. The
ghost flag `quiet` says that since it was last set nobody else acted, no call failed
and what was shown was complete and true. Clauses guarded by it ("undisturbed" below)
say exactly what the code then does; clauses without it hold whatever happens. A
supervisor built `calm` meets no disturbance, so `quiet` stays set and these clauses
are not empty; `GitlabWitnesses` uses one to run the code's own calls on two concrete
histories. What calls outside the model answer is a parameter (`Answers`, `Facts`,
`Replies`).

**Plan and result admission.** `Plan`, `PlanAdmit`, `PlanChecks` and
`ResultEnvelope` give each accepting method an exact specification (accepted if and
only if) and then prove what that specification means: over chains of partly applied
destroys (`DestroyChains`), and over a manifest's create plan and result together.

**Listener and Auth handoff.** `ListenerWorld`/`Listener` and
`HandoffStore`/`Handoff` follow the same pattern as the supervisor: a machine with
an invariant over all runs, and a class whose methods are the code, interleaved with
everyone else, with the same `quiet` flag.

**Exact arithmetic, codecs and ordering.** `WeightedChoice`, `TemplatePool`, `RequestHash`,
`InvocationPages`, `Lockfile` (on `Text`, `Hex`, `Ordering`, `Json`, `Int64`).

**Auth policy.** `AuthContext`, `TargetPolicy`, `BindingHealth`.

## Assumptions

- A store call is atomic: it happened or it did not. An unanswered one may be either.
- An inventory read that succeeds is complete, free of duplicates and true when it is
  made, apart from notes hidden from a token that lost its permission.
- A delete that is answered means the registration (or broker session) is absent;
  a registration read that finds nothing means it is absent.
- A registration request whose reply is lost has landed by the time the call returns,
  or never lands. Backend ids are never reused.
- Nobody else writes this Fleet's ownership marker at GitLab. At Forgejo, where the
  name is the only evidence, nobody else registers under a generation's freshly minted
  name. The mint never repeats.
- There is one supervisor per Fleet, the gate is in-process, and the deletion marker
  is never taken back. The operator's finalization of a quarantined generation happens
  as a gated API mutation.
- `Blocked` registration operations count as open, as the store's list of open states
  says (`crates/shaula-store/src/lifecycle_repo.rs:14-21`).
- Revisions count up from 1 and are modelled as natural numbers.

## What came out differently

- *Anchors and deletion.* An anchor registration can follow the deletion commit, but only
  from a pass that read the head before it: the pass reads the deletion marker before it
  takes its claim. A head read after the commit carries the marker
  (`SupervisorAccess.Supervisor.CurrentHead`), a pass told of the deletion registers no
  anchor whatever happens (`GitlabAnchors.ReconcileAnchors`), so a pass entered after the
  commit registers none (`GitlabSupervisor.Tick`). The other half is a history of the
  code's own calls: `GitlabWitnesses.AnchorAfterDeletion`. No anchor follows the tombstone,
  and no generation is inserted or registered after the deletion commit.
- *Exact recording.* "A generation that left Creating unquarantined has recorded the id
  that landed" holds in every run unless somebody else removed that registration while the
  row waited in the create window without the id (`FleetSafety.LandedIsRecordedExactly`,
  `FleetSafety.UnrecordedWasRemoved`); the supervisor's own deletes never do that, which is
  a condition of the machine's `Delete` that its code is shown to meet. In terms of the code: recording a registration's
  reply leaves the row without an id if and only if the reply was lost and the inventory it
  was classified by shows nothing of the name (`PoolRegistration.UnrecordedExactly`), which
  means the registration was gone by then (`PoolRegistration.SawNothingIsGone`).
  `GitlabWitnesses.LandedUnrecorded` is such a history.
- *Two capacity forms.* The unsigned create count equals the signed one if and only if the
  effective counter is non-negative or the occupancy counter has reached the maximum
  (`PoolDriver.CreateCountsAgree`). The store reports counts of rows
  (`crates/shaula-store/src/generation_counts.rs:71-117`, through
  `crates/shaula-store/src/registry_impl/lifecycle_support.rs:68-77`), never a negative
  number, so the negative counter of `PoolDriver.NegativeCounterDiffers` is an input of the
  two functions and not one of a running supervisor.
- *Shared resource types.* Two roles of one Terraform type pass manifest validation, but
  every create plan for them is refused, because instances are counted for the first role
  of their type. Likewise a role with a count above one passes validation and plan
  admission, but no result is ever accepted for it: the result must be as long as the
  list of roles. A validated shape can complete a generation if and only if its types are
  distinct and every count is one (`ResultEnvelope.ShapeCompletes`,
  `ResultEnvelope.CompletingWitness`).
- *Entropy.* `weighted_member_index` is exactly unbiased over all 128-bit values. Its
  caller (`crates/shaula-store/src/registry_impl/pool_admission.rs:263-271`) draws version
  4 UUIDs, six of whose bits are fixed; that source is not covered by the statement.
- *Deletion again.* The DELETE commit tests only incarnation and revision
  (`crates/shaula-store/src/fleet_repo.rs:244-281`), so the machine lets it happen
  again, also after the tombstone; nothing proved here depends on it happening once.

## Model

| member | source | states |
|---|---|---|
| Lifecycle.EffectiveNeverReturns | crates/shaula-core/src/lifecycle.rs:59-122 | over any legal history a generation that stops counting as effective, or releases occupancy, never counts again |
| Lifecycle.QuarantineOnlyFinalizes | crates/shaula-core/src/lifecycle.rs:88-122 | quarantine is left only for Destroyed, and nothing follows |
| FleetSafety.StepKeepsInv | crates/shaula-daemon/src/effect_gate.rs:1-60 | every enabled step, by the supervisor or anyone else, keeps the Fleet invariant |
| FleetSafety.EveryRunIsSafe | crates/shaula-daemon/src/gitlab_supervisor.rs:153-246 | in every world of every run: one POST per generation, nothing inserted or registered after deletion, insertions within the limit in force, at most one live anchor and a row naming it, landed ids recorded, registrations gone before a generation ends, Busy only with an association, a tombstoned Fleet owns nothing, gate exclusion |
| FleetSafety.HistoriesAreLegal | crates/shaula-core/src/lifecycle.rs:59-122 | in every run each generation's states follow the diagram, so effectiveness and destruction are final |
| FleetSafety.OccupancyGrowsOnlyByInsert | crates/shaula-daemon/src/pool_create.rs:147-201 | occupancy grows only by an insertion, by one, and to at most the limit of the revision in force |
| FleetSafety.OccupancyStaysBounded | crates/shaula-daemon/src/pool_create.rs:147-173 | over any run with changing revisions, effective is within occupancy and occupancy within the largest limit that was ever in force |
| FleetSafety.LandedIsRecordedExactly | crates/shaula-daemon/src/gitlab_supervisor_registration.rs:14-173 | in every run, a generation that left Creating without ever being quarantined has exactly the landed id on record, unless somebody else removed that registration while the row waited for it in the create window |
| FleetSafety.UnrecordedWasRemoved | crates/shaula-daemon/src/gitlab_supervisor_registration.rs:124-173 | in every run, a landed id that an unquarantined row misses, having left Creating or with the registration gone, was removed by somebody else, earlier, while that row was in the create window without an id |
| FleetSafety.AnchorsAreCounted | crates/shaula-daemon/src/gitlab_supervisor_anchor.rs:100-132 | in every world of every run the anchor counter, by which a pass is shown to register none, is the number of anchor requests in the log |
| FleetWorld.InvIsSafe | crates/shaula-daemon/src/gitlab_supervisor_registration.rs:14-173 | the inductive invariant implies the stated safety properties |
| SupervisorAccess.EnvironmentRelies | crates/shaula-daemon/src/effect_gate.rs:44-56 | what everyone else may change between two of the supervisor's calls; nothing of the head while the gate is held |
| SupervisorAccess.GoneStable | crates/shaula-daemon/src/runner_operation/destroy.rs:65-66 | a registration proven gone stays gone |
| SupervisorAccess.Supervisor.Call | crates/shaula-store/src/lifecycle_repo.rs:122-145 | a store or remote call happens at most once and atomically; answered means it happened |
| SupervisorAccess.Supervisor.CurrentHead | crates/shaula-daemon/src/gitlab_supervisor.rs:248-254 | the head is returned only while it is the guarded revision and not tombstoned; under the gate it stays so; read after the deletion commit it carries the marker |
| SupervisorAccess.Supervisor.AcquireClaim | crates/shaula-daemon/src/effect_gate.rs:47-49 | a shared claim is held only while no exclusive holder is |
| SupervisorAccess.Supervisor.AcquireExclusively | crates/shaula-daemon/src/effect_gate.rs:54-56 | the exclusive side is held only while nobody holds any |
| SupervisorAccess.Supervisor.SetRunnerRow | crates/shaula-store/src/gitlab_pool_repo.rs:18-66 | the id is bound once: a non-positive id and one other than the bound one are refused and nothing changes |
| SupervisorAccess.Supervisor.SetJobRow | crates/shaula-store/src/gitlab_pool_repo.rs:75-105 | the first job association wins |
| RegistrationEvidence.NothingNamedIsGone | crates/shaula-daemon/src/runner_operation/gitlab.rs:160-191 | an inventory without the name proves there is no registration |
| RegistrationEvidence.NothingNamedIsSettled | crates/shaula-daemon/src/gitlab_supervisor_registration.rs:124-160 | an inventory without the name settles the generation: nothing of it that landed can still be missed |
| RegistrationEvidence.OwnedEntryLanded | crates/shaula-daemon/src/runner_operation/gitlab.rs:196-211 | name and marker together identify the registration that landed |
| RegistrationEvidence.FindRegistration | crates/shaula-daemon/src/gitlab_supervisor_registration.rs:124-160 | Absent and Exactly are true of the world whatever happens meanwhile; undisturbed, the answer is the one of the three that holds of the world |
| RegistrationEvidence.InventoryDecides | crates/shaula-daemon/src/gitlab_supervisor_registration.rs:124-160 | read in full, an inventory decides whether nothing bears the name, exactly one registration of the Fleet's own does, or neither |
| RegistrationEvidence.NamedEntryLanded | crates/shaula-daemon/src/forgejo_supervisor_registration.rs:117-167 | at Forgejo the name alone identifies the registration that landed |
| RegistrationEvidence.FindCandidate | crates/shaula-forgejo/src/uncertain.rs:7-82 | two readings classify a lost reply; what they answer is true of the world |
| PoolRegistration.RegisterRunner | crates/shaula-daemon/src/gitlab_supervisor_registration.rs:56-82 | one request, under claim, current head and open intent; a definite reply names the landed id |
| PoolRegistration.ClassifyRegistration | crates/shaula-daemon/src/forgejo_supervisor_registration.rs:117-167 | a lost reply is never followed by a second request, and the verdict fixes the whole row: contradictory evidence isolates with the intent blocked, absence cleans up with the intent closed and the id as it was, an exact landing cleans up with its id recorded; absent exactly if an inventory taken meanwhile shows nothing of the name |
| PoolRegistration.CloseRegistration | crates/shaula-daemon/src/gitlab_supervisor_registration.rs:160-173 | the intent is closed before the row moves on |
| PoolRegistration.RegisterGeneration | crates/shaula-daemon/src/gitlab_supervisor_registration.rs:14-122 | material is handed out only with the id recorded and the intent completed; undisturbed, the request is sent exactly if the head is current and not being deleted, and its answer is recorded |
| PoolRegistration.RecordRegistration | crates/shaula-daemon/src/gitlab_supervisor_registration.rs:82-122 | each kind of reply has its own record: a definite one the id and a closed intent, a lost one its classification by an inventory, a failed one a blocked intent and quarantine |
| PoolRegistration.UnrecordedExactly | crates/shaula-daemon/src/gitlab_supervisor_registration.rs:82-173 | recording a reply leaves the row in cleanup without an id if and only if the reply was lost and the inventory it was classified by shows nothing of the name |
| PoolRegistration.SawNothingIsGone | crates/shaula-daemon/src/gitlab_supervisor_registration.rs:124-160 | whatever landed before such an inventory was gone when it was taken |
| PoolRegistration.IntendAndRegister | crates/shaula-daemon/src/forgejo_supervisor_registration.rs:30-66 | the durable intent precedes the one request |
| PoolRegistration.RecordIdentity | crates/shaula-daemon/src/gitlab_supervisor_registration.rs:91-122 | the identity is persisted before anything else; a refused one quarantines |
| GitlabReadiness.DecideIsLegal | crates/shaula-daemon/src/gitlab_supervisor_readiness.rs:32-77 | every advance a decision asks for is legal, and none is to Busy or past Retiring |
| GitlabReadiness.RunningJobIsKept | crates/shaula-daemon/src/gitlab_supervisor_readiness.rs:32-77 | a known registration with one running job is claimed or left alone; a claim means exactly one job; Idle needs an online idle unpaused runner |
| GitlabReadiness.Claim | crates/shaula-daemon/src/gitlab_supervisor_readiness.rs:223-260 | Busy with that very job on record, or isolated; undisturbed, Busy and with the registration paused |
| GitlabReadiness.AssociateJob | crates/shaula-daemon/src/gitlab_supervisor_readiness.rs:223-245 | the association is stored first; a contradicted one isolates |
| GitlabReadiness.WalkToBusy | crates/shaula-daemon/src/gitlab_supervisor_readiness.rs:246-271 | only the state moves, along serving states, to Busy |
| GitlabReadiness.ActOn | crates/shaula-daemon/src/gitlab_supervisor_readiness.rs:134-221 | the decision is carried out exactly as made |
| GitlabReadiness.ObserveReadiness | crates/shaula-daemon/src/gitlab_supervisor_readiness.rs:134-221 | without an identity or with a second registration of the name a generation is isolated, with nothing proven it waits, otherwise the decision on what was seen is carried out |
| GitlabReadiness.RecoverCreate | crates/shaula-daemon/src/gitlab_supervisor_readiness.rs:273-311 | recovery registers nothing; an open intent without identity is classified, and is left without an id exactly if the inventory shows nothing of the name; any other row ends in WaitingOnline exactly with a recorded identity and a stored result, else in cleanup, the intent closed |
| GitlabReadiness.AbandonPending | crates/shaula-daemon/src/gitlab_supervisor_readiness.rs:111-119 | a row that never left CreatePending goes to cleanup |
| GitlabReadiness.ReconcileReadiness | crates/shaula-daemon/src/gitlab_supervisor_readiness.rs:105-132 | a completed pass leaves no generation in the create window and registers none |
| GitlabReadiness.ReconcileOne | crates/shaula-daemon/src/gitlab_supervisor_readiness.rs:105-132 | what the pass does to a row, by the state it finds it in; rows past serving are untouched |
| ForgejoReadiness.ObserveIdentity | crates/shaula-daemon/src/runner_operation/forgejo.rs:175-198 | sighted exactly when one entry touches the identity and agrees with all of it |
| ForgejoReadiness.NextStateIsLegal | crates/shaula-daemon/src/forgejo_supervisor_readiness.rs:29-72 | every next state is legal; Idle and Busy need an owned idle or an active runner; an active owned runner is never sent away |
| ForgejoReadiness.Follow | crates/shaula-daemon/src/forgejo_supervisor_readiness.rs:131-188 | the row moves exactly as decided |
| ForgejoReadiness.ObserveRunner | crates/shaula-daemon/src/forgejo_supervisor_readiness.rs:131-188 | the inventory's sighting counts if it touches the identity; otherwise the runner is read by itself, and without an answer the row waits |
| ForgejoReadiness.ReconcileReadiness | crates/shaula-daemon/src/forgejo_supervisor_readiness.rs:100-127 | a completed pass leaves no generation in the create window and registers none |
| GitlabAnchors.ReconcileAnchors | crates/shaula-daemon/src/gitlab_supervisor_anchor.rs:33-97 | only machine steps, under claim; an undisturbed non-deleting pass with a clean inventory ends with exactly the current revision's anchor, over such a Fleet it changes nothing, and a deleting one removes exactly the anchors; while deleting it registers no anchor whatever happens, and never more than one |
| GitlabAnchors.ChooseAnchor | crates/shaula-daemon/src/gitlab_supervisor_anchor.rs:50-82 | the recorded registration, or a unique landing of a lost reply, which is adopted; none only if nothing fits |
| GitlabAnchors.DeleteOthers | crates/shaula-daemon/src/gitlab_supervisor_anchor.rs:83-88 | every live anchor left is the kept one or its name is retained |
| GitlabAnchors.RemoveRows | crates/shaula-daemon/src/gitlab_supervisor_anchor.rs:89-97 | exactly the rows whose anchor may still live, or the kept one's, stay |
| GitlabAnchors.RegisterAnchor | crates/shaula-daemon/src/gitlab_supervisor_anchor.rs:100-132 | row first, then one request, then the outcome; undisturbed it settles |
| GitlabAnchors.SettledAnchorIsSeen | crates/shaula-daemon/src/gitlab_supervisor_anchor.rs:44-66 | a clean inventory of a settled Fleet shows its one anchor and no other |
| GitlabAnchors.ChoiceSettles | crates/shaula-daemon/src/gitlab_supervisor_anchor.rs:50-97 | choosing and cleaning up together settle, and leave a settled Fleet alone |
| GitlabAnchors.OnlyAnchorsCleared | crates/shaula-daemon/src/gitlab_supervisor_anchor.rs:83-98 | a clean-up that keeps nothing removes the anchors and no other registration |
| GitlabAnchors.AnchorNeverLanded | crates/shaula-daemon/src/gitlab_supervisor_anchor.rs:18-28 | a live anchor is no generation's registration, so clearing anchors never removes one a generation waits for |
| GitlabAnchors.UnnamedRowMayGo | crates/shaula-daemon/src/gitlab_supervisor_anchor.rs:89-97 | a row is removed only when no live anchor goes by its name |
| GitlabGeneration.CreateOneGeneration | crates/shaula-daemon/src/gitlab_supervisor_generation.rs:39-127 | at most one row more; true only for a WaitingOnline row with recorded landed id and stored result, anything else inserted is on its way out; undisturbed, a row is added exactly if there is room at the current revision and admission agrees, and serves exactly if everything succeeded |
| GitlabGeneration.AdmitGeneration | crates/shaula-daemon/src/gitlab_supervisor_generation.rs:49-74 | check, insertion and first advance under one exclusive hold; undisturbed, admitted exactly if admissible |
| GitlabGeneration.AdmissibleRevision | crates/shaula-daemon/src/pool_create.rs:147-173 | a yes means the insertion is within the limit now in force, undeleted |
| GitlabGeneration.RunGeneration | crates/shaula-daemon/src/gitlab_supervisor_generation.rs:75-127 | an unprepared row is never registered; undisturbed, a registered one serves exactly if token, request and apply are good, else it is cleaned up |
| GitlabGeneration.InForce | crates/shaula-daemon/src/pool_create.rs:147-173 | the supervisor's limit is the one in force while its revision is current |
| GitlabGeneration.RecordCreateOutcome | crates/shaula-daemon/src/pool_create.rs:271-334 | result before WaitingOnline; a failed apply goes to cleanup |
| GitlabGeneration.OthersNeverOccupy | crates/shaula-store/src/fleet_repo.rs:244-281 | nobody else raises a Fleet's occupancy |
| GitlabRetirement.Observe | crates/shaula-daemon/src/runner_operation/gitlab.rs:50-76 | the exact owned registration, or a true verdict; undisturbed, which of them is decided by the row, the head and the world |
| GitlabRetirement.PauseAndRecheck | crates/shaula-daemon/src/runner_operation/gitlab.rs:81-99 | removable only once the registration was seen paused, then without a job, then still paused, known and inactive, in that order; the pausing pass never removes |
| GitlabRetirement.DeleteRegistration | crates/shaula-daemon/src/runner_operation/gitlab.rs:150-157 | demands exactly that evidence for a registration whose token may be held; an answered delete proves the registration gone |
| GitlabRetirement.Ask | crates/shaula-daemon/src/runner_operation/gitlab.rs:111-191 | every verdict of absence is true, and nothing else about the rows changes; undisturbed, each question has one of the answers the world allows |
| GitlabRetirement.ChainIsLegal | crates/shaula-daemon/src/runner_operation/destroy.rs:338-356 | each link of the destroy chain is legal and one rank further |
| GitlabRetirement.Walk | crates/shaula-daemon/src/runner_operation/destroy.rs:189-201 | the row ends at the rank asked for or where it was beyond it; only its state moved |
| GitlabRetirement.ClearRegistration | crates/shaula-daemon/src/runner_operation/destroy.rs:65-108 | intent before removal; goes on only with the row Retiring and the registration gone; undisturbed, isolates exactly what is unrecorded and not provably absent |
| GitlabRetirement.Retire | crates/shaula-daemon/src/runner_operation/destroy.rs:43-166 | Destroyed only without a registration and never out of quarantine; undisturbed, the outcome is determined by the row, the world and what the runtime answers |
| GitlabRetirement.TerminateResources | crates/shaula-daemon/src/runner_operation/lifetime.rs:69-108 | resources first; goes on only with the checkpoint stored; missing pins and foreign resources isolate |
| GitlabRetirement.Expire | crates/shaula-daemon/src/runner_operation/lifetime.rs:45-145 | hard expiry ends a row only once its registration is gone; undisturbed, the runtime's outcome and then the head decide |
| GitlabDestroy.DestroyExcess | crates/shaula-daemon/src/pool_driver.rs:100-133 | selects exactly what the remaining surplus, revision and deadline allow; counts destructions, and whatever is counted is Destroyed |
| GitlabDestroy.SelectingMoves | crates/shaula-daemon/src/pool_driver.rs:106-131 | the running budget is the surplus less the idle generations really destroyed |
| GitlabDestroy.ExpireRunners | crates/shaula-daemon/src/pool_driver.rs:137-145 | every row is considered whatever became of the others; the count is of rows that are Destroyed |
| GitlabObservation.ClassifyInventory | crates/shaula-daemon/src/gitlab_supervisor_observation.rs:13-52 | the counts are those of the per-entry classification by exact ownership |
| GitlabObservation.Identities | crates/shaula-daemon/src/gitlab_supervisor_observation.rs:18-33 | the map holds exactly the occupying generations' recorded ids |
| GitlabObservation.UnknownIsExact | crates/shaula-daemon/src/gitlab_supervisor_observation.rs:34-51 | nothing unknown if and only if everything listed is an anchor or accounted for |
| GitlabObservation.ProveDemand | crates/shaula-daemon/src/gitlab_supervisor_anchor.rs:143-173 | undisturbed, a sound anchor proves its demand and is left alone, a drifted one is deleted and nothing else |
| GitlabObservation.ObserveDemand | crates/shaula-daemon/src/gitlab_supervisor_anchor.rs:136-202 | a proof is accepted only with an anchor and a live head; undisturbed, exactly with a sound anchor at the current undeleted head |
| GitlabObservation.ObserveStatus | crates/shaula-daemon/src/gitlab_supervisor_observation.rs:54-94 | a tombstone is written only while deleting, with a clear inventory; undisturbed, exactly if the head is current and being deleted and occupancy, anchor rows and prefix are empty |
| GitlabObservation.EmptyPrefix | crates/shaula-daemon/src/gitlab_supervisor_observation.rs:67-92 | an empty inventory under the gate leaves nothing owned and nothing occupied |
| GitlabSupervisor.Tick | crates/shaula-daemon/src/gitlab_supervisor.rs:153-246 | nothing is created on stale demand or inventory, over an unknown registration, or while deleting; the report counts what was created; an undisturbed pass over a deleted Fleet with all generations destroyed and only its own anchors left ends in the tombstone; an undisturbed pass over a Fleet at rest (one sound recorded anchor, every generation destroyed or quarantined) admits a generation or leaves everything as it was; a pass entered after the deletion commit registers no anchor |
| GitlabSupervisor.AnchorsThenDemand | crates/shaula-daemon/src/gitlab_supervisor_anchor.rs:33-202 | undisturbed, over one sound recorded anchor the two passes together change nothing and read the demand exactly at the current undeleted head; from any other anchors and rows they come to one sound recorded anchor, or to none at all if the chosen one has drifted, and from none always to one |
| GitlabSupervisor.LookTwice | crates/shaula-daemon/src/gitlab_supervisor_anchor.rs:33-173 | undisturbed, the inventory and the two anchor passes done twice end with exactly one sound anchor on record, from whatever anchors and rows they start with: a drifted one is replaced by the next pass |
| GitlabWitnesses.AnchorAfterDeletion | crates/shaula-daemon/src/gitlab_supervisor.rs:153-246 | a history of the code's own calls in which a pass that read the head before the deletion commit registers an anchor after it |
| GitlabWitnesses.LandedUnrecorded | crates/shaula-daemon/src/gitlab_supervisor_readiness.rs:273-311 | a history of the code's own calls in which a registration landed, its reply was lost, it was removed, and recovery leaves the row without its id |
| GitlabSupervisor.NothingIsInTheWay | crates/shaula-daemon/src/gitlab_supervisor_observation.rs:34-92 | over such a Fleet a clean inventory shows nothing unknown, and with the anchors cleared the tombstone is due |
| GitlabSupervisor.CreateUpTo | crates/shaula-daemon/src/gitlab_supervisor.rs:214-235 | one insertion per reported creation, and at most one more |
| GitlabSupervisor.Serve | crates/shaula-daemon/src/gitlab_supervisor.rs:144-246 | any number of passes, crashes and rebuilds goes through safe worlds only, within capacity |
| PoolDriver.TargetsAgree | crates/shaula-daemon/src/pool_driver.rs:22-27 | for a valid policy the unsigned target is the signed one for every demand |
| PoolDriver.CreateCountsAgree | crates/shaula-core/src/capacity.rs:47-67 | the two create counts agree if and only if the effective counter is non-negative or occupancy has reached the maximum |
| PoolDriver.NegativeCounterDiffers | crates/shaula-daemon/src/pool_driver.rs:29-38 | a negative counter where they differ |
| PoolDriver.CreatesExactlyWhatFits | crates/shaula-daemon/src/pool_driver.rs:29-38 | the count is the greatest that passes neither target nor maximum |
| PoolDriver.SurplusBoundsIdleRemoval | crates/shaula-daemon/src/pool_driver.rs:100-133 | protected idle generations destroyed are at most the surplus, for every order and every mix of outcomes |
| PoolDriver.NeverSelected | crates/shaula-daemon/src/pool_driver.rs:107-123 | Busy, quarantined and current pre-online generations are never selected |
| PoolDriver.AttemptsMayExceedSurplus | crates/shaula-daemon/src/pool_driver.rs:124-128 | attempts, unlike destructions, can exceed the surplus |
| Plan.ParsePlanShape | crates/shaula-core/src/plan.rs:63-240 | a document is read if and only if it is of the supported form, and then change by change |
| Plan.ParseChanges | crates/shaula-core/src/plan.rs:105-188 | every entry is read, in order, or the plan is refused |
| Plan.CollectManagedAddresses | crates/shaula-core/src/plan.rs:206-219 | appends the managed addresses of a module tree |
| Plan.WitnessIsExact | crates/shaula-core/src/plan.rs:203-228 | an address is witnessed if and only if a managed resource has it at some depth |
| PlanAdmit.AdmitDestroyPlan | crates/shaula-core/src/plan_admit.rs:39-120 | accepts exactly plain deletes of declared types at distinct bound addresses, omitting only what the refresh dropped |
| PlanAdmit.AdmitManaged | crates/shaula-core/src/plan_admit.rs:122-186 | accepts exactly plain creates of declared types in the declared number per role |
| PlanAdmit.AdmitCreatePlan | crates/shaula-core/src/plan_admit.rs:15-34 | accepts exactly that over empty prior state, with read-only data |
| PlanAdmit.AdmitDataResources | crates/shaula-core/src/plan_admit.rs:188-203 | data resources only read or do nothing |
| PlanAdmit.SharedTypeAdmitsNothing | crates/shaula-core/src/plan_admit.rs:166-184 | two roles of one type make every create plan fail |
| PlanAdmit.CreateIsExact | crates/shaula-core/src/plan_admit.rs:122-186 | over a validated shape, admission is the exact declared number of each type, all types distinct |
| PlanChecks.AdmitChecks | crates/shaula-core/src/plan_checks.rs:60-88 | accepts exactly distinct, problem-free checks that pass or are skipped for a deleted resource |
| PlanChecks.AdmitDestroyPlanJson | crates/shaula-core/src/plan_checks.rs:17-25 | a destroy document is admitted exactly if it reads, its deletes are admissible and its checks are |
| PlanChecks.UnknownNamesDeleted | crates/shaula-core/src/plan_checks.rs:114-157 | every unknown check names, by an address of its own, a bound resource the plan deletes |
| PlanChecks.CreateResolvesEveryCheck | crates/shaula-core/src/plan.rs:57-61 | outside destroy no check may stay unknown |
| DestroyChains.ChainLosesNothing | crates/shaula-core/src/plan_admit.rs:84-120 | over any chain of admitted, partly applied destroys nothing outside the original state is deleted and every live original resource is still bound |
| DestroyChains.ChainOnlyShrinks | crates/shaula-core/src/plan_admit.rs:39-120 | live resources only disappear along a chain |
| DestroyChains.CompleteApplyEndsAll | crates/shaula-core/src/plan_admit.rs:104-120 | a chain ending in a complete apply leaves no original resource live |
| ResultEnvelope.ValidateShape | crates/shaula-core/src/template.rs:228-255 | accepts exactly one to eight roles, unique, named, typed and with positive counts |
| ResultEnvelope.ResultIsBijective | crates/shaula-core/src/template_envelope.rs:257-324 | over a validated shape an accepted result echoes each role once, which forces every count to be one |
| ResultEnvelope.ShapeCompletes | crates/shaula-core/src/template_envelope.rs:283-322 | an admitted plan and an accepted result together need distinct types and counts of one |
| ResultEnvelope.CompletingWitness | crates/shaula-core/src/plan_admit.rs:122-186 | and such a shape has both |
| WeightedChoice.WeightedMemberIndex | crates/shaula-core/src/template_pool.rs:83-98 | an accepted value selects the one member whose interval holds it, never a zero weight; others select none |
| WeightedChoice.ExactlyUnbiased | crates/shaula-core/src/template_pool.rs:83-98 | over all 128-bit values each member is selected weight times (limit / total) times, and at most total values are rejected |
| WeightedChoice.HitsAreProportional | crates/shaula-core/src/template_pool.rs:88-97 | after any whole rounds and a rest, a member's hits are its weight per round and its share of the rest |
| TemplatePool.Validate | crates/shaula-core/src/template_pool.rs:37-75 | accepts exactly 1 to 32 members with distinct stable keys, weights of 1 to 10000, a non-negative cap and a profile |
| TemplatePool.ValidPoolDrawsFairly | crates/shaula-core/src/template_pool.rs:37-98 | over a validated pool every member is drawn, any two exactly in proportion to their weights, and at most 320000 of all 128-bit values are drawn again |
| RequestHash.RequestHashParts | crates/shaula-core/src/auth.rs:142-152 | the bytes fed to the hash are the encoding of the parts |
| RequestHash.EncodeRoundTrip | crates/shaula-core/src/auth.rs:142-152 | decoding gives back the parts |
| RequestHash.EncodeIsInjective | crates/shaula-core/src/auth.rs:135-152 | different part lists never share a pre-image |
| RequestHash.EncodeIsPrefixFree | crates/shaula-core/src/auth.rs:142-152 | an encoding extends another only by further parts |
| RequestHash.IdempotencyIsExact | crates/shaula-daemon/src/service.rs:170-185 | two requests share a pre-image only if all five inputs are equal |
| InvocationPages.PageOf | crates/shaula-core/src/operation_log_page.rs:69-107 | a page is served exactly for a valid limit and a cursor of this generation |
| InvocationPages.PageIsTheNextStretch | crates/shaula-core/src/operation_log_page.rs:88-104 | the page is the next entries in strictly descending order, with a cursor exactly if something is left |
| InvocationPages.CursorRoundTrip | crates/shaula-core/src/operation_log_page.rs:42-67 | a cursor's text gives back its position for its generation and is refused for another; for its own it is refused exactly if the entry's id is no UUID or the JSON text is longer than 512 bytes |
| Hex.SameBytes | crates/shaula-core/src/operation_log_page.rs:51-54 | two hexadecimal texts that are read stand for the same bytes exactly if they differ in case only |
| InvocationPages.LatestIsMaximal | crates/shaula-core/src/operation_log_page.rs:76-87 | nothing of its operation is later than the latest |
| InvocationPages.LatestIgnoresCursor | crates/shaula-core/src/operation_log_page.rs:76-87 | the latest create and destroy do not depend on the cursor |
| InvocationPages.WalkDescends | crates/shaula-core/src/operation_log_page.rs:69-107 | a complete walk is strictly descending for any limits and changes in between |
| InvocationPages.WalkReturnsLogged | crates/shaula-core/src/operation_log_page.rs:69-107 | it returns only what the log held |
| InvocationPages.WalkCovers | crates/shaula-core/src/operation_log_page.rs:69-107 | it returns everything that was there throughout |
| InvocationPages.WalkMakesProgress | crates/shaula-core/src/operation_log_page.rs:88-104 | over a fixed log each page with a cursor leaves strictly less |
| InvocationPages.WalkEnds | crates/shaula-core/src/operation_log_page.rs:69-107 | over a fixed log, for any limit, following the cursors is complete after at most one page more than there are entries left |
| Lockfile.ParseLockProviders | crates/shaula-core/src/lockfile.rs:37-156 | the line scanner computes the recursive reading of the file |
| Lockfile.ScanBlock | crates/shaula-core/src/lockfile.rs:82-137 | the block scanner computes the line-by-line reading of a provider block |
| Lockfile.ChecksumIsExact | crates/shaula-core/src/lockfile.rs:190-218 | exactly the canonical pins are accepted, unchanged |
| Lockfile.AcceptedIsWellPinned | crates/shaula-core/src/lockfile.rs:82-154 | every provider of an accepted lock has at least one pin, all canonical |
| Lockfile.FormDoesNotMatter | crates/shaula-core/src/lockfile.rs:82-154 | over a lock of any number of provider blocks, the same pins on one line or one per line, block by block and in any order, are the same lock |
| Lockfile.FileReads | crates/shaula-core/src/lockfile.rs:37-156 | every lock of well-written blocks, each in either form, is read as its providers in order with sorted pins |
| Lockfile.FedIsInjective | crates/shaula-core/src/lockfile.rs:144-149 | different pin lists never feed the digest the same bytes |
| AuthContext.CompletionIsFinal | crates/shaula-core/src/auth_context.rs:83-115 | only itself, up to the display name, completes a complete context |
| AuthContext.CompletesTransitive | crates/shaula-core/src/auth_context.rs:102-115 | completing twice is completing once |
| AuthContext.CompletionKeepsBinding | crates/shaula-core/src/auth_context.rs:104-132 | a completion stays on the binding of what was desired |
| TargetPolicy.New | crates/shaula-core/src/auth_policy.rs:207-241 | accepted exactly within the bounds and without duplicates up to case, in canonical order |
| TargetPolicy.OrderDoesNotMatter | crates/shaula-core/src/auth_policy.rs:207-241 | every permutation gives the same policy or the same refusal |
| TargetPolicy.BudgetIsExact | crates/shaula-core/src/auth_policy.rs:231-239 | the account budget counts the case-folded accounts |
| TargetPolicy.AtMostThreeMatch | crates/shaula-core/src/auth_policy.rs:107-125 | at most three selectors match a target, all naming its owner |
| TargetPolicy.ResolveDesiredContext | crates/shaula-core/src/auth_context.rs:156-218 | the owner's binding decides; the resolution is never ambiguous |
| BindingHealth.Judge | crates/shaula-daemon/src/service_auth_health.rs:9-157 | Healthy, Blocked and Degraded if and only if all, none or some relevant Fleets are affected or verified; a window outlives none of its evidence |
| BindingHealth.LengthsDecide | crates/shaula-daemon/src/service_auth_health.rs:104-128 | the length comparisons decide equality of the sets of Fleets |
| BindingHealth.AffectedIsRelevant | crates/shaula-daemon/src/service_auth_health.rs:20-91 | only relevant Fleets can be blocked or speak |
| BindingHealth.SpokesmanIsNewest | crates/shaula-daemon/src/service_auth_health.rs:64-91 | a Fleet's observation is the newest that counts |
| BindingHealth.CollectRoutes | crates/shaula-daemon/src/service_auth_health.rs:18-63 | the collected Fleets are exactly the relevant and the route-blocked ones |
| BindingHealth.CollectFresh | crates/shaula-daemon/src/service_auth_health.rs:64-91 | exactly the Fleets with a counting observation, each with the newest |
| BindingHealth.Window | crates/shaula-daemon/src/service_auth_health.rs:110-121 | the earliest check and the earliest expiry, both attained |
| HandoffStore.AckIsExact | crates/shaula-store/src/fleet_auth_ack.rs:38-172 | acknowledged exactly if the captured authority holds, the context completes the intent and no pin drifts |
| HandoffStore.ObservedMovesOnlyByAck | crates/shaula-store/src/fleet_auth_ack.rs:173-201 | only an acknowledgement changes the observed side, both halves together |
| HandoffStore.IdentityIsPinned | crates/shaula-core/src/registry/auth_port.rs:225-247 | over any run with the same observed target its numeric identity never changes |
| HandoffStore.RunStaysCoherent | crates/shaula-store/src/fleet_auth_ack.rs:132-166 | the observed side is empty or one complete context both rows refer to |
| Handoff.ClassifyOwnership | crates/shaula-daemon/src/handoff.rs:303-341 | access is verified exactly for the bound id in the resolved group; absence only by an authenticated read |
| Handoff.Attempt.RunHandoff | crates/shaula-daemon/src/handoff.rs:32-184 | UpToDate, Blocked and Retry never advance the observed authority, Acknowledged does, a failed attempt at most once; every advance is made once, under the captured fence and intent, to a completion of that intent; undisturbed, outcome and new state are determined case by case |
| Handoff.AdvancesExactly | crates/shaula-daemon/src/handoff.rs:32-184 | an undisturbed attempt advances exactly if it is due, access is proven for a GitHub App revision, and the intent, written under the fence in force, is completed without contradicting a pin |
| Handoff.Attempt.ResolveExactContext | crates/shaula-daemon/src/handoff.rs:249-289 | what is handed on is the captured intent completed with the target's numeric identity, for this revision and target; anything else blocks |
| Handoff.Attempt.RecordFailure | crates/shaula-store/src/fleet_auth_repo.rs:121-166 | a failure is recorded only while the captured authority holds, with its deadline, and never moves the observed side; the write may itself fail, before or after it committed |
| Handoff.Attempt.Acknowledge | crates/shaula-store/src/fleet_auth_ack.rs:14-203 | an acknowledged swap advances, one that is turned down does not, and an error may have come before or after the commit |
| ListenerWorld.EveryRunIsAccounted | crates/shaula-daemon/src/listener_session.rs:8-247 | in any interleaving every established session is closed, installed or the one uncommitted handle, and none is asked for while another is open |
| ListenerWorld.PostFollowsClosure | crates/shaula-daemon/src/listener_session.rs:24-90 | at an establishment request every earlier session is gone |
| ListenerWorld.SessionsAreStable | crates/shaula-daemon/src/effect_gate.rs:47-56 | nobody without the exclusive gate changes who owns which session |
| Listener.BackoffIsBounded | crates/shaula-daemon/src/listener.rs:117-140 | the backoff grows from ten to at most 160 seconds, or is what GitHub asked for |
| Listener.FleetListener.EnsureSession | crates/shaula-daemon/src/listener_session.rs:8-150 | a returned epoch is the row's active session, remembered, enabled, with no handle left over; undisturbed: nothing in the backoff or without authority, the serving session without any request, otherwise exactly one request and another session |
| Listener.FleetListener.EnsureLocked | crates/shaula-daemon/src/listener_session.rs:8-150 | whatever happens, at most one session is asked for |
| Listener.FleetListener.EstablishSession | crates/shaula-daemon/src/listener_session.rs:85-113 | one request with nothing else open; a definite handle is held |
| Listener.FleetListener.InstallSession | crates/shaula-daemon/src/listener_session.rs:114-150 | installed and adopted, or the handle is closed or kept; the transaction may have committed although it failed |
| Listener.FleetListener.ClearUncommitted | crates/shaula-daemon/src/listener_session.rs:152-170 | cleared only once the broker session is closed |
| Listener.FleetListener.ClearSession | crates/shaula-daemon/src/listener_session.rs:172-230 | remote, then row, then memory, with polling disabled first; a replacement leaves the row clear, the row write may commit unanswered; nothing is asked for |
| Listener.FleetListener.Stop | crates/shaula-daemon/src/listener_session.rs:232-247 | stopped means no uncommitted handle is left; undisturbed it stops |
| Listener.FleetListener.FailedSession | crates/shaula-daemon/src/listener.rs:104-142 | the failure is recorded exactly if the epoch is still the remembered one, and nothing else changes |
| Listener.FleetListener.LoseReply | crates/shaula-daemon/src/listener_poll.rs:134-152 | the reconnect flag is set only for the epoch still installed, under a claim that keeps replacement out |
| Listener.FleetListener.FinishUnderClaim | crates/shaula-daemon/src/listener_poll.rs:118-217 | a message's effects leave every session where it is; undisturbed, a lost acknowledgement and a lost acquisition ask for a new session, other failures only back off |
| Listener.FleetListener.Acquire | crates/shaula-daemon/src/listener_poll.rs:154-217 | nothing is acquired unless started; a lost acquisition sets the reconnect flag before anything else |
| Listener.FleetListener.Poll | crates/shaula-daemon/src/listener_poll.rs:54-116 | a failed poll is recorded against its epoch, an empty one clears the failure state |
| Listener.Serve | crates/shaula-daemon/src/listener_poll.rs:8-116 | any sequence of polls, replacements and stops keeps every session accounted for |

## Left out

- HTTP clients, the user interface, SQL, Terraform execution, diagnostics, metrics and reason texts: they decide no effect, or are represented by the contracts above.
- SHA-256, HMAC, JSON text, YAML, regular expressions and UUID syntax: facts are proved about the bytes fed to a hash and about decoded values.
- GitHub scale-set supervisor and Forgejo's own tick, retirement and inventory passes: the Forgejo instance covers registration, recovery and readiness, which is where it differs in evidence.
- Template pool member choice beyond the weighted draw, bindings, artifact preparation: they enter as calls that may succeed or fail before the runtime is reached.
- Job contents, execution status and running jobs of a registration: read as arbitrary answers, so busy-safety is the order pause, recheck, delete and not a statement about jobs.
- `phase`, `access_reason`, `admit_destroy_identity`, label and name validators: single-branch computations that would only add easy members.
- The tick lock, create and destroy slots and destroy backoff: they only delay; the backoff enters as an arbitrary "due".
- Fairness of the gate: a wait that never ends is a crash (supervisor) or a refusal without effect (listener).
- Listener message rows (ingest, acknowledge, acquire): the answers of their store calls are parameters; the model is about who owns the session and what asks for another.
- White space in lock files is ASCII white space, and lines are given; splitting the text into lines is not modelled.
- Listener.FleetListener.PollOnce: promises that the run goes on being one of the machine and that a listener that may not poll is left alone; what a poll does is stated by Poll, FinishUnderClaim and FailedSession.
- InvocationPages.CursorRoundTrip: the JSON library enters as a writer and a reader that gives back what was written, the UUID library as a test; pages and walks are stated over the positions cursors stand for.
- GitlabSupervisor.Tick: that a pass changes nothing is stated for Fleets whose generations are all destroyed or quarantined, the only states every pass leaves alone whatever it is answered; what a pass does to other rows is stated row by row (ReconcileOne, Retire, Expire).
- GitlabRetirement.ReadRegistration: what is shown of a registration may be false or incomplete (then it is a disturbance); status and running jobs are arbitrary in any case.
