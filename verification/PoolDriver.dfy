/** Pool rules shared by every backend: the capacity arithmetic in its two
    machine widths, and the selection of generations to retire
    (capacity.rs and pool_driver.rs). */
module PoolDriver {
  import opened Int64
  import opened Lifecycle

  // ---- Capacity ----

  datatype Policy = Policy(min: I64, max: I64)

  const MAX_CAPACITY: int := 100_000

  predicate ValidPolicy(p: Policy) {
    0 <= p.min && 0 <= p.max && p.min <= p.max && p.min <= MAX_CAPACITY && p.max <= MAX_CAPACITY
  }

  /** The reference form over signed 64-bit values (capacity.rs). */
  function Target(p: Policy, demand: I64): I64 {
    Min(p.max, Saturate(p.min + demand))
  }

  function CreateCount(p: Policy, demand: I64, effective: I64, occupancy: I64): int {
    Min(Max(Target(p, demand) - effective, 0), Max(p.max - occupancy, 0))
  }

  /** The driver's form over unsigned 64-bit values (pool_driver.rs). */
  function DriverTarget(p: Policy, demand: U64): U64 {
    Min(SaturateUnsigned((if p.min < 0 then 0 else p.min) + demand), if p.max < 0 then 0 else p.max)
  }

  function DriverCreateCount(p: Policy, target: U64, effective: I64, occupancy: I64): U64 {
    var served := if effective < 0 then U64_MAX else effective;
    var room := Saturate(p.max - occupancy);
    Min(SaturateUnsigned(target - served), if room < 0 then 0 else room)
  }

  /** For a valid policy the two targets agree on every demand, also on one
      too large for the signed form, which stores it clamped. */
  lemma TargetsAgree(p: Policy, demand: U64)
    requires ValidPolicy(p)
    ensures DriverTarget(p, demand) == Target(p, Min(demand, I64_MAX))
    ensures p.min <= DriverTarget(p, demand) <= p.max
  {
  }

  /** The two create counts agree exactly when the effective counter is
      non-negative or the Fleet is full. */
  lemma CreateCountsAgree(p: Policy, demand: U64, effective: I64, occupancy: I64)
    requires ValidPolicy(p)
    requires p.max - occupancy <= I64_MAX    // else the signed form overflows
    ensures var signed := CreateCount(p, Min(demand, I64_MAX), effective, occupancy);
            DriverCreateCount(p, DriverTarget(p, demand), effective, occupancy) == signed
            <==> effective >= 0 || occupancy >= p.max
  {
    TargetsAgree(p, demand);
  }

  /** One job, one runner allowed, none there, and a counter of -1. */
  lemma NegativeCounterDiffers(p: Policy, demand: U64, effective: I64)
    requires p.min == 0 && p.max == 1 && demand == 1 && effective == -1
    ensures CreateCount(p, demand, effective, 0) == 1
    ensures DriverCreateCount(p, DriverTarget(p, demand), effective, 0) == 0
  {
    assert Target(p, demand) == 1;
    assert DriverTarget(p, demand) == 1;
  }

  predicate Fits(n: int, target: int, max: int, effective: int, occupancy: int) {
    n == 0 || (effective + n <= target && occupancy + n <= max)
  }

  /** The create count is the greatest one that passes neither the target nor
      the maximum; a Fleet already past either creates nothing. */
  lemma CreatesExactlyWhatFits(p: Policy, target: U64, effective: I64, occupancy: I64, n: nat)
    requires ValidPolicy(p) && 0 <= effective && 0 <= occupancy && target <= p.max
    ensures var creates := DriverCreateCount(p, target, effective, occupancy);
            && Fits(creates, target, p.max, effective, occupancy)
            && (Fits(n, target, p.max, effective, occupancy) ==> n <= creates)
  {
  }

  // ---- Retirement selection ----

  const IDLE_DEADLINE_MS: int := 600_000

  /** What one retirement step came to. */
  datatype Outcome = Ended | Pending | Isolated | Failed

  /** What a pass did with one generation. */
  datatype Attempt = Skipped | Tried(outcome: Outcome)

  /** The fields of a generation row the selection reads. */
  datatype Candidate = Candidate(state: GenState, revision: nat, updatedAt: int)

  predicate Resumable(s: GenState) {
    s.CleanupRequired? || s.Retiring? || s.DestroyPending? || s.Destroying?
  }

  predicate Overdue(c: Candidate, revision: nat, now: int) {
    c.revision != revision || Elapsed(c.updatedAt, now) >= IDLE_DEADLINE_MS
  }

  predicate IdleRemoval(c: Candidate, revision: nat, now: int, budget: int) {
    c.state.Idle? && (budget > 0 || Overdue(c, revision, now))
  }

  predicate Selects(c: Candidate, revision: nat, now: int, budget: int) {
    Resumable(c.state) || IdleRemoval(c, revision, now, budget) || (c.state.WaitingOnline? && c.revision != revision)
  }

  function CountEffective(cs: seq<Candidate>): (n: nat)
    ensures n <= |cs|
  {
    if cs == [] then 0
    else CountEffective(cs[..|cs| - 1]) + if CountsEffective(cs[|cs| - 1].state) then 1 else 0
  }

  /** Idle generations among the first n whose retirement ended them. */
  function IdleEnded(cs: seq<Candidate>, attempts: seq<Attempt>, n: nat): nat
    requires n <= |cs| && n <= |attempts|
  {
    if n == 0 then 0
    else IdleEnded(cs, attempts, n - 1) + if cs[n - 1].state.Idle? && attempts[n - 1] == Tried(Ended) then 1 else 0
  }

  /** Those of them that nothing but the surplus could have selected. */
  function ProtectedEnded(cs: seq<Candidate>, attempts: seq<Attempt>, revision: nat, now: int, n: nat): nat
    requires n <= |cs| && n <= |attempts|
  {
    if n == 0 then 0
    else ProtectedEnded(cs, attempts, revision, now, n - 1) +
         if cs[n - 1].state.Idle? && !Overdue(cs[n - 1], revision, now) && attempts[n - 1] == Tried(Ended) then 1 else 0
  }

  function Surplus(cs: seq<Candidate>, target: U64): nat {
    Max(CountEffective(cs) - target, 0)
  }

  /** The i-th generation was tried exactly if what was left of the surplus
      selects it. */
  predicate RightlyTried(cs: seq<Candidate>, attempts: seq<Attempt>, surplus: nat, revision: nat, now: int, i: nat)
    requires i < |cs| && i < |attempts|
  {
    attempts[i].Tried? <==> Selects(cs[i], revision, now, surplus - IdleEnded(cs, attempts, i))
  }

  /** A pass selected exactly what the remaining surplus allowed, where the
      surplus shrinks only with an idle generation that was really destroyed. */
  ghost predicate SelectedBySurplus(cs: seq<Candidate>, attempts: seq<Attempt>, surplus: nat, revision: nat, now: int) {
    && |attempts| == |cs|
    && forall i :: 0 <= i < |cs| ==> RightlyTried(cs, attempts, surplus, revision, now, i)
  }

  lemma {:induction false} ProtectedWithinIdle(cs: seq<Candidate>, attempts: seq<Attempt>, surplus: nat, revision: nat,
                                               now: int, n: nat)
    requires SelectedBySurplus(cs, attempts, surplus, revision, now) && n <= |cs|
    ensures ProtectedEnded(cs, attempts, revision, now, n) <= surplus
    ensures ProtectedEnded(cs, attempts, revision, now, n) <= IdleEnded(cs, attempts, n)
  {
    if n > 0 {
      ProtectedWithinIdle(cs, attempts, surplus, revision, now, n - 1);
      var c := cs[n - 1];
      if c.state.Idle? && !Overdue(c, revision, now) && attempts[n - 1].Tried? {
        assert RightlyTried(cs, attempts, surplus, revision, now, n - 1);
        assert surplus - IdleEnded(cs, attempts, n - 1) > 0;
      }
    }
  }

  /** For every order of the generations and every mix of outcomes: the idle
      generations of the desired revision, inside their deadline, that a pass
      destroys are at most the surplus over the target. */
  lemma SurplusBoundsIdleRemoval(cs: seq<Candidate>, attempts: seq<Attempt>, target: U64, revision: nat, now: int)
    requires SelectedBySurplus(cs, attempts, Surplus(cs, target), revision, now)
    ensures ProtectedEnded(cs, attempts, revision, now, |cs|) <= Max(0, CountEffective(cs) - target)
  {
    ProtectedWithinIdle(cs, attempts, Surplus(cs, target), revision, now, |cs|);
  }

  /** Busy, quarantined and current pre-online generations are never selected,
      and a protected idle one is passed over only once the surplus is used up. */
  lemma NeverSelected(cs: seq<Candidate>, attempts: seq<Attempt>, surplus: nat, revision: nat, now: int, i: nat)
    requires SelectedBySurplus(cs, attempts, surplus, revision, now) && i < |cs|
    ensures cs[i].state in {Busy, Quarantined, Destroyed, CreatePending, Creating} ==> !attempts[i].Tried?
    ensures cs[i].state.WaitingOnline? && cs[i].revision == revision ==> !attempts[i].Tried?
    ensures cs[i].state.Idle? && !attempts[i].Tried? ==> IdleEnded(cs, attempts, i) >= surplus
  {
    assert RightlyTried(cs, attempts, surplus, revision, now, i);
  }

  /** Counting attempts instead of destructions would be wrong: with a surplus
      of one, two idle generations are selected when the first attempt waits. */
  lemma AttemptsMayExceedSurplus()
    ensures var cs := [Candidate(Idle, 1, 0), Candidate(Idle, 1, 0)];
            var attempts := [Tried(Pending), Tried(Ended)];
            Surplus(cs, 1) == 1 && SelectedBySurplus(cs, attempts, 1, 1, 0)
  {
    var cs := [Candidate(Idle, 1, 0), Candidate(Idle, 1, 0)];
    var attempts := [Tried(Pending), Tried(Ended)];
    assert cs[..1] == [cs[0]] && [cs[0]][..0] == [];
    assert CountEffective([cs[0]]) == 1;
    assert CountEffective(cs) == 2;
    assert IdleEnded(cs, attempts, 1) == 0;
  }
}
