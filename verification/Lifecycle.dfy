/** Runner generation lifecycle: states, the contract diagram and the two
    counting predicates (crates/shaula-core/src/lifecycle.rs). */
module Lifecycle {
  datatype GenState =
    | CreatePending
    | Creating
    | WaitingOnline
    | Idle
    | Busy
    | Retiring
    | DestroyPending
    | Destroying
    | CleanupRequired
    | Quarantined
    | Destroyed

  predicate CountsEffective(s: GenState) {
    s.CreatePending? || s.Creating? || s.WaitingOnline? || s.Idle? || s.Busy?
  }

  predicate CountsOccupancy(s: GenState) {
    s != Destroyed
  }

  predicate TransitionAllowed(from: GenState, to: GenState) {
    match from
    case CreatePending => to.Creating? || to.Quarantined?
    case Creating => to.WaitingOnline? || to.CleanupRequired? || to.Quarantined?
    case WaitingOnline => to.Idle? || to.CleanupRequired? || to.Quarantined?
    case Idle => to.Busy? || to.Retiring? || to.Quarantined?
    case Busy => to.Retiring? || to.Quarantined?
    case CleanupRequired => to.Retiring? || to.Quarantined?
    case Retiring => to.Retiring? || to.DestroyPending? || to.Quarantined?
    case DestroyPending => to.Destroying? || to.Quarantined?
    case Destroying => to.Destroyed? || to.DestroyPending? || to.Quarantined?
    case Quarantined => to.Destroyed?
    case Destroyed => false
  }

  /** A history of one generation in which every change is a legal transition
      (a step may also leave the state alone). */
  ghost predicate LegalHistory(h: seq<GenState>) {
    forall i :: 0 <= i < |h| - 1 ==> h[i + 1] == h[i] || TransitionAllowed(h[i], h[i + 1])
  }

  /** Once a generation stops counting toward effective capacity it never
      counts again, and once it releases occupancy it is released for good. */
  lemma {:induction false} EffectiveNeverReturns(h: seq<GenState>, i: nat, j: nat)
    requires LegalHistory(h) && i <= j < |h|
    ensures !CountsEffective(h[i]) ==> !CountsEffective(h[j])
    ensures !CountsOccupancy(h[i]) ==> h[j] == h[i]
    ensures CountsEffective(h[j]) ==> CountsOccupancy(h[i])
    decreases j - i
  {
    if i < j {
      EffectiveNeverReturns(h, i + 1, j);
    }
  }

  /** Quarantine is left only by the operator's finalization, which ends the
      generation; no other state follows it. */
  lemma {:induction false} QuarantineOnlyFinalizes(h: seq<GenState>, i: nat, j: nat)
    requires LegalHistory(h) && i <= j < |h| && h[i] == Quarantined
    ensures h[j] == Quarantined || h[j] == Destroyed
    decreases j - i
  {
    if i < j {
      if h[i + 1] == Quarantined {
        QuarantineOnlyFinalizes(h, i + 1, j);
      } else {
        EffectiveNeverReturns(h, i + 1, j);
      }
    }
  }
}
