/** Why destroy admission is safe to repeat: chains of admitted destroys, each
    possibly cut short, never reach outside the original state and never lose
    sight of a live resource (plan_admit.rs over operation retries). */
module DestroyChains {
  import opened Plan
  import opened PlanAdmit

  /** The addresses whose resource exists, and the addresses the state binds. */
  datatype Resources = Resources(live: set<string>, state: seq<string>)

  /** One destroy: its plan, and the deletions the apply got to. */
  datatype Round = Round(plan: PlanShape, applied: set<string>)

  /** Refresh drops an address only when its resource is gone. */
  ghost predicate RefreshedTruthfully(r: Resources, plan: PlanShape) {
    forall a :: a in r.state && a in r.live ==> !RefreshedAway(plan, a)
  }

  /** The apply deletes planned addresses only, as many as it gets to, and
      takes them and the refreshed-away ones off the state. Resources may also
      vanish by themselves. */
  ghost predicate Happens(before: Resources, round: Round, after: Resources, shape: seq<Role>) {
    var planned := ManagedAddressesOf(round.plan.instances);
    && DestroyAdmissible(round.plan, before.state, shape)
    && RefreshedTruthfully(before, round.plan)
    && (forall a :: a in round.applied ==> a in planned)
    && (forall a :: a in after.live ==> a in before.live && a !in round.applied)
    && (forall a :: a in after.state ==> a in before.state)
    && (forall a :: a in before.state ==> a in after.state || a in round.applied || RefreshedAway(round.plan, a))
  }

  ghost predicate Chain(at: seq<Resources>, rounds: seq<Round>, shape: seq<Role>) {
    && |at| == |rounds| + 1
    && forall i :: 0 <= i < |rounds| ==> Happens(at[i], rounds[i], at[i + 1], shape)
  }

  /** Over any chain, nothing outside the original state is deleted, and every
      original resource that is still live is still bound, so the next destroy
      can reach it. */
  lemma {:induction false} ChainLosesNothing(at: seq<Resources>, rounds: seq<Round>, shape: seq<Role>, n: nat)
    requires Chain(at, rounds, shape) && n <= |rounds|
    ensures forall i, a :: 0 <= i < n && a in rounds[i].applied ==> a in at[0].state
    ensures forall a :: a in at[n].state ==> a in at[0].state
    ensures forall a :: a in at[0].state && a in at[n].live ==> a in at[n].state
  {
    if n > 0 {
      ChainLosesNothing(at, rounds, shape, n - 1);
      assert Happens(at[n - 1], rounds[n - 1], at[n], shape);
    }
  }

  /** Live addresses only ever disappear, and each deletion is of something
      that was bound when it was planned. */
  lemma {:induction false} ChainOnlyShrinks(at: seq<Resources>, rounds: seq<Round>, shape: seq<Role>, m: nat, n: nat)
    requires Chain(at, rounds, shape) && m <= n <= |rounds|
    ensures at[n].live <= at[m].live
    ensures forall i, a :: m <= i < n && a in rounds[i].applied ==> a !in at[n].live
    decreases n - m
  {
    if m < n {
      ChainOnlyShrinks(at, rounds, shape, m, n - 1);
      assert Happens(at[n - 1], rounds[n - 1], at[n], shape);
    }
  }

  /** A destroy whose apply completes leaves none of the original resources
      live: a chain that ends in one has destroyed everything. */
  lemma CompleteApplyEndsAll(at: seq<Resources>, rounds: seq<Round>, shape: seq<Role>)
    requires Chain(at, rounds, shape) && rounds != []
    requires var last := rounds[|rounds| - 1];
             forall a :: a in ManagedAddressesOf(last.plan.instances) ==> a in last.applied
    ensures forall a :: a in at[0].state ==> a !in at[|rounds|].live
  {
    var n := |rounds| - 1;
    ChainLosesNothing(at, rounds, shape, n);
    assert Happens(at[n], rounds[n], at[n + 1], shape);
    forall a | a in at[0].state ensures a !in at[n + 1].live {
      if a in at[n].live {
        assert a in at[n].state && !RefreshedAway(rounds[n].plan, a);
      }
    }
  }
}
