/** The two destroy passes of a tick: hard expiry, and retirement of what the
    target no longer needs (gitlab_supervisor_destroy.rs, pool_driver.rs). */
module GitlabDestroy {
  import opened Int64
  import opened Wrappers
  import opened FleetWorld
  import opened SupervisorAccess
  import opened PoolRegistration
  import opened GitlabRetirement
  import opened PoolDriver

  /** Where a pass is: rows below i handled, the rest as in the snapshot. */
  ghost predicate PassAt(w0: World, w: World, i: nat) {
    && i <= |w0.gens| == |w.gens|
    && w.anchors == w0.anchors && w.head.tombstone == w0.head.tombstone && w.gate.held == w0.gate.held
    && w.anchorPosts == w0.anchorPosts
    && forall x :: i <= x < |w0.gens| ==> SameRow(w0.gens[x], w.gens[x])
  }

  lemma PassMoves(w0: World, w: World, w1: World, i: nat)
    requires PassAt(w0, w, i) && i < |w0.gens| && OnlyRow(w, w1, i)
    ensures PassAt(w0, w1, i + 1)
  {
    forall x | i + 1 <= x < |w0.gens| ensures SameRow(w0.gens[x], w1.gens[x]) {
      assert SameRow(w0.gens[x], w.gens[x]) && SameRow(w.gens[x], w1.gens[x]);
    }
  }

  function OutcomeOf(r: Reply<Outcome>): Outcome {
    if r.Ok? then r.value else Outcome.Failed
  }

  /** Retires what is resumable, what no longer belongs to the revision, what
      idled too long, and idle generations beyond the target. One generation's
      failure never ends the pass. */
  method DestroyExcess(s: Supervisor, cs: seq<Candidate>, target: U64, now: int)
    returns (r: Reply<nat>, attempts: seq<Attempt>)
    requires s.Valid() && s.w.gate.held.Free?
    requires |cs| == |s.w.gens| && forall i :: 0 <= i < |cs| ==> cs[i].state == s.w.gens[i].state
    modifies s
    ensures s.Valid() && s.Continues() && PassAt(old(s.w), s.w, |old(s.w).gens|)
    ensures r.Ok? ==> SelectedBySurplus(cs, attempts, Surplus(cs, target), s.guard.revision, now)
    ensures r.Ok? ==> r.value == AllEnded(attempts) && EndedAreDestroyed(s.w, attempts)
    ensures NoneSelected(cs, s.guard.revision, now, Surplus(cs, target)) ==>
              r == Ok(0) && s.w == old(s.w)
  {
    var surplus := Surplus(cs, target);
    var budget: nat, destroyed: nat := surplus, 0;
    attempts := [];
    while |attempts| < |cs|
      invariant s.Valid() && s.Continues() && |attempts| <= |cs| && PassAt(old(s.w), s.w, |attempts|)
      invariant Selecting(cs, attempts, surplus, s.guard.revision, now, budget)
      invariant destroyed == AllEnded(attempts) && EndedAreDestroyed(s.w, attempts)
      invariant NoneSelected(cs, s.guard.revision, now, surplus) ==>
                  budget == surplus && destroyed == 0 && s.w == old(s.w)
    {
      var i := |attempts|;
      var attempt := RetireNext(s, cs[i], i, budget, now, old(s.w), attempts);
      if attempt == None {
        return Crash, attempts;
      }
      SelectingMoves(cs, attempts, surplus, s.guard.revision, now, budget, attempt.value);
      AllEndedGrows(attempts, attempt.value);
      if attempt.value == Tried(Ended) {
        destroyed := destroyed + 1;
        budget := Max(budget - (if cs[i].state.Idle? then 1 else 0), 0);
      }
      attempts := attempts + [attempt.value];
    }
    r := Ok(destroyed);
  }

  /** Whatever is counted as destroyed is. */
  predicate EndedAreDestroyed(w: World, attempts: seq<Attempt>) {
    forall i :: 0 <= i < |attempts| && attempts[i] == Tried(Ended) ==> i < |w.gens| && w.gens[i].state.Destroyed?
  }

  lemma EndedStayDestroyed(w0: World, w1: World, attempts: seq<Attempt>, g: GenId)
    requires EndedAreDestroyed(w0, attempts) && OnlyRow(w0, w1, g) && |attempts| <= g
    ensures EndedAreDestroyed(w1, attempts)
  {
    forall i | 0 <= i < |attempts| && attempts[i] == Tried(Ended) ensures i < |w1.gens| && w1.gens[i].state.Destroyed? {
      assert SameRow(w0.gens[i], w1.gens[i]);
    }
  }

  predicate NoneSelected(cs: seq<Candidate>, revision: nat, now: int, budget: int) {
    forall i :: 0 <= i < |cs| ==> !Selects(cs[i], revision, now, budget)
  }

  function AllEnded(attempts: seq<Attempt>): nat {
    if attempts == [] then 0
    else AllEnded(attempts[..|attempts| - 1]) + if attempts[|attempts| - 1] == Tried(Ended) then 1 else 0
  }

  /** The state of the selection loop. */
  ghost predicate Selecting(cs: seq<Candidate>, attempts: seq<Attempt>, surplus: nat, revision: nat, now: int, budget: nat) {
    && |attempts| <= |cs|
    && budget == Max(surplus - IdleEnded(cs, attempts, |attempts|), 0)
    && forall i :: 0 <= i < |attempts| ==> RightlyTried(cs, attempts, surplus, revision, now, i)
  }

  lemma {:induction false} IdleEndedPrefix(cs: seq<Candidate>, attempts: seq<Attempt>, more: seq<Attempt>, n: nat)
    requires n <= |attempts| <= |cs| && attempts <= more
    ensures IdleEnded(cs, attempts, n) == IdleEnded(cs, more, n)
  {
    if n > 0 {
      IdleEndedPrefix(cs, attempts, more, n - 1);
    }
  }

  lemma SelectingMoves(cs: seq<Candidate>, attempts: seq<Attempt>, surplus: nat, revision: nat, now: int, budget: nat, a: Attempt)
    requires Selecting(cs, attempts, surplus, revision, now, budget) && |attempts| < |cs|
    requires a.Tried? <==> Selects(cs[|attempts|], revision, now, budget)
    ensures Selecting(cs, attempts + [a], surplus, revision, now,
                      if a == Tried(Ended) then Max(budget - (if cs[|attempts|].state.Idle? then 1 else 0), 0) else budget)
  {
    var n, more := |attempts|, attempts + [a];
    IdleEndedPrefix(cs, attempts, more, n);
    assert IdleEnded(cs, more, n + 1) ==
           IdleEnded(cs, attempts, n) + if cs[n].state.Idle? && a == Tried(Ended) then 1 else 0;
    forall i | 0 <= i < |more| ensures RightlyTried(cs, more, surplus, revision, now, i) {
      IdleEndedPrefix(cs, attempts, more, i);
      if i < n {
        assert RightlyTried(cs, attempts, surplus, revision, now, i);
      } else {
        OnlySignMatters(cs[n], revision, now, budget, surplus - IdleEnded(cs, attempts, n));
      }
    }
  }

  lemma OnlySignMatters(c: Candidate, revision: nat, now: int, a: int, b: int)
    requires a > 0 <==> b > 0
    ensures Selects(c, revision, now, a) <==> Selects(c, revision, now, b)
  {
  }

  /** The next row of a pass that started in w0. */
  method RetireNext(s: Supervisor, c: Candidate, g: GenId, budget: nat, now: int, ghost w0: World,
                    ghost attempts: seq<Attempt>)
    returns (a: Option<Attempt>)
    requires s.Valid() && s.w.gate.held.Free? && PassAt(w0, s.w, g) && g < |w0.gens| && c.state == w0.gens[g].state
    requires |attempts| == g && EndedAreDestroyed(s.w, attempts)
    modifies s
    ensures s.Valid() && s.Continues() && PassAt(w0, s.w, g + 1)
    ensures a.Some? ==> (a.value.Tried? <==> Selects(c, s.guard.revision, now, budget))
    ensures a.Some? ==> EndedAreDestroyed(s.w, attempts + [a.value])
    ensures !Selects(c, s.guard.revision, now, budget) ==> a == Some(Skipped) && s.w == old(s.w)
  {
    ghost var w1 := s.w;
    assert SameRow(w0.gens[g], w1.gens[g]);
    a := RetireIfSelected(s, c, g, budget, now);
    PassMoves(w0, w1, s.w, g);
    EndedStayDestroyed(w1, s.w, attempts, g);
  }

  /** `None` when the process ends here. */
  method RetireIfSelected(s: Supervisor, c: Candidate, g: GenId, budget: nat, now: int) returns (a: Option<Attempt>)
    requires s.Valid() && s.w.gate.held.Free? && g < |s.w.gens|
    requires c.state == s.w.gens[g].state || (c.state.Quarantined? && s.w.gens[g].state.Destroyed?)
    modifies s
    ensures s.Valid() && s.Continues() && OnlyRow(old(s.w), s.w, g)
    ensures a.Some? ==> (a.value.Tried? <==> Selects(c, s.guard.revision, now, budget))
    ensures a == Some(Tried(Ended)) ==> Concluded(s.w, g, Ended)
    ensures a == Some(Skipped) ==> s.w == old(s.w)
    ensures !Selects(c, s.guard.revision, now, budget) ==> a == Some(Skipped)
    ensures s.quiet && !old(s.w).gate.api ==> a.Some?
  {
    OnlyRowReflexive(s.w, g);
    if !Selects(c, s.guard.revision, now, budget) {
      return Some(Skipped);
    }
    var facts: Facts := *;
    var outcome := Retire(s, g, facts);
    if outcome.Crash? {
      return None;
    }
    return Some(Tried(OutcomeOf(outcome)));
  }

  /** Hard expiry of every due generation; each is tried, whatever became of
      the others, and the count is of those that ended. */
  method ExpireRunners(s: Supervisor) returns (r: Reply<nat>, ghost attempts: seq<Attempt>)
    requires s.Valid() && s.w.gate.held.Free?
    modifies s
    ensures s.Valid() && s.Continues() && PassAt(old(s.w), s.w, |old(s.w).gens|)
    ensures r.Ok? ==> |attempts| == |s.w.gens| && r.value == AllEnded(attempts) && EndedAreDestroyed(s.w, attempts)
    ensures NothingExpires(old(s.w)) ==> s.w == old(s.w) && (s.quiet ==> r == Ok(0))
  {
    attempts := [];
    var listed := s.ReadRows();
    if !listed.Ok? {
      return listed.PropagateFailure(), attempts;
    }
    var destroyed, g := 0, 0;
    var n := |s.w.gens|;
    while g < n
      invariant s.Valid() && s.Continues() && g <= n == |old(s.w).gens| && PassAt(old(s.w), s.w, g)
      invariant |attempts| == g && destroyed == AllEnded(attempts) && EndedAreDestroyed(s.w, attempts)
      invariant NothingExpires(old(s.w)) ==> destroyed == 0 && s.w == old(s.w)
    {
      var outcome := ExpireNext(s, g, old(s.w), attempts);
      if outcome.Crash? {
        return Crash, attempts;
      }
      AllEndedGrows(attempts, Tried(OutcomeOf(outcome)));
      destroyed := destroyed + if outcome == Ok(Ended) then 1 else 0;
      attempts := attempts + [Tried(OutcomeOf(outcome))];
      g := g + 1;
    }
    return Ok(destroyed), attempts;
  }

  lemma AllEndedGrows(attempts: seq<Attempt>, a: Attempt)
    ensures AllEnded(attempts + [a]) == AllEnded(attempts) + if a == Tried(Ended) then 1 else 0
  {
    assert (attempts + [a])[..|attempts|] == attempts;
  }

  /** The next row of an expiry pass that started in w0. */
  method ExpireNext(s: Supervisor, g: GenId, ghost w0: World, ghost attempts: seq<Attempt>) returns (r: Reply<Outcome>)
    requires s.Valid() && s.w.gate.held.Free? && PassAt(w0, s.w, g) && g < |w0.gens|
    requires |attempts| == g && EndedAreDestroyed(s.w, attempts)
    modifies s
    ensures s.Valid() && s.Continues() && PassAt(w0, s.w, g + 1)
    ensures !r.Crash? ==> EndedAreDestroyed(s.w, attempts + [Tried(OutcomeOf(r))])
    ensures NeverExpires(old(s.w).gens[g].state) ==> r == Ok(Pending) && s.w == old(s.w)
  {
    ghost var w1 := s.w;
    r := ExpireIfDue(s, g);
    PassMoves(w0, w1, s.w, g);
    EndedStayDestroyed(w1, s.w, attempts, g);
  }

  predicate NothingExpires(w: World) {
    forall g :: 0 <= g < |w.gens| ==> NeverExpires(w.gens[g].state)
  }

  method ExpireIfDue(s: Supervisor, g: GenId) returns (r: Reply<Outcome>)
    requires s.Valid() && s.w.gate.held.Free? && g < |s.w.gens|
    modifies s
    ensures s.Valid() && s.Continues() && OnlyRow(old(s.w), s.w, g)
    ensures r == Ok(Ended) ==> Concluded(s.w, g, Ended)
    ensures NeverExpires(old(s.w).gens[g].state) ==> r == Ok(Pending) && s.w == old(s.w)
  {
    OnlyRowReflexive(s.w, g);
    var overdue: bool := *;
    if NeverExpires(s.w.gens[g].state) || !(s.w.gens[g].expiring || (s.w.gens[g].result && overdue)) {
      return Ok(Pending);
    }
    var facts: Facts := *;
    r := Expire(s, g, facts);
  }
}
