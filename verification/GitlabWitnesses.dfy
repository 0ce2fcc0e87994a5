/** Two things the code does that one would not expect, shown by its own calls
    in a calm world, with everybody else's moves put in between. */
module GitlabWitnesses {
  import opened Wrappers
  import opened FleetWorld
  import opened FleetSafety
  import opened SupervisorAccess
  import opened PoolRegistration
  import opened GitlabReadiness
  import opened GitlabAnchors
  import opened GitlabGeneration
  import opened GitlabDestroy

  /** The beginning of a pass, in its order, with the deletion commit after the
      head was read: the pass still believes the Fleet is not being deleted and
      registers an anchor for it. At world n deletion has committed and no
      anchor was ever registered. */
  method AnchorAfterDeletion() returns (s: Supervisor, ghost n: nat)
    ensures s.Valid() && n <= |s.run.steps|
    ensures DeletionCommitted in s.run.worlds[n].log && s.run.worlds[n].anchorPosts == 0
    ensures s.w.anchorPosts == 1
  {
    s := new Supervisor(GitlabPool, 1, true);
    var head := s.CurrentHead();
    var _, _ := ExpireRunners(s);
    DeletionCommits(s);
    n := |s.run.steps|;
    ghost var committed := s.run;
    GoOn(s, head.value.value.deleting);
    RunPasses(s.firstLimit, committed, s.run);
  }

  function AfterDeletion(h: Head): Head {
    Head(h.revision + 1, h.fence + 1, true, h.tombstone)
  }

  /** A Fleet DELETE, from taking the gate to leaving it. */
  method DeletionCommits(s: Supervisor)
    requires s.Valid() && GateIdle(s.w) && s.w.gate.held.Free?
    modifies s
    ensures s.Valid() && s.Continues() && s.quiet == old(s.quiet)
    ensures s.w == old(s.w).(head := AfterDeletion(old(s.w).head), log := old(s.w).log + [DeletionCommitted])
  {
    s.Take(ApiLock);
    CommitsUnderLock(s);
    ghost var committed := s.w;
    s.Take(ApiUnlock);
    assert s.w == committed.(gate := Gate(Free, 0, false));
  }

  method CommitsUnderLock(s: Supervisor)
    requires s.Valid() && s.w.gate == Gate(Free, 0, true)
    modifies s
    ensures s.Valid() && s.Continues() && s.quiet == old(s.quiet)
    ensures s.w == old(s.w).(head := AfterDeletion(old(s.w).head), log := old(s.w).log + [DeletionCommitted])
  {
    s.Take(CommitDeletion);
  }

  /** The pass goes on with its inventory and the head it has read. */
  method GoOn(s: Supervisor, deleting: bool)
    requires s.Valid() && s.calm && s.quiet && s.w.gate == Gate(Free, 0, false) && s.w.remote == map[] && !s.w.head.tombstone
    modifies s
    ensures s.Valid() && s.Continues()
    ensures !deleting ==> s.w.anchorPosts == old(s.w).anchorPosts + 1
  {
    var listed, at := s.ListRunners();
    FaithfulIsListed(listed.value, at, s.w);
    var anchor := ReconcileAnchors(s, listed.value, deleting);
  }

  /** The process dies with the reply to its registration request, somebody
      removes the registration, and the next process recovers: nothing bears
      the name any more, and the row goes to cleanup without the id. */
  method LandedUnrecorded() returns (s: Supervisor)
    ensures s.Valid() && |s.w.gens| == 1
    ensures s.w.gens[0].landed.Some? && LeftUnrecorded(s.w.gens[0]) && !s.w.gens[0].everQuarantined
  {
    var id;
    s, id := DiesWithReply();
    s.Take(Vanish(id));
    var recovered, inventory := RecoverCreate(s, 0);
    s.Safety();
    assert RowCoherent(s.w, 0);
  }

  method DiesWithReply() returns (s: Supervisor, id: RunnerId)
    ensures fresh(s) && s.Valid() && s.calm && s.quiet && |s.w.gens| == 1
    ensures s.w.gens[0].state.Creating? && Unanswered(s.w.gens[0]) && s.w.gens[0].landed == Some(id)
    ensures s.w.remote == map[id := SentAs(0)]
  {
    s := new Supervisor(GitlabPool, 1, true);
    assert Occupancy(s.w.gens) == 0;
    var admitted := AdmitGeneration(s, Answers(true, true, true, true, true, true));
    var claim := s.AcquireClaim();
    var head := s.CurrentHead();
    var reply := IntendAndRegister(s, 0);
    s.ReleaseGate();
    id := reply.value.id;
  }
}
