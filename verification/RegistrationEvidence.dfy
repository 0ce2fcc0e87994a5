/** What an inventory proves about a registration whose reply was lost: by the
    marker at GitLab (gitlab_supervisor_registration.rs), by the name alone at
    Forgejo (forgejo_supervisor_registration.rs, shaula-forgejo uncertain.rs). */
module RegistrationEvidence {
  import opened Int64
  import opened Wrappers
  import opened FleetWorld
  import opened SupervisorAccess

  /** The entries carrying the generation's exact description. */
  function Named(view: seq<RunnerRef>, g: GenId): (named: seq<RunnerRef>)
    ensures forall r :: r in named <==> r in view && r.description == GenerationName(g)
  {
    if view == [] then []
    else
      var rest := Named(view[1..], g);
      if view[0].description == GenerationName(g) then [view[0]] + rest else rest
  }

  /** A faithful inventory without the name proves the registration absent. */
  lemma NothingNamedIsSettled(view: seq<RunnerRef>, w: World, g: GenId)
    requires Inv(w) && Faithful(view, w) && g < |w.gens| && Named(view, g) == []
    ensures Settled(w, g)
  {
    NothingNamedIsGone(view, w, g);
  }

  lemma NothingNamedIsGone(view: seq<RunnerRef>, w: World, g: GenId)
    requires Inv(w) && Faithful(view, w) && g < |w.gens| && Named(view, g) == []
    ensures Gone(w, g)
  {
    assert RowCoherent(w, g);
    NamedDecides(view, w, g);
  }

  /** An entry with the joint ownership evidence is the one that landed. */
  lemma OwnedEntryLanded(view: seq<RunnerRef>, w: World, g: GenId, r: RunnerRef)
    requires Inv(w) && Faithful(view, w) && r in view && r.IsOwnedGeneration(g)
    ensures g < |w.gens| && w.gens[g].landed == Some(r.id)
  {
    var i :| 0 <= i < |view| && view[i] == r;
    assert Shows(view[i], w.remote[view[i].id]);
  }

  /** What the inventory proves about a registration whose reply was lost. */
  datatype Evidence = Absent | Exactly(id: RunnerId) | Contradictory

  // ---- What the world holds under a generation's name ----

  ghost predicate NameTaken(w: World, g: GenId) {
    exists id :: id in w.remote && w.remote[id].description == GenerationName(g)
  }

  /** No other registration bears the name. */
  ghost predicate OnlyNamed(w: World, g: GenId, id: RunnerId) {
    forall x :: x in w.remote && w.remote[x].description == GenerationName(g) ==> x == id
  }

  /** The only registration of this name is the Fleet's own, with its tags. */
  ghost predicate SoleOwned(w: World, g: GenId, id: RunnerId) {
    && id in w.remote && OwnGeneration(w.remote[id], g) && w.remote[id].matching && id <= I64_MAX
    && OnlyNamed(w, g, id)
  }

  /** The only registration of this name, with the Fleet's labels. */
  ghost predicate SoleNamed(w: World, g: GenId, id: RunnerId) {
    && id in w.remote && w.remote[id].description == GenerationName(g) && w.remote[id].matching
    && OnlyNamed(w, g, id)
  }

  /** Exactly one of the three holds of any world. */
  ghost predicate TrueEvidence(w: World, g: GenId, e: Evidence) {
    match e
    case Absent => !NameTaken(w, g)
    case Exactly(id) => SoleOwned(w, g, id)
    case Contradictory => NameTaken(w, g) && forall id :: id in w.remote ==> !SoleOwned(w, g, id)
  }

  lemma {:induction false} SeveralNamedDiffer(view: seq<RunnerRef>, g: GenId)
    requires |Named(view, g)| > 1 && DistinctIds(view)
    ensures Named(view, g)[0].id != Named(view, g)[1].id
  {
    var rest := Named(view[1..], g);
    if view[0].description == GenerationName(g) {
      assert rest[0] in rest && rest[0] in view[1..];
    } else {
      SeveralNamedDiffer(view[1..], g);
    }
  }

  /** An entry under the name shows a registration of that name. */
  lemma NamedIsThere(view: seq<RunnerRef>, w: World, g: GenId, r: RunnerRef)
    requires Faithful(view, w) && NothingHidden(view) && r in Named(view, g)
    ensures r.id in w.remote && w.remote[r.id].description == GenerationName(g)
    ensures r.IsOwnedGeneration(g) <==> OwnGeneration(w.remote[r.id], g)
    ensures r.matching == w.remote[r.id].matching
  {
    var i :| 0 <= i < |view| && view[i] == r;
    assert Shows(view[i], w.remote[view[i].id]);
  }

  /** Every registration of the name has its entry. */
  lemma ThereIsNamed(view: seq<RunnerRef>, w: World, g: GenId, id: RunnerId)
    requires Faithful(view, w) && id in w.remote && w.remote[id].description == GenerationName(g)
    ensures exists r :: r in Named(view, g) && r.id == id
  {
    assert id in w.remote.Keys;
    var i :| 0 <= i < |view| && view[i].id == id;
    assert Shows(view[i], w.remote[view[i].id]);
    assert view[i] in Named(view, g);
  }

  predicate SoleCandidate(named: seq<RunnerRef>, g: GenId) {
    |named| == 1 && named[0].IsOwnedGeneration(g) && named[0].matching && named[0].id <= I64_MAX
  }

  /** Read in full, the inventory decides which of the three it is. */
  lemma InventoryDecides(view: seq<RunnerRef>, w: World, g: GenId)
    requires Faithful(view, w) && NothingHidden(view)
    ensures var named := Named(view, g);
            TrueEvidence(w, g, if named == [] then Absent
                               else if SoleCandidate(named, g) then Exactly(named[0].id) else Contradictory)
  {
    var named := Named(view, g);
    if |named| > 1 {
      SeveralAreContradictory(view, w, g);
    } else if |named| == 1 {
      SoleIsDecided(view, w, g);
    } else {
      forall id | id in w.remote ensures w.remote[id].description != GenerationName(g) {
        if w.remote[id].description == GenerationName(g) {
          ThereIsNamed(view, w, g, id);
        }
      }
    }
  }

  lemma SoleIsDecided(view: seq<RunnerRef>, w: World, g: GenId)
    requires Faithful(view, w) && NothingHidden(view) && |Named(view, g)| == 1
    ensures var named := Named(view, g);
            TrueEvidence(w, g, if SoleCandidate(named, g) then Exactly(named[0].id) else Contradictory)
  {
    var x := Named(view, g)[0];
    NamedIsThere(view, w, g, x);
    OneNameOnly(view, w, g);
  }

  lemma SeveralAreContradictory(view: seq<RunnerRef>, w: World, g: GenId)
    requires Faithful(view, w) && NothingHidden(view) && |Named(view, g)| > 1
    ensures TrueEvidence(w, g, Contradictory)
  {
    var named := Named(view, g);
    NamedIsThere(view, w, g, named[0]);
    NamedIsThere(view, w, g, named[1]);
    SeveralNamedDiffer(view, g);
  }

  /** The inventory that a lost reply is classified by shows nothing of the
      name; `None` is an inventory that could not be read. */
  ghost predicate SawNothing(inventory: Option<World>, g: GenId) {
    inventory.Some? && !NameTaken(inventory.value, g)
  }

  /** The inventory was taken meanwhile, and absence is its and only its word. */
  ghost predicate InventorySays(w0: World, w1: World, g: GenId, inventory: Option<World>, r: Reply<Evidence>) {
    && (inventory.Some? ==> Inv(inventory.value) && Rely(w0, inventory.value) && Rely(inventory.value, w1))
    && (r.Ok? ==> (r.value.Absent? <==> SawNothing(inventory, g)))
  }

  lemma NamedDecides(view: seq<RunnerRef>, w: World, g: GenId)
    requires Faithful(view, w)
    ensures Named(view, g) == [] <==> !NameTaken(w, g)
  {
    if Named(view, g) != [] {
      var x := Named(view, g)[0];
      assert x in Named(view, g);
      var i :| 0 <= i < |view| && view[i] == x;
      assert Shows(view[i], w.remote[view[i].id]);
    } else {
      forall id | id in w.remote ensures w.remote[id].description != GenerationName(g) {
        if w.remote[id].description == GenerationName(g) {
          ThereIsNamed(view, w, g, id);
        }
      }
    }
  }

  /** One inventory and the joint evidence of name and marker. */
  method FindRegistration(s: Supervisor, g: GenId)
    returns (r: Reply<Evidence>, ghost inventory: Option<World>)
    requires s.Valid() && g < |s.w.gens|
    modifies s
    ensures s.Valid() && s.Continues() && OnlyRow(old(s.w), s.w, g)
    ensures SameRow(old(s.w).gens[g], s.w.gens[g])
    ensures r == Ok(Absent) ==> Settled(s.w, g)
    ensures r.Ok? && r.value.Exactly? ==> s.w.gens[g].landed == Some(r.value.id)
    ensures InventorySays(old(s.w), s.w, g, inventory, r)
    ensures s.quiet ==> s.w == old(s.w) && r.Ok? && TrueEvidence(s.w, g, r.value)
  {
    var listed, at := s.ListRunners();
    assert SameRow(at.gens[g], s.w.gens[g]);
    if listed.Crash? {
      return Crash, None;
    }
    if listed.Err? {
      return Ok(Contradictory), None;
    }
    inventory := Some(at);
    NamedDecides(listed.value, at, g);
    var named := Named(listed.value, g);
    if s.quiet {
      InventoryDecides(listed.value, at, g);
    }
    if |named| == 0 {
      NothingNamedIsSettled(listed.value, at, g);
      SettledStable(at, s.w, g);
      return Ok(Absent), inventory;
    }
    if SoleCandidate(named, g) {
      assert named[0] in named;
      OwnedEntryLanded(listed.value, at, g, named[0]);
      return Ok(Exactly(named[0].id)), inventory;
    }
    return Ok(Contradictory), inventory;
  }

  // ---- Forgejo ----

  /** Candidates also declare the Fleet's labels; before that a runner of the
      right name is not absence but no candidate either. */
  function Candidates(view: seq<RunnerRef>, g: GenId): (candidates: seq<RunnerRef>)
    ensures forall r :: r in candidates <==> r in view && r.description == GenerationName(g) && r.matching
  {
    if view == [] then []
    else
      var rest := Candidates(view[1..], g);
      if view[0].description == GenerationName(g) && view[0].matching then [view[0]] + rest else rest
  }

  /** Nobody else bears a generation's name, so an entry with it is the one
      that landed. */
  lemma NamedEntryLanded(view: seq<RunnerRef>, w: World, g: GenId, r: RunnerRef)
    requires Inv(w) && w.provider.ForgejoPool? && Faithful(view, w) && r in view && r.description == GenerationName(g)
    ensures g < |w.gens| && w.gens[g].landed == Some(r.id)
  {
    var i :| 0 <= i < |view| && view[i] == r;
    assert Shows(view[i], w.remote[view[i].id]);
  }

  /** The first reading's verdict over the runners of this name. */
  predicate OneQuietCandidate(named: seq<RunnerRef>) {
    |named| == 1 && named[0].matching && named[0].IsKnown() && !named[0].IsActive()
  }

  /** The first reading: what the inventory lists under the name. */
  method ListNamed(s: Supervisor, g: GenId) returns (r: Reply<seq<RunnerRef>>, ghost at: World)
    requires s.Valid() && g < |s.w.gens|
    modifies s
    ensures s.Valid() && s.Continues() && OnlyRow(old(s.w), s.w, g)
    ensures SameRow(old(s.w).gens[g], s.w.gens[g])
    ensures Inv(at) && Rely(old(s.w), at) && Rely(at, s.w)
    ensures r.Ok? ==> (r.value == [] <==> !NameTaken(at, g))
    ensures r == Ok([]) ==> Settled(s.w, g)
    ensures r.Ok? && |r.value| == 1 ==> OnlyNamed(at, g, r.value[0].id)
    ensures s.quiet ==> s.w == old(s.w) == at && r.Ok?
  {
    var listed;
    listed, at := s.ListRunners();
    assert SameRow(at.gens[g], s.w.gens[g]);
    if !listed.Ok? {
      return listed.PropagateFailure(), at;
    }
    NamedDecides(listed.value, at, g);
    var named := Named(listed.value, g);
    if named == [] {
      NothingNamedIsSettled(listed.value, at, g);
      SettledStable(at, s.w, g);
    } else if |named| == 1 {
      OneNameOnly(listed.value, at, g);
    }
    r := Ok(named);
  }

  /** Two inventories: one to classify, one to find the candidate. */
  method FindCandidate(s: Supervisor, g: GenId)
    returns (r: Reply<Evidence>, ghost inventory: Option<World>)
    requires s.Valid() && s.provider.ForgejoPool? && g < |s.w.gens|
    modifies s
    ensures s.Valid() && s.Continues() && OnlyRow(old(s.w), s.w, g)
    ensures SameRow(old(s.w).gens[g], s.w.gens[g])
    ensures r == Ok(Absent) ==> Settled(s.w, g)
    ensures r.Ok? && r.value.Exactly? ==> s.w.gens[g].landed == Some(r.value.id)
    ensures InventorySays(old(s.w), s.w, g, inventory, r)
    ensures s.quiet ==> s.w == old(s.w) && r.Ok? && (r.value.Absent? <==> !NameTaken(s.w, g))
    ensures s.quiet && r.value.Exactly? ==> SoleNamed(s.w, g, r.value.id)
  {
    var named, at := ListNamed(s, g);
    if named.Crash? {
      return Crash, None;
    }
    if named.Err? {
      return Ok(Contradictory), None;
    }
    inventory := Some(at);
    if named.value == [] {
      return Ok(Absent), inventory;
    }
    if !OneQuietCandidate(named.value) {
      return Ok(Contradictory), inventory;
    }
    ghost var w1 := s.w;
    r := ConfirmCandidate(s, g);
    OnlyRowTransitive(old(s.w), w1, s.w, g);
    RelyTransitive(at, w1, s.w);
  }

  /** The only registration of the name is the one candidate. */
  lemma SoleIsCandidate(view: seq<RunnerRef>, w: World, g: GenId)
    requires Faithful(view, w) && NothingHidden(view)
    ensures forall id: RunnerId :: SoleNamed(w, g, id) ==>
              |Candidates(view, g)| == 1 && Candidates(view, g)[0].id == id
  {
    forall id: RunnerId | SoleNamed(w, g, id) ensures |Candidates(view, g)| == 1 && Candidates(view, g)[0].id == id {
      ThereIsNamed(view, w, g, id);
      var x :| x in Named(view, g) && x.id == id;
      if |Named(view, g)| > 1 {
        NamedIsThere(view, w, g, Named(view, g)[0]);
        NamedIsThere(view, w, g, Named(view, g)[1]);
        SeveralNamedDiffer(view, g);
      }
      NamedIsThere(view, w, g, x);
      SoleNamedIsCandidate(view, g);
    }
  }

  lemma {:induction false} SoleNamedIsCandidate(view: seq<RunnerRef>, g: GenId)
    requires |Named(view, g)| == 1 && Named(view, g)[0].matching
    ensures Candidates(view, g) == Named(view, g)
  {
    if view[0].description == GenerationName(g) {
      NoNameNoCandidate(view[1..], g);
    } else {
      SoleNamedIsCandidate(view[1..], g);
    }
  }

  lemma {:induction false} NoNameNoCandidate(view: seq<RunnerRef>, g: GenId)
    requires Named(view, g) == []
    ensures Candidates(view, g) == []
  {
    if view != [] {
      assert view[0].description != GenerationName(g);
      NoNameNoCandidate(view[1..], g);
    }
  }

  /** One entry of the name, one registration of the name. */
  lemma OneNameOnly(view: seq<RunnerRef>, w: World, g: GenId)
    requires Faithful(view, w) && |Named(view, g)| == 1
    ensures OnlyNamed(w, g, Named(view, g)[0].id)
  {
    var only := Named(view, g)[0];
    forall x | x in w.remote && w.remote[x].description == GenerationName(g) ensures x == only.id {
      ThereIsNamed(view, w, g, x);
    }
  }

  method ConfirmCandidate(s: Supervisor, g: GenId) returns (r: Reply<Evidence>)
    requires s.Valid() && s.provider.ForgejoPool? && g < |s.w.gens|
    modifies s
    ensures Rely(old(s.w), s.w)
    ensures s.Valid() && s.Continues() && OnlyRow(old(s.w), s.w, g)
    ensures SameRow(old(s.w).gens[g], s.w.gens[g])
    ensures r.Ok? ==> !r.value.Absent?
    ensures r.Ok? && r.value.Exactly? ==> s.w.gens[g].landed == Some(r.value.id)
    ensures s.quiet ==> s.w == old(s.w) && r.Ok?
    ensures forall id: RunnerId :: s.quiet && SoleNamed(s.w, g, id) && id <= I64_MAX ==> r == Ok(Exactly(id))
    ensures s.quiet && r.value.Exactly? ==>
              r.value.id in s.w.remote && s.w.remote[r.value.id].description == GenerationName(g) && s.w.remote[r.value.id].matching
  {
    var listed, at := s.ListRunners();
    assert SameRow(at.gens[g], s.w.gens[g]);
    if listed.Crash? {
      return Crash;
    }
    if listed.Err? {
      return Ok(Contradictory);
    }
    var candidates := Candidates(listed.value, g);
    if s.quiet {
      SoleIsCandidate(listed.value, at, g);
    }
    if |candidates| == 1 && candidates[0].id <= I64_MAX {
      assert candidates[0] in candidates;
      NamedEntryLanded(listed.value, at, g, candidates[0]);
      if s.quiet {
        assert candidates[0] in Named(listed.value, g);
        NamedIsThere(listed.value, at, g, candidates[0]);
      }
      return Ok(Exactly(candidates[0].id));
    }
    return Ok(Contradictory);
  }

  method Find(s: Supervisor, g: GenId) returns (r: Reply<Evidence>, ghost inventory: Option<World>)
    requires s.Valid() && g < |s.w.gens|
    modifies s
    ensures s.Valid() && s.Continues() && OnlyRow(old(s.w), s.w, g)
    ensures SameRow(old(s.w).gens[g], s.w.gens[g])
    ensures r == Ok(Absent) ==> Settled(s.w, g)
    ensures r.Ok? && r.value.Exactly? ==> s.w.gens[g].landed == Some(r.value.id)
    ensures InventorySays(old(s.w), s.w, g, inventory, r)
    ensures s.quiet ==> s.w == old(s.w) && r.Ok? && (r.value.Absent? <==> !NameTaken(s.w, g))
    ensures s.quiet && s.provider.GitlabPool? ==> TrueEvidence(s.w, g, r.value)
  {
    match s.provider
    case GitlabPool => r, inventory := FindRegistration(s, g);
    case ForgejoPool => r, inventory := FindCandidate(s, g);
  }
}
