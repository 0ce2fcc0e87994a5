/** The Fleet-owned paused anchor: converging to exactly one
    (gitlab_supervisor_anchor.rs). */
module GitlabAnchors {
  import opened Int64
  import opened Wrappers
  import opened FleetWorld
  import opened SupervisorAccess

  /** i64::try_from(id).ok() */
  function Recorded(id: RunnerId): Option<RunnerId> {
    if id <= I64_MAX then Some(id) else None
  }

  /** What every anchor operation leaves alone. */
  ghost predicate AnchorFrame(w0: World, w1: World) {
    && |w1.gens| == |w0.gens|
    && (forall g :: 0 <= g < |w0.gens| ==> SameRow(w0.gens[g], w1.gens[g]))
    && w1.head.tombstone == w0.head.tombstone
  }

  lemma AnchorFrameTransitive(a: World, b: World, c: World)
    requires AnchorFrame(a, b) && AnchorFrame(b, c)
    ensures AnchorFrame(a, c)
  {
    forall g | 0 <= g < |a.gens| ensures SameRow(a.gens[g], c.gens[g]) {
      assert SameRow(a.gens[g], b.gens[g]) && SameRow(b.gens[g], c.gens[g]);
    }
  }

  lemma FrameOfRely(w0: World, w1: World)
    requires Rely(w0, w1)
    ensures AnchorFrame(w0, w1)
  {
  }

  /** No generation ever landed under this id. */
  ghost predicate NeverLanded(w: World, id: RunnerId) {
    forall g :: 0 <= g < |w.gens| ==> w.gens[g].landed != Some(id)
  }

  /** Every entry is one no generation landed. */
  ghost predicate NoneLanded(view: seq<RunnerRef>, w: World) {
    forall x :: x in view ==> NeverLanded(w, x.id)
  }

  lemma NeverLandedStays(w0: World, w1: World, id: RunnerId)
    requires AnchorFrame(w0, w1) && NeverLanded(w0, id)
    ensures NeverLanded(w1, id)
  {
    forall g | 0 <= g < |w1.gens| ensures w1.gens[g].landed != Some(id) {
      assert SameRow(w0.gens[g], w1.gens[g]);
    }
  }

  lemma NoneLandedStays(view: seq<RunnerRef>, w0: World, w1: World)
    requires AnchorFrame(w0, w1) && NoneLanded(view, w0)
    ensures NoneLanded(view, w1)
  {
    forall x | x in view ensures NeverLanded(w1, x.id) {
      NeverLandedStays(w0, w1, x.id);
    }
  }

  /** A live anchor is no generation's registration. */
  lemma AnchorNeverLanded(w: World, id: RunnerId)
    requires Inv(w) && LiveAnchor(w, id)
    ensures NeverLanded(w, id)
  {
    forall g | 0 <= g < |w.gens| ensures w.gens[g].landed != Some(id) {
      assert RowCoherent(w, g);
    }
  }

  predicate LiveAnchor(w: World, id: RunnerId) {
    id in w.remote && OwnAnchor(w.remote[id])
  }

  /** Paused and with the Fleet's tags, as it was registered. */
  predicate SoundAnchor(w: World, id: RunnerId) {
    id in w.remote && w.remote[id].matching && w.remote[id].paused
  }

  /** Every live anchor of w1 was one of w0. */
  ghost predicate AnchorsShrink(w0: World, w1: World) {
    forall id :: LiveAnchor(w1, id) ==>
      LiveAnchor(w0, id) && w0.remote[id].description == w1.remote[id].description
  }

  lemma AnchorsShrinkTransitive(a: World, b: World, c: World)
    requires AnchorsShrink(a, b) && AnchorsShrink(b, c)
    ensures AnchorsShrink(a, c)
  {
  }

  /** An entry of the inventory shows this registration. */
  ghost predicate Entry(view: seq<RunnerRef>, id: RunnerId, d: Description) {
    exists x :: x in view && x.id == id && x.description == d
  }

  /** A live anchor is the kept one, or its name is retained, or the entries
      still to be handled show it. */
  ghost predicate Covered(w: World, keep: Option<RunnerId>, retained: set<Description>, rest: seq<RunnerRef>) {
    forall id :: LiveAnchor(w, id) ==>
      keep == Some(id) || w.remote[id].description in retained || Entry(rest, id, w.remote[id].description)
  }

  predicate AnchorNamed(d: Description) {
    d.AnchorName? || (d.OtherName? && "anchor-r" <= d.text)
  }

  predicate HiddenAnchor(view: seq<RunnerRef>) {
    exists x <- view :: x.OwnershipHidden() && AnchorNamed(x.description)
  }

  function AnchorsIn(view: seq<RunnerRef>): (anchors: seq<RunnerRef>)
    ensures forall x :: x in anchors <==> x in view && x.IsAnchor()
  {
    if view == [] then []
    else (if view[0].IsAnchor() then [view[0]] else []) + AnchorsIn(view[1..])
  }

  function NamedFor(anchors: seq<RunnerRef>, revision: Revision): (named: seq<RunnerRef>)
    ensures forall x :: x in named <==> x in anchors && x.description == AnchorName(revision)
    ensures |named| <= |anchors|
  {
    if anchors == [] then []
    else (if anchors[0].description == AnchorName(revision) then [anchors[0]] else []) + NamedFor(anchors[1..], revision)
  }

  predicate Evident(x: RunnerRef) {
    x.IsAnchor() || x.OwnershipHidden()
  }

  /** Every live anchor appears once in the inventory, with its note or hidden. */
  ghost predicate Listed(view: seq<RunnerRef>, w: World) {
    && DistinctIds(view)
    && NoneLanded(AnchorsIn(view), w)
    && forall id :: LiveAnchor(w, id) ==> EvidentEntry(view, id, w.remote[id].description)
  }

  ghost predicate EvidentEntry(view: seq<RunnerRef>, id: RunnerId, d: Description) {
    exists x :: x in view && x.id == id && x.description == d && Evident(x)
  }

  lemma FaithfulIsListed(view: seq<RunnerRef>, at: World, w: World)
    requires Inv(at) && Faithful(view, at) && Rely(at, w)
    ensures Listed(view, w)
  {
    forall x | x in AnchorsIn(view) ensures NeverLanded(w, x.id) {
      AnchorEntryIsLive(view, at, x);
      AnchorNeverLanded(at, x.id);
      NeverLandedStays(at, w, x.id);
    }
    forall id | LiveAnchor(w, id) ensures EvidentEntry(view, id, w.remote[id].description) {
      assert id in at.remote.Keys;
      var i :| 0 <= i < |view| && view[i].id == id;
      assert view[i] in view && Shows(view[i], at.remote[id]);
      assert Evident(view[i]);
    }
  }

  lemma ListedStays(view: seq<RunnerRef>, w0: World, w1: World)
    requires Listed(view, w0) && AnchorsShrink(w0, w1) && AnchorFrame(w0, w1)
    ensures Listed(view, w1)
  {
    NoneLandedStays(AnchorsIn(view), w0, w1);
    forall id | LiveAnchor(w1, id) ensures EvidentEntry(view, id, w1.remote[id].description) {
      assert LiveAnchor(w0, id);
    }
  }

  /** The entry a choice rests on is the only one with its id. */
  lemma ListedKeepIsCurrent(view: seq<RunnerRef>, w: World, revision: Revision, id: RunnerId)
    requires Listed(view, w) && Entry(AnchorsIn(view), id, AnchorName(revision))
    ensures KeepIsCurrent(w, Some(id), revision)
  {
    if LiveAnchor(w, id) {
      var x :| x in AnchorsIn(view) && x.id == id && x.description == AnchorName(revision);
      assert EvidentEntry(view, id, w.remote[id].description);
      var y :| y in view && y.id == id && y.description == w.remote[id].description && Evident(y);
      assert x in view;
    }
  }

  /** Unless an anchor-named note is hidden, the entries recognised as
      anchors show every live one. */
  lemma ListedIsCovered(view: seq<RunnerRef>, w: World)
    requires Inv(w) && Listed(view, w) && !HiddenAnchor(view)
    ensures Covered(w, None, {}, AnchorsIn(view))
  {
    forall id | LiveAnchor(w, id) ensures Entry(AnchorsIn(view), id, w.remote[id].description) {
      assert EvidentEntry(view, id, w.remote[id].description);
      var x :| x in view && x.id == id && x.description == w.remote[id].description && Evident(x);
      assert x in AnchorsIn(view);
    }
  }

  /** Exactly one anchor, for this revision, recorded as Active. */
  ghost predicate AnchorsSettled(w: World, revision: Revision, id: RunnerId) {
    && LiveAnchor(w, id) && w.remote[id].description == AnchorName(revision)
    && w.anchors == map[revision := AnchorRow(Recorded(id), true)]
  }

  /** Nothing is hidden and the inventory is the present one. */
  ghost predicate CleanView(view: seq<RunnerRef>, w: World) {
    Faithful(view, w) && (forall x :: x in view ==> !x.OwnershipHidden())
  }

  lemma {:induction false} AnchorsAreDistinct(view: seq<RunnerRef>)
    requires DistinctIds(view)
    ensures DistinctIds(AnchorsIn(view))
  {
    if view != [] {
      assert view == [view[0]] + view[1..];
      AnchorsAreDistinct(view[1..]);
      var rest := AnchorsIn(view[1..]);
      forall j | 0 <= j < |rest| ensures rest[j].id != view[0].id {
        assert rest[j] in rest && rest[j] in view[1..];
      }
      assert DistinctIds([view[0]] + rest);
      assert AnchorsIn(view) == if view[0].IsAnchor() then [view[0]] + rest else rest;
    }
  }

  lemma {:induction false} AllNamedFor(anchors: seq<RunnerRef>, revision: Revision)
    requires forall x :: x in anchors ==> x.description == AnchorName(revision)
    ensures NamedFor(anchors, revision) == anchors
  {
    if anchors != [] {
      AllNamedFor(anchors[1..], revision);
    }
  }

  /** A clean look at a settled Fleet shows its one anchor and no other. */
  lemma SettledAnchorIsSeen(view: seq<RunnerRef>, w: World, revision: Revision, id: RunnerId)
    requires Inv(w) && CleanView(view, w) && AnchorsSettled(w, revision, id)
    ensures var anchors := AnchorsIn(view);
            NamedFor(anchors, revision) == anchors && |anchors| == 1 && anchors[0].id == id
  {
    var anchors := AnchorsIn(view);
    forall x | x in anchors ensures x.id == id && x.description == AnchorName(revision) {
      AnchorEntryIsLive(view, w, x);
    }
    AllNamedFor(anchors, revision);
    AnchorsAreDistinct(view);
    LiveAnchorIsSeen(view, w, id);
    OneIdOneEntry(anchors, id);
  }

  /** Each live anchor has its entry in a clean view. */
  lemma LiveAnchorIsSeen(view: seq<RunnerRef>, w: World, id: RunnerId)
    requires CleanView(view, w) && LiveAnchor(w, id)
    ensures AnchorsIn(view) != []
  {
    assert id in w.remote.Keys;
    var i :| 0 <= i < |view| && view[i].id == id;
    assert view[i] in view && Shows(view[i], w.remote[id]);
    assert view[i] in AnchorsIn(view);
  }

  lemma OneIdOneEntry(entries: seq<RunnerRef>, id: RunnerId)
    requires entries != [] && DistinctIds(entries) && forall x :: x in entries ==> x.id == id
    ensures |entries| == 1 && entries[0].id == id
  {
    assert entries[0] in entries;
    if |entries| > 1 {
      TwoEntriesTwoIds(entries);
    }
  }

  lemma TwoEntriesTwoIds(entries: seq<RunnerRef>)
    requires DistinctIds(entries) && |entries| > 1
    ensures exists x, y :: x in entries && y in entries && x.id != y.id
  {
    assert entries[0] in entries && entries[1] in entries;
  }

  lemma AnchorEntryIsLive(view: seq<RunnerRef>, w: World, x: RunnerRef)
    requires Faithful(view, w) && x in view && x.IsAnchor()
    ensures LiveAnchor(w, x.id) && w.remote[x.id].description == x.description
  {
    var i :| 0 <= i < |view| && view[i] == x;
    assert Shows(view[i], w.remote[view[i].id]);
  }

  /** A clean pass converges. */
  ghost predicate Converges(view: seq<RunnerRef>, deleting: bool, revision: Revision, w0: World, quiet: bool,
                            r: Reply<Option<RunnerId>>, w1: World) {
    quiet && CleanView(view, w0) && !deleting ==>
      r.Ok? && r.value.Some? && AnchorsSettled(w1, revision, r.value.value)
  }

  /** A clean pass over a settled Fleet changes nothing. */
  ghost predicate LeavesSettled(view: seq<RunnerRef>, deleting: bool, revision: Revision, w0: World, quiet: bool,
                                r: Reply<Option<RunnerId>>, w1: World) {
    forall id: RunnerId :: AnchorsSettled(w0, revision, id) && quiet && CleanView(view, w0) && !deleting ==>
      r == Ok(Some(id)) && w1 == w0
  }

  /** Exactly the anchors are gone, and every row of theirs. */
  ghost predicate AnchorsCleared(w0: World, w1: World) {
    && w1 == w0.(remote := w1.remote, anchors := map[])
    && (forall id :: id in w1.remote <==> id in w0.remote && !OwnAnchor(w0.remote[id]))
    && (forall id :: id in w1.remote ==> w1.remote[id] == w0.remote[id])
  }

  /** A clean pass over a Fleet being deleted removes its anchors and nothing else. */
  ghost predicate ClearsAnchors(view: seq<RunnerRef>, deleting: bool, w0: World, quiet: bool,
                                r: Reply<Option<RunnerId>>, w1: World) {
    quiet && deleting && CleanView(view, w0) ==> r == Ok(None) && AnchorsCleared(w0, w1)
  }

  /** A clean pass over a Fleet without an anchor sends one request, and its
      anchor is sound. */
  ghost predicate RegistersOnce(view: seq<RunnerRef>, deleting: bool, w0: World, quiet: bool,
                                r: Reply<Option<RunnerId>>, w1: World) {
    quiet && CleanView(view, w0) && !deleting && NoLiveAnchor(w0) ==>
      w1.anchorPosts == w0.anchorPosts + 1 && r.Ok? && r.value.Some? && SoundAnchor(w1, r.value.value)
  }

  /** Converges to exactly one anchor for the current revision, none while
      deleting. The deletion marker is the one read before the claim. */
  method ReconcileAnchors(s: Supervisor, runners: seq<RunnerRef>, deleting: bool) returns (r: Reply<Option<RunnerId>>)
    requires s.Valid() && s.w.gate.held.Free? && !s.w.head.tombstone
    requires Listed(runners, s.w)
    modifies s
    ensures s.Valid() && s.Continues() && AnchorFrame(old(s.w), s.w) && s.w.gate.held.Free?
    ensures Converges(runners, deleting, s.guard.revision, old(s.w), s.quiet && !old(s.w).gate.api, r, s.w)
    ensures LeavesSettled(runners, deleting, s.guard.revision, old(s.w), s.quiet && !old(s.w).gate.api, r, s.w)
    ensures ClearsAnchors(runners, deleting, old(s.w), s.quiet && !old(s.w).gate.api, r, s.w)
    ensures r.Ok? && r.value.Some? ==> NeverLanded(s.w, r.value.value)
    ensures old(s.w).anchorPosts <= s.w.anchorPosts <= old(s.w).anchorPosts + 1
    ensures deleting ==> s.w.anchorPosts == old(s.w).anchorPosts
    ensures RegistersOnce(runners, deleting, old(s.w), s.quiet && !old(s.w).gate.api, r, s.w)
    ensures s.quiet && !old(s.w).gate.api ==> SameStand(old(s.w), s.w)
  {
    var claim := s.AcquireClaim();
    if !claim.Ok? {
      return claim.PropagateFailure();
    }
    ghost var w1 := s.w;
    ClaimKeepsListed(runners, old(s.w), w1);
    r := ReconcileUnderClaim(s, runners, deleting);
    ghost var w2 := s.w;
    s.ReleaseGate();
    if r.Ok? && r.value.Some? {
      NeverLandedStays(w2, s.w, r.value.value);
    }
    ClaimIsNeutral(runners, deleting, s.guard.revision, s.quiet && !old(s.w).gate.api, r, old(s.w), w1, w2, s.w);
    if s.quiet && !old(s.w).gate.api {
      ClaimIsNeutralToo(runners, deleting, r, old(s.w), w1, w2, s.w);
    }
  }

  /** Taking the claim and dropping it again changes nothing a pass is about. */
  lemma ClaimIsNeutral(view: seq<RunnerRef>, deleting: bool, revision: Revision, quiet: bool, r: Reply<Option<RunnerId>>,
                       w0: World, w1: World, w2: World, w3: World)
    requires quiet ==> w0.gate.held.Free? && w1 == Apply(w0, AcquireShared)
    requires w3 == w2.(gate := w2.gate.(held := Free))
    requires Converges(view, deleting, revision, w1, quiet, r, w2)
    requires LeavesSettled(view, deleting, revision, w1, quiet, r, w2)
    ensures Converges(view, deleting, revision, w0, quiet, r, w3)
    ensures LeavesSettled(view, deleting, revision, w0, quiet, r, w3)
  {
    if quiet {
      assert CleanView(view, w0) ==> CleanView(view, w1);
      forall id: RunnerId | AnchorsSettled(w0, revision, id) ensures AnchorsSettled(w1, revision, id) {
      }
    }
  }

  lemma ClaimIsNeutralToo(view: seq<RunnerRef>, deleting: bool, r: Reply<Option<RunnerId>>,
                          w0: World, w1: World, w2: World, w3: World)
    requires w0.gate.held.Free? && w1 == Apply(w0, AcquireShared) && w3 == w2.(gate := w2.gate.(held := Free))
    requires ClearsAnchors(view, deleting, w1, true, r, w2)
    ensures ClearsAnchors(view, deleting, w0, true, r, w3)
  {
    assert CleanView(view, w0) ==> CleanView(view, w1);
  }

  lemma ClaimKeepsListed(view: seq<RunnerRef>, w0: World, w1: World)
    requires Listed(view, w0) && Rely(w0, w1.(gate := w1.gate.(held := Free)))
    ensures Listed(view, w1) && AnchorFrame(w0, w1)
  {
    assert AnchorsShrink(w0, w1);
    ListedStays(view, w0, w1);
  }

  method ReconcileUnderClaim(s: Supervisor, runners: seq<RunnerRef>, deleting: bool)
    returns (r: Reply<Option<RunnerId>>)
    requires s.Valid() && s.w.gate.held.Shared? && !s.w.head.tombstone && Listed(runners, s.w)
    modifies s
    ensures s.Valid() && s.Continues() && AnchorFrame(old(s.w), s.w) && s.w.gate.held.Shared?
    ensures Converges(runners, deleting, s.guard.revision, old(s.w), s.quiet, r, s.w)
    ensures LeavesSettled(runners, deleting, s.guard.revision, old(s.w), s.quiet, r, s.w)
    ensures ClearsAnchors(runners, deleting, old(s.w), s.quiet, r, s.w)
    ensures r.Ok? && r.value.Some? ==> NeverLanded(s.w, r.value.value)
    ensures old(s.w).anchorPosts <= s.w.anchorPosts <= old(s.w).anchorPosts + 1
    ensures deleting ==> s.w.anchorPosts == old(s.w).anchorPosts
    ensures RegistersOnce(runners, deleting, old(s.w), s.quiet, r, s.w)
    ensures s.quiet ==> SameStand(old(s.w), s.w)
  {
    s.Safety();
    if HiddenAnchor(runners) {
      return Ok(None);
    }
    ListedIsCovered(runners, s.w);
    var _ :- s.ReadRows();
    var anchors := AnchorsIn(runners);
    var keep :- ChooseAnchor(s, anchors, deleting);
    ghost var w1 := s.w;
    if keep.Some? {
      ListedStays(runners, old(s.w), w1);
      ListedKeepIsCurrent(runners, w1, s.guard.revision, keep.value);
    }
    NoneLandedStays(anchors, old(s.w), w1);
    r := ConvergeTo(s, anchors, keep, deleting);
    AnchorFrameTransitive(old(s.w), w1, s.w);
    if s.quiet && CleanView(runners, old(s.w)) && !deleting {
      ChoiceSettles(runners, old(s.w), w1, s.w, s.guard.revision, keep);
    }
    if s.quiet && CleanView(runners, old(s.w)) && deleting {
      OnlyAnchorsCleared(runners, old(s.w), s.w);
    }
  }

  /** What the two halves of a quiet pass amount to. */
  lemma ChoiceSettles(view: seq<RunnerRef>, w0: World, w1: World, w2: World, revision: Revision, keep: Option<RunnerId>)
    requires Inv(w0) && CleanView(view, w0) && QuietChoice(AnchorsIn(view), revision, w0, w1, keep)
    requires keep.Some? ==> QuietlyKept(AnchorsIn(view), revision, w1, w2, keep.value)
    ensures keep.Some? ==> AnchorsSettled(w2, revision, keep.value)
    ensures forall id: RunnerId :: AnchorsSettled(w0, revision, id) ==> keep == Some(id) && w2 == w0
  {
    var anchors := AnchorsIn(view);
    if keep.Some? {
      var x :| x in anchors && x.id == keep.value && x.description == AnchorName(revision);
      AnchorEntryIsLive(view, w0, x);
      OneRow(w2.anchors, revision, AnchorRow(Recorded(keep.value), true));
    }
    forall id: RunnerId | AnchorsSettled(w0, revision, id) ensures keep == Some(id) && w2 == w0 {
      SettledAnchorIsSeen(view, w0, revision, id);
      assert anchors[0] in anchors;
      assert w0.anchors[revision := AnchorRow(Recorded(id), true)] == w0.anchors;
      assert w2.anchors == w0.anchors;
    }
  }

  /** Everything the inventory shows as an anchor is one. */
  lemma OnlyAnchorsCleared(view: seq<RunnerRef>, w0: World, w1: World)
    requires CleanView(view, w0) && AllListedDeleted(AnchorsIn(view), w0, w1)
    ensures AnchorsCleared(w0, w1)
  {
    forall id | id in w0.remote && id !in w1.remote ensures OwnAnchor(w0.remote[id]) {
      var x :| x in AnchorsIn(view) && x.id == id;
      AnchorEntryIsLive(view, w0, x);
    }
  }

  /** An undisturbed clean-up that keeps nothing. */
  ghost predicate AllListedDeleted(anchors: seq<RunnerRef>, w0: World, w1: World) {
    && w1 == w0.(remote := w1.remote, anchors := map[])
    && NoLiveAnchor(w1)
    && RemovedFrom(anchors, w0, w1)
  }

  /** Nothing but listed registrations was removed. */
  ghost predicate RemovedFrom(anchors: seq<RunnerRef>, w0: World, w1: World) {
    && (forall id :: id in w1.remote ==> id in w0.remote && w1.remote[id] == w0.remote[id])
    && (forall id :: id in w0.remote && id !in w1.remote ==> exists x :: x in anchors && x.id == id)
  }

  /** A registration may be kept for the current revision's row. */
  ghost predicate MayKeep(w: World, anchors: seq<RunnerRef>, revision: Revision, deleting: bool, id: RunnerId) {
    !deleting && revision in w.anchors && Entry(anchors, id, AnchorName(revision))
  }

  /** The choice an undisturbed pass makes: the current row's registration,
      adopted if its reply was lost; none only if nothing listed fits. */
  ghost predicate QuietChoice(anchors: seq<RunnerRef>, revision: Revision, w0: World, w1: World, keep: Option<RunnerId>) {
    match keep
    case Some(id) =>
      && revision in w0.anchors
      && (exists x :: x in anchors && x.id == id && x.description == AnchorName(revision))
      && w1 == w0.(anchors := w0.anchors[revision := AnchorRow(Recorded(id), true)])
    case None =>
      && w1 == w0
      && (revision in w0.anchors ==>
            if w0.anchors[revision].runner.Some?
            then forall x :: x in NamedFor(anchors, revision) ==> x.id != w0.anchors[revision].runner.value
            else |NamedFor(anchors, revision)| != 1)
  }

  /** An undisturbed clean-up keeps the chosen registration and its row only. */
  ghost predicate QuietlyKept(anchors: seq<RunnerRef>, revision: Revision, w0: World, w1: World, id: RunnerId) {
    && w1 == w0.(remote := w1.remote, anchors := w1.anchors)
    && (id in w0.remote ==> id in w1.remote && w1.remote[id] == w0.remote[id])
    && ((forall x :: x in anchors ==> x.id == id) ==> w1.remote == w0.remote)
    && (forall rev :: rev in w1.anchors <==> rev in w0.anchors && rev == revision)
    && (revision in w1.anchors ==> w1.anchors[revision] == w0.anchors[revision])
  }

  /** The registration the current revision's row already stands for: the
      recorded one, or the unique landing of a registration whose reply was lost. */
  method ChooseAnchor(s: Supervisor, anchors: seq<RunnerRef>, deleting: bool) returns (r: Reply<Option<RunnerId>>)
    requires s.Valid() && Covered(s.w, None, {}, anchors)
    modifies s
    ensures s.Valid() && s.Continues() && AnchorFrame(old(s.w), s.w) && s.w.gate.held == old(s.w).gate.held
    ensures AnchorsShrink(old(s.w), s.w) && Covered(s.w, None, {}, anchors)
    ensures r.Ok? && r.value.Some? ==> MayKeep(s.w, anchors, s.guard.revision, deleting, r.value.value)
    ensures s.quiet ==> r.Ok?
    ensures s.quiet && !deleting ==> QuietChoice(anchors, s.guard.revision, old(s.w), s.w, r.value)
    ensures deleting ==> r == Ok(None) && s.w == old(s.w)
    ensures s.w.anchorPosts == old(s.w).anchorPosts
    ensures s.quiet ==> SameStand(old(s.w), s.w)
  {
    var revision := s.guard.revision;
    s.Safety();
    if deleting || revision !in s.w.anchors {
      return Ok(None);
    }
    var named := NamedFor(anchors, revision);
    var row := s.w.anchors[revision];
    if row.runner.Some? {
      var id := row.runner.value;
      if exists x <- named :: x.id == id {
        assert s.w.anchors[revision := AnchorRow(Recorded(id), true)] == s.w.anchors;
        return Ok(Some(id));
      }
      return Ok(None);
    }
    if |named| != 1 {
      return Ok(None);
    }
    assert named[0] in named;
    r := AdoptLanding(s, anchors, revision, named[0].id);
  }

  /** Records the one landing an unrecorded row can stand for. */
  method AdoptLanding(s: Supervisor, ghost anchors: seq<RunnerRef>, revision: Revision, id: RunnerId)
    returns (r: Reply<Option<RunnerId>>)
    requires s.Valid() && Covered(s.w, None, {}, anchors)
    requires revision in s.w.anchors && s.w.anchors[revision].runner.None?
    modifies s
    ensures s.Valid() && s.Continues() && AnchorFrame(old(s.w), s.w) && s.w.gate.held == old(s.w).gate.held
    ensures AnchorsShrink(old(s.w), s.w) && Covered(s.w, None, {}, anchors)
    ensures r.Ok? ==> r.value == Some(id) && revision in s.w.anchors
    ensures s.quiet ==> r.Ok?
    ensures s.quiet ==> s.w == old(s.w).(anchors := old(s.w).anchors[revision := AnchorRow(Recorded(id), true)])
    ensures s.w.anchorPosts == old(s.w).anchorPosts
    ensures s.quiet ==> SameStand(old(s.w), s.w)
  {
    var _ :- s.Call(SetAnchor(revision, Recorded(id), true));
    return Ok(Some(id));
  }

  /** Removes what was not chosen, and registers when nothing was. */
  method ConvergeTo(s: Supervisor, anchors: seq<RunnerRef>, keep: Option<RunnerId>, deleting: bool)
    returns (r: Reply<Option<RunnerId>>)
    requires s.Valid() && s.w.gate.held.Shared? && !s.w.head.tombstone && Covered(s.w, None, {}, anchors)
    requires NoneLanded(anchors, s.w) && (keep.Some? ==> NeverLanded(s.w, keep.value))
    requires KeepIsCurrent(s.w, keep, s.guard.revision) && (keep.Some? ==> !deleting)
    modifies s
    ensures s.Valid() && s.Continues() && AnchorFrame(old(s.w), s.w) && s.w.gate.held.Shared?
    ensures s.quiet ==> r.Ok?
    ensures s.quiet && keep.Some? ==> r == Ok(keep) && QuietlyKept(anchors, s.guard.revision, old(s.w), s.w, keep.value)
    ensures s.quiet && !deleting && keep.None? ==>
              r.Ok? && r.value.Some? && AnchorsSettled(s.w, s.guard.revision, r.value.value) && SoundAnchor(s.w, r.value.value)
    ensures r.Ok? && r.value.Some? ==> NeverLanded(s.w, r.value.value)
    ensures s.quiet && deleting ==> r == Ok(None) && AllListedDeleted(anchors, old(s.w), s.w)
    ensures old(s.w).anchorPosts <= s.w.anchorPosts <= old(s.w).anchorPosts + 1
    // Whatever happens, nothing is registered while deleting or beside a kept anchor.
    ensures deleting || keep.Some? ==> s.w.anchorPosts == old(s.w).anchorPosts
    ensures s.quiet && !deleting && keep.None? ==> s.w.anchorPosts == old(s.w).anchorPosts + 1
    ensures s.quiet ==> SameStand(old(s.w), s.w)
  {
    var retained :- DeleteOthers(s, anchors, keep);
    ghost var w1 := s.w;
    var _ :- RemoveRows(s, keep, retained, deleting);
    ghost var w2 := s.w;
    AnchorFrameTransitive(old(s.w), w1, w2);
    if s.quiet && keep.Some? {
      QuietPassKeeps(anchors, old(s.w), w1, w2, s.guard.revision, keep.value);
    }
    if s.quiet && deleting {
      NothingKeptIsNothingLeft(w1, w2);
    }
    if keep.Some? {
      NeverLandedStays(old(s.w), w2, keep.value);
    }
    if deleting || keep.Some? || retained != {} {
      return Ok(keep);
    }
    NothingKeptIsNothingLeft(w1, w2);
    r := RegisterAnchor(s, s.guard.revision);
    AnchorFrameTransitive(old(s.w), w2, s.w);
  }

  lemma QuietPassKeeps(anchors: seq<RunnerRef>, w0: World, w1: World, w2: World, revision: Revision, id: RunnerId)
    requires QuietDeletes(anchors, w0, w1, Some(id)) && QuietRemovals(w1, w2)
    requires forall rev :: rev in w2.anchors <==> rev in w1.anchors && Stays(rev, revision, Some(id), {}, false)
    ensures QuietlyKept(anchors, revision, w0, w2, id)
  {
    assert forall rev :: Stays(rev, revision, Some(id), {}, false) <==> rev == revision;
    if forall x :: x in anchors ==> x.id == id {
      assert forall x :: x in anchors ==> Some(id) == Some(x.id);
    }
    assert w2 == w0.(remote := w2.remote, anchors := w2.anchors);
    assert w1.anchors == w0.anchors && w2.remote == w1.remote;
    assert (forall x :: x in anchors ==> x.id == id) ==> w2.remote == w0.remote;
    assert id in w0.remote ==> id in w2.remote && w2.remote[id] == w0.remote[id];
    assert forall rev :: rev in w2.anchors <==> rev in w0.anchors && rev == revision;
    assert revision in w2.anchors ==> w2.anchors[revision] == w0.anchors[revision];
  }

  lemma NothingKeptIsNothingLeft(w1: World, w2: World)
    requires Covered(w1, None, {}, []) && AnchorsShrink(w1, w2)
    requires forall rev :: rev in w2.anchors ==> AnchorName(rev) in {}
    ensures w2.anchors == map[] && NoLiveAnchor(w2)
  {
    NoRow(w2.anchors);
    forall id | id in w2.remote ensures !OwnAnchor(w2.remote[id]) {
      if LiveAnchor(w2, id) {
        NothingCovers(w1, id);
      }
    }
  }

  lemma NothingCovers(w: World, id: RunnerId)
    requires Covered(w, None, {}, [])
    ensures !LiveAnchor(w, id)
  {
  }

  /** Only the registrations changed, and the kept one did not. */
  ghost predicate QuietDeletes(anchors: seq<RunnerRef>, w0: World, w1: World, keep: Option<RunnerId>) {
    && w1 == w0.(remote := w1.remote)
    && (keep.Some? && keep.value in w0.remote ==>
          keep.value in w1.remote && w1.remote[keep.value] == w0.remote[keep.value])
    && ((forall x :: x in anchors ==> keep == Some(x.id)) ==> w1.remote == w0.remote)
    && RemovedFrom(anchors, w0, w1)
  }

  /** The kept registration goes by the current revision's name. */
  ghost predicate KeepIsCurrent(w: World, keep: Option<RunnerId>, revision: Revision) {
    keep.Some? && LiveAnchor(w, keep.value) ==> w.remote[keep.value].description == AnchorName(revision)
  }

  lemma QuietDeleteStep(anchors: seq<RunnerRef>, w0: World, w1: World, w2: World, keep: Option<RunnerId>, x: RunnerRef)
    requires QuietDeletes(anchors, w0, w1, keep) && x in anchors
    requires w2 == if keep == Some(x.id) then w1 else Apply(w1, Delete(x.id))
    ensures QuietDeletes(anchors, w0, w2, keep)
  {
  }

  /** Deletes every other anchor; the names of those that may remain. */
  method DeleteOthers(s: Supervisor, anchors: seq<RunnerRef>, keep: Option<RunnerId>)
    returns (r: Reply<set<Description>>)
    requires s.Valid() && Covered(s.w, keep, {}, anchors) && NoneLanded(anchors, s.w)
    modifies s
    ensures s.Valid() && s.Continues() && AnchorFrame(old(s.w), s.w) && s.w.gate.held == old(s.w).gate.held
    ensures s.w.anchors == old(s.w).anchors && AnchorsShrink(old(s.w), s.w)
    ensures r.Ok? ==> Covered(s.w, keep, r.value, [])
    ensures s.quiet ==> r == Ok({}) && QuietDeletes(anchors, old(s.w), s.w, keep)
    ensures s.w.anchorPosts == old(s.w).anchorPosts
  {
    var retained: set<Description> := {};
    var i := 0;
    while i < |anchors|
      invariant i <= |anchors| && s.Valid() && s.Continues() && AnchorFrame(old(s.w), s.w)
      invariant s.w.gate.held == old(s.w).gate.held && s.w.anchors == old(s.w).anchors
      invariant AnchorsShrink(old(s.w), s.w) && Covered(s.w, keep, retained, anchors[i..])
      invariant s.quiet ==> retained == {} && QuietDeletes(anchors, old(s.w), s.w, keep)
      invariant s.w.anchorPosts == old(s.w).anchorPosts
    {
      var x := anchors[i];
      assert anchors[i..] == [x] + anchors[i + 1..];
      ghost var before := s.w;
      NeverLandedStays(old(s.w), before, x.id);
      var more :- DeleteUnlessKept(s, x, keep, retained, anchors[i + 1..]);
      AnchorFrameTransitive(old(s.w), before, s.w);
      AnchorsShrinkTransitive(old(s.w), before, s.w);
      if s.quiet {
        QuietDeleteStep(anchors, old(s.w), before, s.w, keep, x);
      }
      retained := more;
      i := i + 1;
    }
    return Ok(retained);
  }

  method DeleteUnlessKept(s: Supervisor, x: RunnerRef, keep: Option<RunnerId>, retained: set<Description>,
                          ghost rest: seq<RunnerRef>)
    returns (r: Reply<set<Description>>)
    requires s.Valid() && Covered(s.w, keep, retained, [x] + rest) && NeverLanded(s.w, x.id)
    modifies s
    ensures s.Valid() && s.Continues() && AnchorFrame(old(s.w), s.w) && s.w.gate.held == old(s.w).gate.held
    ensures s.w.anchors == old(s.w).anchors && AnchorsShrink(old(s.w), s.w)
    ensures r.Ok? ==> Covered(s.w, keep, r.value, rest)
    ensures s.quiet ==> r == Ok(retained)
    ensures s.quiet ==> s.w == if keep == Some(x.id) then old(s.w) else Apply(old(s.w), Delete(x.id))
    ensures s.w.anchorPosts == old(s.w).anchorPosts
  {
    if keep == Some(x.id) {
      return Ok(retained);
    }
    var deleted := DeleteAnchor(s, x.id);
    if deleted.Crash? {
      return Crash;
    }
    var more := if deleted.Err? then retained + {x.description} else retained;
    CoverOneDeleted(old(s.w), s.w, keep, retained, more, x, rest);
    return Ok(more);
  }

  method DeleteAnchor(s: Supervisor, id: RunnerId) returns (r: Reply<Unit>)
    requires s.Valid() && NeverLanded(s.w, id)
    modifies s
    ensures s.Valid() && s.Continues() && AnchorFrame(old(s.w), s.w) && s.w.gate.held == old(s.w).gate.held
    ensures s.w.anchors == old(s.w).anchors && AnchorsShrink(old(s.w), s.w)
    ensures r.Ok? ==> id !in s.w.remote || !OwnAnchor(s.w.remote[id])
    ensures s.quiet ==> r.Ok? && s.w == Apply(old(s.w), Delete(id))
    ensures s.w.anchorPosts == old(s.w).anchorPosts
  {
    r := s.Call(Delete(id));
  }

  lemma CoverOneDeleted(before: World, after: World, keep: Option<RunnerId>, retained: set<Description>,
                        more: set<Description>, x: RunnerRef, rest: seq<RunnerRef>)
    requires retained <= more && Covered(before, keep, retained, [x] + rest) && AnchorsShrink(before, after)
    requires x.description in more || !LiveAnchor(after, x.id)
    ensures Covered(after, keep, more, rest)
  {
    forall id | LiveAnchor(after, id)
      ensures keep == Some(id) || after.remote[id].description in more || Entry(rest, id, after.remote[id].description)
    {
      var d := after.remote[id].description;
      if keep != Some(id) && d !in retained {
        assert Entry([x] + rest, id, d);
        var y :| y in [x] + rest && y.id == id && y.description == d;
        if y == x {
          assert d in more;
        } else {
          assert y in rest;
        }
      }
    }
  }

  /** Only rows were removed. */
  ghost predicate QuietRemovals(w0: World, w1: World) {
    && w1 == w0.(anchors := w1.anchors)
    && (forall rev :: rev in w1.anchors ==> rev in w0.anchors && w1.anchors[rev] == w0.anchors[rev])
  }

  lemma SomeRow(todo: set<Revision>)
    requires todo != {}
    ensures exists rev :: rev in todo
  {
  }

  lemma OneRow(rows: map<Revision, AnchorRow>, revision: Revision, row: AnchorRow)
    requires (forall rev :: rev in rows <==> rev == revision) && rows[revision] == row
    ensures rows == map[revision := row]
  {
  }

  lemma NoRow(rows: map<Revision, AnchorRow>)
    requires forall rev :: rev !in rows
    ensures rows == map[]
  {
  }

  /** Removes the rows no remaining anchor is named by. */
  method RemoveRows(s: Supervisor, keep: Option<RunnerId>, retained: set<Description>, deleting: bool)
    returns (r: Reply<Unit>)
    requires s.Valid() && Covered(s.w, keep, retained, []) && KeepIsCurrent(s.w, keep, s.guard.revision)
    requires keep.Some? ==> !deleting
    modifies s
    ensures s.Valid() && s.Continues() && AnchorFrame(old(s.w), s.w) && s.w.gate.held == old(s.w).gate.held
    ensures AnchorsShrink(old(s.w), s.w)
    ensures r.Ok? ==> forall rev :: rev in s.w.anchors <==>
              rev in old(s.w).anchors && Stays(rev, s.guard.revision, keep, retained, deleting)
    ensures s.quiet ==> r.Ok? && QuietRemovals(old(s.w), s.w)
    ensures s.w.anchorPosts == old(s.w).anchorPosts
  {
    var todo := s.w.anchors.Keys;
    while todo != {}
      invariant s.Valid() && s.Continues() && AnchorFrame(old(s.w), s.w)
      invariant s.w.gate.held == old(s.w).gate.held && AnchorsShrink(old(s.w), s.w)
      invariant todo <= s.w.anchors.Keys <= old(s.w).anchors.Keys
      invariant forall rev :: rev in old(s.w).anchors && rev !in todo ==>
                  (rev in s.w.anchors <==> Stays(rev, s.guard.revision, keep, retained, deleting))
      invariant s.quiet ==> QuietRemovals(old(s.w), s.w)
      invariant s.w.anchorPosts == old(s.w).anchorPosts
      decreases todo
    {
      SomeRow(todo);
      var rev :| rev in todo;
      todo := todo - {rev};
      var _ :- RemoveUnlessStays(s, rev, keep, retained, deleting, old(s.w));
    }
    return Ok(Unit);
  }

  /** The next row of a pass that started in w0. */
  method RemoveUnlessStays(s: Supervisor, rev: Revision, keep: Option<RunnerId>, retained: set<Description>,
                           deleting: bool, ghost w0: World)
    returns (r: Reply<Unit>)
    requires s.Valid() && Covered(w0, keep, retained, []) && KeepIsCurrent(w0, keep, s.guard.revision)
    requires (keep.Some? ==> !deleting) && AnchorFrame(w0, s.w) && AnchorsShrink(w0, s.w) && rev in s.w.anchors
    modifies s
    ensures s.Valid() && s.Continues() && AnchorFrame(w0, s.w) && s.w.gate.held == old(s.w).gate.held
    ensures AnchorsShrink(w0, s.w)
    ensures r.Ok? ==> s.w.anchors == if Stays(rev, s.guard.revision, keep, retained, deleting) then old(s.w).anchors
                                     else Without(old(s.w).anchors, rev)
    ensures s.quiet ==> r.Ok? && QuietRemovals(old(s.w), s.w)
    ensures s.w.anchorPosts == old(s.w).anchorPosts
  {
    if Stays(rev, s.guard.revision, keep, retained, deleting) {
      return Ok(Unit);
    }
    ghost var before := s.w;
    UnnamedRowMayGo(w0, s.w, s.guard.revision, keep, retained, deleting, rev);
    r := RemoveRow(s, rev);
    AnchorFrameTransitive(w0, before, s.w);
  }

  lemma UnnamedRowMayGo(w0: World, w: World, revision: Revision, keep: Option<RunnerId>, retained: set<Description>,
                        deleting: bool, rev: Revision)
    requires Covered(w0, keep, retained, []) && KeepIsCurrent(w0, keep, revision) && (keep.Some? ==> !deleting)
    requires AnchorsShrink(w0, w) && !Stays(rev, revision, keep, retained, deleting)
    ensures Enabled(w, RemoveAnchor(rev))
  {
    forall id | id in w.remote && OwnAnchor(w.remote[id]) ensures w.remote[id].description != AnchorName(rev) {
      assert LiveAnchor(w, id);
      assert !Entry([], id, w.remote[id].description);
    }
  }

  predicate Stays(rev: Revision, revision: Revision, keep: Option<RunnerId>, retained: set<Description>, deleting: bool) {
    (keep.Some? && rev == revision && !deleting) || AnchorName(rev) in retained
  }

  method RemoveRow(s: Supervisor, rev: Revision) returns (r: Reply<Unit>)
    requires s.Valid() && Enabled(s.w, RemoveAnchor(rev))
    modifies s
    ensures s.Valid() && s.Continues() && AnchorFrame(old(s.w), s.w) && s.w.gate.held == old(s.w).gate.held
    ensures AnchorsShrink(old(s.w), s.w)
    ensures s.w.anchors == Without(old(s.w).anchors, rev) || (!r.Ok? && s.w.anchors == old(s.w).anchors)
    ensures s.quiet ==> r.Ok? && s.w == Apply(old(s.w), RemoveAnchor(rev))
    ensures s.w.anchorPosts == old(s.w).anchorPosts
  {
    r := s.Call(RemoveAnchor(rev));
  }

  /** The durable row, then the one registration it names, then the outcome. */
  method RegisterAnchor(s: Supervisor, revision: Revision) returns (r: Reply<Option<RunnerId>>)
    requires s.Valid() && s.w.gate.held.Shared? && !s.w.head.tombstone
    requires s.w.anchors == map[] && NoLiveAnchor(s.w)
    modifies s
    ensures s.Valid() && s.Continues() && AnchorFrame(old(s.w), s.w) && s.w.gate.held.Shared?
    ensures s.quiet ==> r.Ok? && r.value.Some? && AnchorsSettled(s.w, revision, r.value.value) && SoundAnchor(s.w, r.value.value)
    ensures r.Ok? && r.value.Some? ==> NeverLanded(s.w, r.value.value)
    ensures old(s.w).anchorPosts <= s.w.anchorPosts <= old(s.w).anchorPosts + 1
    ensures s.quiet ==> s.w.anchorPosts == old(s.w).anchorPosts + 1
    ensures s.quiet ==> SameStand(old(s.w), s.w)
  {
    var _ :- BeginRow(s, revision);
    ghost var w1 := s.w;
    var reply := SendAnchor(s, revision);
    ghost var w2 := s.w;
    AnchorFrameTransitive(old(s.w), w1, w2);
    if reply.Crash? {
      return Crash;
    }
    var id := if reply.Ok? then reply.value else None;
    r := RecordAnchor(s, revision, id);
    AnchorFrameTransitive(old(s.w), w2, s.w);
    if id.Some? {
      NeverLandedStays(w2, s.w, id.value);
    }
  }

  method BeginRow(s: Supervisor, revision: Revision) returns (r: Reply<Unit>)
    requires s.Valid() && !s.w.head.tombstone && s.w.anchors == map[] && NoLiveAnchor(s.w)
    modifies s
    ensures s.Valid() && s.Continues() && AnchorFrame(old(s.w), s.w) && s.w.gate.held == old(s.w).gate.held
    ensures NoLiveAnchor(s.w)
    ensures r.Ok? ==> s.w.anchors == map[revision := AnchorRow(None, false)]
    ensures s.quiet ==> r.Ok?
    ensures s.w.anchorPosts == old(s.w).anchorPosts
    ensures s.quiet ==> SameStand(old(s.w), s.w)
  {
    r := s.Call(BeginAnchor(revision));
  }

  /** Active with its id, or Ambiguous with none. */
  method RecordAnchor(s: Supervisor, revision: Revision, id: Option<RunnerId>) returns (r: Reply<Option<RunnerId>>)
    requires s.Valid() && s.w.anchors == map[revision := AnchorRow(None, false)]
    modifies s
    ensures s.Valid() && s.Continues() && AnchorFrame(old(s.w), s.w) && s.w.gate.held == old(s.w).gate.held
    ensures r.Ok? ==> r.value == id
    ensures s.quiet ==> r.Ok? && s.w.remote == old(s.w).remote
    ensures s.quiet && id.Some? ==> s.w.anchors == map[revision := AnchorRow(Recorded(id.value), true)]
    ensures s.w.anchorPosts == old(s.w).anchorPosts
    ensures s.quiet ==> SameStand(old(s.w), s.w)
  {
    var recorded := if id.Some? then Recorded(id.value) else None;
    ghost var w1 := Apply(s.w, SetAnchor(revision, recorded, id.Some?));
    assert w1.anchors == map[revision := AnchorRow(recorded, id.Some?)];
    assert w1 == s.w.(anchors := w1.anchors);
    var _ :- s.Call(SetAnchor(revision, recorded, id.Some?));
    return Ok(id);
  }

  /** One anchor more: nothing of the generations, the rows or the head moves. */
  ghost predicate OneAnchorMore(w0: World, w1: World, revision: Revision, landed: Option<RunnerId>) {
    && AnchorFrame(w0, w1) && w1.anchors == w0.anchors && SameStand(w0, w1)
    && w1.anchorPosts == w0.anchorPosts + 1
    && (landed.Some? ==>
          && LiveAnchor(w1, landed.value) && w1.remote[landed.value].description == AnchorName(revision)
          && SoundAnchor(w1, landed.value) && NeverLanded(w1, landed.value))
  }

  lemma PostedAnchorFrames(w: World, revision: Revision, landed: Option<RunnerId>)
    requires Inv(w) && Enabled(w, PostAnchor(revision, landed))
    ensures OneAnchorMore(w, Apply(w, PostAnchor(revision, landed)), revision, landed)
  {
    var w1 := Apply(w, PostAnchor(revision, landed));
    forall g | 0 <= g < |w.gens| ensures SameRow(w.gens[g], w1.gens[g]) {
      assert w.gens[g] == w1.gens[g];
    }
    if landed.Some? {
      forall g | 0 <= g < |w1.gens| ensures w1.gens[g].landed != landed {
        assert RowCoherent(w, g);
      }
    }
  }

  /** The anchor's one registration request; the token in the reply is dropped. */
  method TakeAnchor(s: Supervisor, revision: Revision, landed: Option<RunnerId>)
    requires s.Valid() && Enabled(s.w, PostAnchor(revision, landed))
    modifies s
    ensures s.Valid() && s.Continues() && s.quiet == old(s.quiet)
    ensures OneAnchorMore(old(s.w), s.w, revision, landed)
  {
    s.Safety();
    PostedAnchorFrames(s.w, revision, landed);
    s.Take(PostAnchor(revision, landed));
  }

  method SendAnchor(s: Supervisor, revision: Revision) returns (r: Reply<Option<RunnerId>>)
    requires s.Valid() && Enabled(s.w, PostAnchor(revision, None))
    modifies s
    ensures s.Valid() && s.Continues() && AnchorFrame(old(s.w), s.w) && s.w.gate.held == old(s.w).gate.held
    ensures s.w.anchors == old(s.w).anchors
    ensures s.quiet ==> r.Ok? && r.value.Some? && LiveAnchor(s.w, r.value.value)
    ensures s.quiet ==> s.w.remote[r.value.value].description == AnchorName(revision) && SoundAnchor(s.w, r.value.value)
    ensures r.Ok? && r.value.Some? ==> NeverLanded(s.w, r.value.value)
    ensures old(s.w).anchorPosts <= s.w.anchorPosts <= old(s.w).anchorPosts + 1
    ensures s.quiet ==> s.w.anchorPosts == old(s.w).anchorPosts + 1
    ensures s.quiet ==> SameStand(old(s.w), s.w)
  {
    var landed: Option<RunnerId>, reply: nat := *, *;
    var sent := s.Chance();
    if s.calm {
      landed, reply := Some(s.w.nextId), 0;
    }
    if !FreshId(s.w, landed) {
      landed := None;
    }
    if !sent {
      s.quiet := false;
      return Crash;
    }
    TakeAnchor(s, revision, landed);
    ghost var w1 := s.w;
    s.Interfere();
    FrameOfRely(w1, s.w);
    AnchorFrameTransitive(old(s.w), w1, s.w);
    if landed.Some? && reply == 0 {
      NeverLandedStays(w1, s.w, landed.value);
      return Ok(landed);
    }
    s.quiet := false;
    return if reply == 1 then Crash else Err;
  }
}
