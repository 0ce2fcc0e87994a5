/** The durable side of the Auth handoff of one Fleet: the acknowledging
    compare-and-swap, the fenced failure write, and what every run of them and
    of everyone else's writes keeps (fleet_auth_ack.rs, fleet_auth_repo.rs). */
module HandoffStore {
  import opened Wrappers
  import opened AuthContext

  /** A stored context document. */
  datatype Json = Unreadable(text: string) | Doc(context: Context)

  datatype Handoff = Handoff(desired: Ref, observed: Option<Ref>, settled: bool, retryAt: Option<int>)

  datatype ContextRow = ContextRow(
    desired: Option<Ref>,
    desiredContext: Option<Json>,
    desiredFence: Option<int>,
    observed: Option<Ref>,
    observedContext: Option<Json>,
    settled: bool)

  /** `revisions` says of each Auth revision whether it is a GitHub App v2 row. */
  datatype World = World(
    fence: Option<int>, handoff: Option<Handoff>, context: Option<ContextRow>, revisions: map<Ref, bool>)

  /** What an attempt captured before it asked GitHub anything. */
  datatype Expectation = Expectation(fence: int, desiredContext: Option<Json>)

  datatype Ack = Acknowledged | Stale | IdentityDrift | Corrupt

  predicate IsV2(w: World, r: Ref) {
    r in w.revisions && w.revisions[r]
  }

  // ---- The compare-and-swap ----

  /** The head, the intent and the fences are still the captured ones. */
  predicate StillDesired(w: World, ref: Ref, e: Expectation) {
    && w.handoff.Some? && w.handoff.value.desired == ref
    && w.fence == Some(e.fence) && ref in w.revisions
    && w.context.Some? && w.context.value.desired == Some(ref)
    && w.context.value.desiredContext == e.desiredContext
    && w.context.value.desiredFence == w.fence
  }

  /** Evidence already on record is readable, complete and the one the handoff
      row refers to. */
  predicate EvidenceSound(w: World, h: Handoff, row: ContextRow) {
    row.observedContext.Some? ==>
      && row.observedContext.value.Doc?
      && var o := row.observedContext.value.context;
         row.observed == Some(RefOf(o)) && HasCompleteIdentity(o) && h.observed == Some(RefOf(o)) && IsV2(w, RefOf(o))
  }

  /** The same target never changes its pinned identity. */
  predicate Drifts(row: ContextRow, verified: Context) {
    row.observedContext.Some? && row.observedContext.value.Doc? &&
    row.observedContext.value.context.target == verified.target && !PinsAgree(row.observedContext.value.context, verified)
  }

  /** The verdict, check by check, before anything is written. */
  function AckVerdict(w: World, ref: Ref, context: Option<Json>, e: Expectation): Ack {
    if w.handoff.None? then Corrupt
    else if w.handoff.value.desired != ref || w.fence != Some(e.fence) || ref !in w.revisions then Stale
    else if !w.revisions[ref] then Corrupt
    else if context.None? || w.context.None? then Stale
    else
      var row := w.context.value;
      if row.desired != Some(ref) || row.desiredContext != e.desiredContext || row.desiredFence != w.fence then Stale
      else if context.value.Unreadable? then Corrupt
      else if row.desiredContext.None? then Stale
      else if row.desiredContext.value.Unreadable? then Corrupt
      else if !Completes(context.value.context, row.desiredContext.value.context) then IdentityDrift
      else if !EvidenceSound(w, w.handoff.value, row) then Corrupt
      else if Drifts(row, context.value.context) then IdentityDrift
      else Acknowledged
  }

  /** Both observed sides move together, or nothing does. */
  function AfterAck(w: World, ref: Ref, context: Option<Json>, e: Expectation): World {
    if AckVerdict(w, ref, context, e) != Acknowledged then w
    else
      w.(handoff := Some(w.handoff.value.(observed := Some(ref), settled := true, retryAt := None)),
         context := Some(w.context.value.(observed := Some(ref), observedContext := context, settled := true)))
  }

  /** One conditional write under the same captured authority. */
  predicate MayBlock(w: World, ref: Ref, e: Expectation) {
    && w.handoff.Some? && w.handoff.value.desired == ref && w.fence == Some(e.fence)
    && (if w.context.None? then None else w.context.value.desiredContext) == e.desiredContext
  }

  function AfterBlock(w: World, ref: Ref, e: Expectation, retryAt: int): World {
    if !MayBlock(w, ref, e) then w
    else w.(handoff := Some(w.handoff.value.(settled := false, retryAt := Some(retryAt))))
  }

  // ---- The observed side ----

  function ObservedContext(w: World): Option<Json> {
    if w.context.None? then None else w.context.value.observedContext
  }

  function ObservedRef(w: World): Option<Ref> {
    if w.handoff.None? then None else w.handoff.value.observed
  }

  /** Everyone else rewrites intents, fences and states; the observed side
      belongs to the acknowledgement alone, and revisions never change kind. */
  predicate ObservedKept(w: World, w': World) {
    && ObservedContext(w') == ObservedContext(w)
    && ObservedRef(w') == ObservedRef(w)
    && (w.context.Some? ==> w'.context.Some? && w'.context.value.observed == w.context.value.observed)
    && (w.context.None? && w'.context.Some? ==> w'.context.value.observed.None?)
    && (forall r :: r in w.revisions ==> r in w'.revisions && w'.revisions[r] == w.revisions[r])
  }

  datatype Step =
    | Acked(ref: Ref, context: Option<Json>, e: Expectation)
    | Blocked(ref: Ref, e: Expectation, retryAt: int)
    | Mutated(next: World)

  predicate Enabled(w: World, s: Step) {
    s.Mutated? ==> ObservedKept(w, s.next)
  }

  function Apply(w: World, s: Step): World {
    match s
    case Acked(ref, context, e) => AfterAck(w, ref, context, e)
    case Blocked(ref, e, retryAt) => AfterBlock(w, ref, e, retryAt)
    case Mutated(next) => next
  }

  /** The observed side is either empty or one complete, readable context that
      both rows refer to. */
  predicate Coherent(w: World) {
    match ObservedContext(w)
    case None => ObservedRef(w).None? && (w.context.Some? ==> w.context.value.observed.None?)
    case Some(json) =>
      && json.Doc? && HasCompleteIdentity(json.context)
      && ObservedRef(w) == Some(RefOf(json.context))
      && w.context.value.observed == Some(RefOf(json.context))
      && IsV2(w, RefOf(json.context))
  }

  /** An acknowledgement happens exactly when the captured authority still
      holds, the context completes what was desired, and no pin drifts. */
  lemma AckIsExact(w: World, ref: Ref, context: Option<Json>, e: Expectation)
    requires Coherent(w)
    ensures AckVerdict(w, ref, context, e) == Acknowledged <==>
              && StillDesired(w, ref, e) && IsV2(w, ref)
              && context.Some? && context.value.Doc?
              && e.desiredContext.Some? && e.desiredContext.value.Doc?
              && Completes(context.value.context, e.desiredContext.value.context)
              && !Drifts(w.context.value, context.value.context)
  {
  }

  /** The desired intent names the desired revision. */
  predicate IntentNamesRef(e: Expectation, ref: Ref) {
    e.desiredContext.Some? && e.desiredContext.value.Doc? ==> RefOf(e.desiredContext.value.context) == ref
  }

  lemma StepKeepsCoherent(w: World, s: Step)
    requires Coherent(w) && Enabled(w, s)
    requires s.Acked? ==> IntentNamesRef(s.e, s.ref)
    ensures Coherent(Apply(w, s))
  {
  }

  /** Only a successful acknowledgement changes the observed side, and while
      the target stays the same it keeps the target's numeric identity. */
  lemma ObservedMovesOnlyByAck(w: World, s: Step)
    requires Coherent(w) && Enabled(w, s) && (s.Acked? ==> IntentNamesRef(s.e, s.ref))
    ensures var w' := Apply(w, s);
            && (ObservedContext(w') != ObservedContext(w) || ObservedRef(w') != ObservedRef(w) ==>
                  s.Acked? && AckVerdict(w, s.ref, s.context, s.e) == Acknowledged &&
                  ObservedRef(w') == Some(s.ref) && ObservedContext(w') == s.context)
            && (ObservedContext(w).Some? ==> ObservedContext(w').Some?)
            && (ObservedContext(w).Some? && SameTarget(w, w') ==> SameIdentity(w, w'))
  {
    StepKeepsCoherent(w, s);
  }

  function Observed(w: World): Context
    requires Coherent(w) && ObservedContext(w).Some?
  {
    ObservedContext(w).value.context
  }

  predicate SameTarget(w: World, w': World) {
    && Coherent(w) && Coherent(w') && ObservedContext(w).Some? && ObservedContext(w').Some?
    && Observed(w).target == Observed(w').target
  }

  /** The numeric identity of the target; the installation and the display
      name may be replaced. */
  predicate SameIdentity(w: World, w': World)
    requires Coherent(w) && Coherent(w') && ObservedContext(w).Some? && ObservedContext(w').Some?
  {
    var a, b := Observed(w), Observed(w');
    && a.accountId == b.accountId && a.accountKind == b.accountKind && a.organizationId == b.organizationId
    && a.repositoryId == b.repositoryId && a.repositoryOwnerId == b.repositoryOwnerId
  }

  // ---- Runs ----

  datatype Run = Run(worlds: seq<World>, steps: seq<Step>) {
    predicate Shaped() {
      |worlds| == |steps| + 1
    }

    function Now(): World
      requires Shaped()
    {
      worlds[|steps|]
    }

    ghost predicate Taken(i: nat)
      requires Shaped() && i < |steps|
    {
      && Enabled(worlds[i], steps[i])
      && (steps[i].Acked? ==> IntentNamesRef(steps[i].e, steps[i].ref))
      && worlds[i + 1] == Apply(worlds[i], steps[i])
    }
  }

  ghost predicate IsRun(run: Run) {
    run.Shaped() && Coherent(run.worlds[0]) && forall i :: 0 <= i < |run.steps| ==> run.Taken(i)
  }

  lemma {:induction false} RunStaysCoherent(run: Run, n: nat)
    requires IsRun(run) && n <= |run.steps|
    ensures Coherent(run.worlds[n])
  {
    if n > 0 {
      RunStaysCoherent(run, n - 1);
      assert run.Taken(n - 1);
      StepKeepsCoherent(run.worlds[n - 1], run.steps[n - 1]);
    }
  }

  /** Over any run in which the observed target stays the same, its numeric
      identity does too: no rebuild or transfer under the same name is ever
      accepted, however intents, fences and revisions are rewritten meanwhile. */
  lemma {:induction false} IdentityIsPinned(run: Run, m: nat, n: nat)
    requires IsRun(run) && m <= n <= |run.steps|
    requires forall k :: m <= k <= n ==> SameTarget(run.worlds[m], run.worlds[k])
    ensures SameTarget(run.worlds[m], run.worlds[n]) && SameIdentity(run.worlds[m], run.worlds[n])
    decreases n - m
  {
    assert SameTarget(run.worlds[m], run.worlds[m]) && SameTarget(run.worlds[m], run.worlds[n]);
    if m < n {
      IdentityIsPinned(run, m, n - 1);
      assert run.Taken(n - 1);
      assert SameTarget(run.worlds[m], run.worlds[n - 1]);
      ObservedMovesOnlyByAck(run.worlds[n - 1], run.steps[n - 1]);
    }
  }

  function Extended(run: Run, s: Step): Run
    requires run.Shaped()
  {
    Run(run.worlds + [Apply(run.Now(), s)], run.steps + [s])
  }

  lemma RunExtends(run: Run, s: Step)
    requires IsRun(run) && Enabled(run.Now(), s) && (s.Acked? ==> IntentNamesRef(s.e, s.ref))
    ensures IsRun(Extended(run, s)) && Extended(run, s).Now() == Apply(run.Now(), s)
  {
    var more := Extended(run, s);
    forall i | 0 <= i < |more.steps| ensures more.Taken(i) {
      if i < |run.steps| {
        assert run.Taken(i);
      }
    }
  }
}
