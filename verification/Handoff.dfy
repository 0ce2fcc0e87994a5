/** One handoff attempt against the exact desired tuple (handoff.rs). Between
    any two of its calls everybody else may write. */
module Handoff {
  import opened Wrappers
  import opened AuthContext
  import H = HandoffStore

  datatype Progress = UpToDate | Acknowledged | Blocked | Retry | Failed

  const HANDOFF_BACKOFF_MS: int := 30_000

  /** GitHub's answer about the persisted Scale Set identity. */
  datatype Lookup =
    | ExactlyOne(id: int, runnerGroup: int)
    | NoneFound
    | Multiple
    | LookupFailed

  datatype Ownership = AccessVerified | ScaleSetAbsent | OwnershipBlocked

  /** The numeric identity GitHub gives a target. */
  datatype TargetIds = TargetIds(organizationId: Option<int>, repositoryId: Option<int>, repositoryOwnerId: Option<int>)

  /** Read-only; only an authenticated read proves absence, and a bound id or
      runner group that drifted proves nothing. */
  function ClassifyOwnership(runnerGroup: Option<int>, lookup: Lookup, boundId: Option<int>): (o: Ownership)
    ensures o.AccessVerified? <==>
              runnerGroup.Some? && lookup.ExactlyOne? && lookup.runnerGroup == runnerGroup.value &&
              (boundId.None? || boundId.value == lookup.id)
    ensures o.ScaleSetAbsent? <==> runnerGroup.Some? && lookup.NoneFound?
  {
    if runnerGroup.None? then OwnershipBlocked
    else
      match lookup
      case ExactlyOne(id, group) =>
        if (boundId.Some? && boundId.value != id) || group != runnerGroup.value then OwnershipBlocked else AccessVerified
      case NoneFound => ScaleSetAbsent
      case _ => OwnershipBlocked
  }

  /** An acknowledgement this attempt made: the world it was checked in, the
      context it wrote and the expectation it carried. */
  datatype Advance = Advance(before: H.World, ref: Ref, context: Context, e: H.Expectation)

  /** What GitHub answers during one attempt. */
  datatype Answers = Answers(routeProof: bool, runnerGroup: Option<int>, lookup: Lookup, ids: TargetIds)

  /** The desired intent completed with a target's numeric identity. */
  function CompletedIntent(e: H.Expectation, ref: Ref, target: Target, ids: TargetIds): (c: Option<Context>)
    ensures c.Some? ==> Exact(e, ref, target, c.value)
    ensures c.None? && e.desiredContext.Some? && e.desiredContext.value.Doc? ==>
              var desired := e.desiredContext.value.context;
              desired.target != target || RefOf(desired) != ref || !Completes(WithIds(desired, ids), desired)
  {
    if e.desiredContext.None? || e.desiredContext.value.Unreadable? then None
    else
      var desired := e.desiredContext.value.context;
      if desired.target != target || RefOf(desired) != ref || !Completes(WithIds(desired, ids), desired) then None
      else Some(WithIds(desired, ids))
  }

  function WithIds(c: Context, ids: TargetIds): Context {
    c.(organizationId := ids.organizationId, repositoryId := ids.repositoryId, repositoryOwnerId := ids.repositoryOwnerId)
  }

  /** The fence and the intent of a world, as an attempt would capture them. */
  function ExpectationOf(w: H.World, desired: Ref): H.Expectation
    requires w.fence.Some?
  {
    H.Expectation(w.fence.value,
                  if w.context.Some? && w.context.value.desired == Some(desired) then w.context.value.desiredContext else None)
  }

  predicate BlocksExactly(w0: H.World, authority: Ref, e: H.Expectation, now: int, p: Progress, w1: H.World) {
    p == (if H.MayBlock(w0, authority, e) then Blocked else Retry) && w1 == H.AfterBlock(w0, authority, e, now + HANDOFF_BACKOFF_MS)
  }

  predicate AcksExactly(w0: H.World, authority: Ref, e: H.Expectation, c: Context, now: int, p: Progress, w1: H.World) {
    match H.AckVerdict(w0, authority, Some(H.Doc(c)), e)
    case Acknowledged => p.Acknowledged? && w1 == H.AfterAck(w0, authority, Some(H.Doc(c)), e)
    case IdentityDrift => BlocksExactly(w0, authority, e, now, p, w1)
    case Stale => p.Retry? && w1 == w0
    case Corrupt => p.Failed? && w1 == w0
  }

  /** Undisturbed, whatever cannot be proven blocks with its deadline, and a
      completed intent is acknowledged or not as the store's verdict says. */
  predicate ProvesExactly(w0: H.World, authority: Ref, e: H.Expectation, target: Target, boundId: Option<int>, now: int,
                          a: Answers, p: Progress, w1: H.World) {
    var c := CompletedIntent(e, authority, target, a.ids);
    if !H.IsV2(w0, authority) || !a.routeProof || ClassifyOwnership(a.runnerGroup, a.lookup, boundId).OwnershipBlocked? || c.None?
    then BlocksExactly(w0, authority, e, now, p, w1)
    else AcksExactly(w0, authority, e, c.value, now, p, w1)
  }

  /** What an undisturbed attempt comes to. */
  predicate RunsExactly(w0: H.World, authority: Ref, target: Target, boundId: Option<int>, now: int, a: Answers,
                        p: Progress, w1: H.World) {
    if w0.handoff.None? then p.UpToDate? && w1 == w0
    else if w0.handoff.value.desired != authority then p.Retry? && w1 == w0
    else if w0.handoff.value.settled && w0.handoff.value.observed == Some(authority) && ContextSettled(w0, authority)
    then p.UpToDate? && w1 == w0
    else if w0.handoff.value.retryAt.Some? && now < w0.handoff.value.retryAt.value then p.Blocked? && w1 == w0
    else if w0.fence.None? then p.Retry? && w1 == w0
    else ProvesExactly(w0, authority, ExpectationOf(w0, authority), target, boundId, now, a, p, w1)
  }

  /** Whether the observed side is the desired revision's own complete context.
      An unreadable document is an error there; a coherent world holds none. */
  predicate ContextSettled(w: H.World, ref: Ref) {
    && H.IsV2(w, ref)
    && w.context.Some? && w.context.value.observedContext.Some? && w.context.value.observedContext.value.Doc?
    && var c := w.context.value.observedContext.value.context;
       w.context.value.settled && w.context.value.desired == Some(ref) && w.context.value.observed == Some(ref) &&
       RefOf(c) == ref && HasCompleteIdentity(c)
  }

  /** The handoff is for this authority, open and past its backoff. */
  predicate Due(w: H.World, authority: Ref, now: int) {
    && w.handoff.Some? && w.handoff.value.desired == authority
    && !(w.handoff.value.settled && w.handoff.value.observed == Some(authority) && ContextSettled(w, authority))
    && (w.handoff.value.retryAt.Some? ==> now >= w.handoff.value.retryAt.value)
  }

  /** Access is proven for a GitHub App revision. */
  predicate AccessProven(w: H.World, authority: Ref, boundId: Option<int>, a: Answers) {
    H.IsV2(w, authority) && a.routeProof && !ClassifyOwnership(a.runnerGroup, a.lookup, boundId).OwnershipBlocked?
  }

  /** The intent is this authority's, written under the fence in force, and
      GitHub's identity completes it without contradicting a pin. */
  predicate IntentHolds(w: H.World, authority: Ref, target: Target, a: Answers) {
    && w.fence.Some? && w.context.Some? && w.context.value.desiredFence == w.fence
    && var c := CompletedIntent(ExpectationOf(w, authority), authority, target, a.ids);
       c.Some? && !H.Drifts(w.context.value, c.value)
  }

  /** An undisturbed attempt advances the observed authority exactly if it is
      due, access is proven and the intent holds. */
  lemma AdvancesExactly(w0: H.World, authority: Ref, target: Target, boundId: Option<int>, now: int, a: Answers,
                        p: Progress, w1: H.World)
    requires H.Coherent(w0) && RunsExactly(w0, authority, target, boundId, now, a, p, w1)
    ensures p.Acknowledged? <==>
              Due(w0, authority, now) && AccessProven(w0, authority, boundId, a) && IntentHolds(w0, authority, target, a)
    ensures p.Acknowledged? ==> H.ObservedRef(w1) == Some(authority)
    ensures !p.Acknowledged? ==> H.ObservedRef(w1) == H.ObservedRef(w0) && H.ObservedContext(w1) == H.ObservedContext(w0)
  {
    if w0.fence.Some? {
      var e := ExpectationOf(w0, authority);
      var c := CompletedIntent(e, authority, target, a.ids);
      if c.Some? {
        H.AckIsExact(w0, authority, Some(H.Doc(c.value)), e);
      }
    }
  }

  class Attempt {
    var w: H.World
    ghost var run: H.Run
    /** Since this was last set nobody else has written and no call has failed. */
    ghost var quiet: bool
    ghost var advances: seq<Advance>

    ghost predicate Valid()
      reads this
    {
      H.IsRun(run) && w == run.Now()
    }

    constructor (w: H.World)
      requires H.Coherent(w)
      ensures Valid() && this.w == w && advances == [] && quiet
    {
      this.w := w;
      run := H.Run([w], []);
      advances := [];
      quiet := true;
    }

    /** A disturbance stays noticed. */
    twostate predicate Noticed()
      reads this
    {
      quiet ==> old(quiet)
    }

    lemma Coherent()
      requires Valid()
      ensures H.Coherent(w)
    {
      H.RunStaysCoherent(run, |run.steps|);
    }

    method Take(s: H.Step)
      requires Valid() && H.Enabled(w, s) && (s.Acked? ==> H.IntentNamesRef(s.e, s.ref))
      modifies this
      ensures Valid() && w == H.Apply(old(w), s) && advances == old(advances) && quiet == old(quiet)
    {
      H.RunExtends(run, s);
      run := H.Extended(run, s);
      w := H.Apply(w, s);
    }

    /** Anything others can do: Fleet changes, promotions, their own handoffs. */
    method Interfere()
      requires Valid()
      modifies this
      ensures Valid() && advances == old(advances) && Noticed() && (quiet ==> w == old(w))
    {
      var turns: nat := *;
      while turns > 0
        invariant Valid() && advances == old(advances) && Noticed() && (quiet ==> w == old(w))
      {
        var s: H.Step := *;
        if H.Enabled(w, s) && NamesItsRef(s) {
          Take(s);
          quiet := false;
        }
        turns := turns - 1;
      }
    }

    /** The store's acknowledgement. An error may have come before it, or after
        it had committed. */
    method Acknowledge(ref: Ref, context: Context, e: H.Expectation) returns (r: Result<H.Ack>)
      requires Valid() && H.IntentNamesRef(e, ref)
      modifies this
      ensures Valid() && Noticed()
      ensures quiet ==> r == Success(H.AckVerdict(old(w), ref, Some(H.Doc(context)), e))
      ensures quiet ==> w == H.AfterAck(old(w), ref, Some(H.Doc(context)), e)
      ensures r == Success(H.Acknowledged) ==> AdvancedBy(old(advances), advances, ref, context, e)
      ensures r.Success? && !r.value.Acknowledged? ==> advances == old(advances)
      ensures r.Refused? ==> advances == old(advances) || AdvancedBy(old(advances), advances, ref, context, e)
    {
      var reached: bool, answered: bool := *, *;
      Interfere();
      if !reached {
        quiet := false;
        return Refused;
      }
      Coherent();
      var ack := H.AckVerdict(w, ref, Some(H.Doc(context)), e);
      if ack.Acknowledged? {
        H.AckIsExact(w, ref, Some(H.Doc(context)), e);
        ghost var before := w;
        assert Sound(before, ref, context, e);
        Take(H.Acked(ref, Some(H.Doc(context)), e));
        advances := advances + [Advance(before, ref, context, e)];
      }
      if !answered {
        quiet := false;
        return Refused;
      }
      return Success(ack);
    }

    /** A failure is recorded only while the captured authority still holds,
        and never touches the observed side. The write may fail itself, before
        or after it committed. */
    method RecordFailure(authority: Ref, e: H.Expectation, now: int) returns (p: Progress)
      requires Valid()
      modifies this
      ensures Valid() && Noticed() && advances == old(advances) && (p.Blocked? || p.Retry? || p.Failed?)
      ensures p.Blocked? ==> exists before :: H.MayBlock(before, authority, e)
      ensures quiet ==> BlocksExactly(old(w), authority, e, now, p, w)
    {
      var reached: bool, answered: bool := *, *;
      Interfere();
      if !reached {
        quiet := false;
        return Failed;
      }
      p := Retry;
      if H.MayBlock(w, authority, e) {
        ghost var before := w;
        assert H.MayBlock(before, authority, e);
        Take(H.Blocked(authority, e, now + HANDOFF_BACKOFF_MS));
        p := Blocked;
      }
      if !answered {
        quiet := false;
        return Failed;
      }
    }

    /** The fence first, then the intent, both before GitHub is asked. */
    method Capture(desired: Ref) returns (e: Option<H.Expectation>, ghost atFence: H.World, ghost atIntent: H.World)
      requires Valid()
      modifies this
      ensures Valid() && Noticed() && advances == old(advances)
      ensures quiet ==> w == old(w) && e == if w.fence.None? then None else Some(ExpectationOf(w, desired))
      ensures e.Some? ==> Captured(e.value, desired, atFence, atIntent)
    {
      Interfere();
      atFence := w;
      var fence := w.fence;
      Interfere();
      atIntent := w;
      if fence.None? {
        return None, atFence, atIntent;
      }
      var intent := if w.context.Some? && w.context.value.desired == Some(desired) then w.context.value.desiredContext else None;
      return Some(H.Expectation(fence.value, intent)), atFence, atIntent;
    }

    /** Completes the desired intent with the target's numeric identity, or
        blocks; nothing unverified is ever handed on. */
    method ResolveExactContext(ref: Ref, e: H.Expectation, fleetTarget: Target, ids: TargetIds) returns (c: Option<Context>)
      requires Valid()
      modifies this
      ensures Valid() && Noticed() && advances == old(advances)
      ensures c.Some? ==> c == CompletedIntent(e, ref, fleetTarget, ids)
      ensures quiet ==> w == old(w) && c == CompletedIntent(e, ref, fleetTarget, ids)
    {
      if e.desiredContext.None? || e.desiredContext.value.Unreadable? {
        return None;
      }
      var desired := e.desiredContext.value.context;
      if desired.target != fleetTarget || RefOf(desired) != ref {
        return None;
      }
      var answered: bool := *;
      Interfere();
      if !answered {
        quiet := false;
        return None;
      }
      var context := desired.(organizationId := ids.organizationId, repositoryId := ids.repositoryId,
                              repositoryOwnerId := ids.repositoryOwnerId);
      if !Completes(context, desired) {
        return None;
      }
      return Some(context);
    }

    /** One durable attempt. The observed authority advances at most once, under
        the fence and the intent captured before the first remote read, and to
        a context that completes that intent: surely if the attempt says so,
        never if it says it did not, and possibly if it failed. */
    method RunHandoff(authority: Ref, fleetTarget: Target, boundId: Option<int>, now: int, a: Answers)
      returns (p: Progress, ghost e: H.Expectation, ghost atFence: H.World, ghost atIntent: H.World)
      requires Valid()
      modifies this
      ensures Valid() && Noticed()
      ensures quiet ==> RunsExactly(old(w), authority, fleetTarget, boundId, now, a, p, w)
      ensures p.UpToDate? || p.Blocked? || p.Retry? ==> advances == old(advances)
      ensures p.Acknowledged? ==> advances != old(advances)
      ensures advances != old(advances) ==>
                Captured(e, authority, atFence, atIntent) && AdvancedOnce(old(advances), advances, authority, fleetTarget, e)
    {
      e, atFence, atIntent := H.Expectation(0, None), w, w;
      var answered: bool := *;
      if !answered {
        quiet := false;
        return Failed, e, atFence, atIntent;
      }
      if w.handoff.None? {
        return UpToDate, e, atFence, atIntent;
      }
      var handoff := w.handoff.value;
      if handoff.desired != authority {
        return Retry, e, atFence, atIntent;
      }
      Interfere();
      if handoff.settled && handoff.observed == Some(handoff.desired) && ContextSettled(w, handoff.desired) {
        return UpToDate, e, atFence, atIntent;
      }
      if handoff.retryAt.Some? && now < handoff.retryAt.value {
        return Blocked, e, atFence, atIntent;
      }
      var captured;
      captured, atFence, atIntent := Capture(authority);
      if captured.None? {
        return Retry, e, atFence, atIntent;
      }
      e := captured.value;
      p := Prove(authority, captured.value, fleetTarget, boundId, now, a);
    }

    /** The remote half of an attempt. */
    method Prove(authority: Ref, e: H.Expectation, fleetTarget: Target, boundId: Option<int>, now: int, a: Answers)
      returns (p: Progress)
      requires Valid()
      modifies this
      ensures Valid() && Noticed()
      ensures quiet ==> ProvesExactly(old(w), authority, e, fleetTarget, boundId, now, a, p, w)
      ensures !p.UpToDate?
      ensures p.Blocked? || p.Retry? ==> advances == old(advances)
      ensures p.Acknowledged? ==> advances != old(advances)
      ensures advances != old(advances) ==> AdvancedOnce(old(advances), advances, authority, fleetTarget, e)
    {
      var read: bool := *;
      Interfere();
      if !read {
        quiet := false;
        return Failed;
      }
      if !H.IsV2(w, authority) || !a.routeProof || ClassifyOwnership(a.runnerGroup, a.lookup, boundId).OwnershipBlocked? {
        p := RecordFailure(authority, e, now);
        return;
      }
      var context := ResolveExactContext(authority, e, fleetTarget, a.ids);
      if context.None? {
        p := RecordFailure(authority, e, now);
        return;
      }
      var ack := Acknowledge(authority, context.value, e);
      if ack.Refused? {
        return Failed;
      }
      match ack.value
      case Acknowledged => return Acknowledged;
      case IdentityDrift => p := RecordFailure(authority, e, now);
      case Stale => return Retry;
      case Corrupt => return Failed;
    }
  }

  /** Every attempt, also a concurrent one, acknowledges only an intent that
      names the revision it is for. */
  predicate NamesItsRef(s: H.Step) {
    s.Acked? && s.e.desiredContext.Some? && s.e.desiredContext.value.Doc? ==>
      RefOf(s.e.desiredContext.value.context) == s.ref
  }

  /** The moment of an acknowledgement: the captured authority still holds and
      no pin drifts. */
  predicate Sound(before: H.World, ref: Ref, context: Context, e: H.Expectation) {
    H.Coherent(before) && H.AckVerdict(before, ref, Some(H.Doc(context)), e).Acknowledged?
  }

  /** The one advance an acknowledgement made. */
  ghost predicate AdvancedBy(before: seq<Advance>, after: seq<Advance>, ref: Ref, context: Context, e: H.Expectation) {
    exists at :: Sound(at, ref, context, e) && after == before + [Advance(at, ref, context, e)]
  }

  /** Exactly one advance more, and what it rests on. */
  predicate AdvancedOnce(before: seq<Advance>, after: seq<Advance>, authority: Ref, target: Target, e: H.Expectation) {
    && |after| == |before| + 1 && after[..|before|] == before
    && AdvancedUnder(after[|before|], authority, target, e)
  }

  predicate Captured(e: H.Expectation, desired: Ref, atFence: H.World, atIntent: H.World) {
    && atFence.fence == Some(e.fence)
    && (e.desiredContext.Some? ==>
          atIntent.context.Some? && atIntent.context.value.desired == Some(desired) &&
          atIntent.context.value.desiredContext == e.desiredContext)
  }

  predicate Exact(e: H.Expectation, ref: Ref, target: Target, c: Context) {
    && e.desiredContext.Some? && e.desiredContext.value.Doc?
    && RefOf(e.desiredContext.value.context) == ref && RefOf(c) == ref && c.target == target
    && Completes(c, e.desiredContext.value.context)
  }

  /** What an advance rests on. */
  predicate AdvancedUnder(a: Advance, authority: Ref, target: Target, e: H.Expectation) {
    && a.ref == authority && a.e == e
    && H.StillDesired(a.before, authority, e) && H.IsV2(a.before, authority)
    && Exact(e, authority, target, a.context)
    && !H.Drifts(a.before.context.value, a.context)
  }
}
