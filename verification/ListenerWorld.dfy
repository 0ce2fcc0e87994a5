/** The session side of one Fleet listener as a state machine: what it
    remembers, the durable session row, the broker, and the Fleet's effect
    gate (listener_session.rs, listener_poll.rs, listener.rs; the row writes
    are those of lifecycle_sessions.rs). */
module ListenerWorld {
  import opened Wrappers

  type SessionId = nat
  type Epoch = nat

  datatype Session = Session(epoch: Epoch, id: SessionId, scaleSet: int)

  /** A session the broker handed out and nobody has installed yet. */
  datatype Handle = Handle(id: SessionId, scaleSet: int)

  /** The durable row outlives its session: clearing bumps the epoch. */
  datatype Row = Row(epoch: Epoch, active: Option<Session>)

  datatype Memory = Memory(
    session: Option<Session>,
    uncommitted: Option<Handle>,
    retryAt: int,
    failures: nat,
    failing: bool,
    enabled: bool,
    reconnect: bool,
    stopped: bool)

  datatype Gate = Gate(exclusive: bool, shared: nat)

  /** `established` are the sessions the broker definitely handed to this
      process, `closed` those that are no longer there, `seen` the epochs this
      listener has remembered, `posts` what was still open at each
      establishment request. */
  datatype World = World(
    mem: Memory,
    row: Option<Row>,
    gate: Gate,
    established: set<SessionId>,
    closed: set<SessionId>,
    seen: set<Epoch>,
    posts: seq<set<SessionId>>)

  datatype Step =
    | LockExclusive
    | UnlockExclusive
    | LockShared
    | UnlockShared
    // under the exclusive gate
    | CloseRemote(id: SessionId)
    | DropUncommitted
    | ClearRow(epoch: Epoch)
    | Forget
    | Establish(handle: Handle)
    | PostWithoutReply
    | Install
    | Adopt
    | Enable(on: bool)
    | Stopped(yes: bool)
    | FailUnder(expired: bool, retryAt: int)
    | NoteReason
    // polling
    | MarkReconnect(epoch: Epoch)
    | FailSession(epoch: Epoch, expired: bool, retryAt: int)
    | Recover(epoch: Epoch)
    // the broker
    | Expire(id: SessionId)

  function ActiveOf(row: Option<Row>): Option<Session> {
    if row.None? then None else row.value.active
  }

  function EpochAfter(row: Option<Row>): Epoch {
    if row.None? then 1 else row.value.epoch + 1
  }

  /** The listener remembers exactly this epoch. */
  predicate Remembers(w: World, epoch: Epoch) {
    w.mem.session.Some? && w.mem.session.value.epoch == epoch
  }

  /** The row holds an active session of exactly this epoch. */
  predicate RowIsAt(w: World, epoch: Epoch) {
    w.row.Some? && w.row.value.epoch == epoch && w.row.value.active.Some?
  }

  predicate NothingHeld(w: World) {
    w.mem.uncommitted.None? && ActiveOf(w.row).None?
  }

  predicate Enabled(w: World, s: Step) {
    match s
    case LockExclusive => !w.gate.exclusive && w.gate.shared == 0
    case UnlockExclusive => w.gate.exclusive
    case LockShared => !w.gate.exclusive
    case UnlockShared => w.gate.shared > 0
    case CloseRemote(_) => w.gate.exclusive
    case DropUncommitted => w.gate.exclusive && w.mem.uncommitted.Some? && w.mem.uncommitted.value.id in w.closed
    case ClearRow(epoch) => w.gate.exclusive && (RowIsAt(w, epoch) ==> w.row.value.active.value.id in w.closed)
    case Forget => w.gate.exclusive && (w.mem.session.Some? ==> w.row.Some? && w.mem.session.value.epoch < w.row.value.epoch)
    case Establish(handle) => w.gate.exclusive && NothingHeld(w) && handle.id !in w.established && handle.id !in w.closed
    case PostWithoutReply => w.gate.exclusive && NothingHeld(w)
    case Install => w.gate.exclusive && w.mem.uncommitted.Some? && ActiveOf(w.row).None?
    case Adopt =>
      w.gate.exclusive && w.mem.uncommitted.Some? && ActiveOf(w.row).Some? &&
      ActiveOf(w.row).value.id == w.mem.uncommitted.value.id
    case Enable(_) => w.gate.exclusive
    case Stopped(_) => w.gate.exclusive
    case FailUnder(_, _) => w.gate.exclusive
    case NoteReason => w.gate.exclusive
    case MarkReconnect(epoch) => w.gate.shared > 0 && Remembers(w, epoch) && RowIsAt(w, epoch)
    case FailSession(epoch, _, _) => Remembers(w, epoch)
    case Recover(epoch) => Remembers(w, epoch)
    case Expire(_) => true
  }

  function Failed(m: Memory, expired: bool, retryAt: int): Memory {
    m.(reconnect := m.reconnect || expired, enabled := m.enabled && !expired,
       failures := m.failures + 1, failing := true, retryAt := retryAt)
  }

  function Apply(w: World, s: Step): World {
    match s
    case LockExclusive => w.(gate := w.gate.(exclusive := true))
    case UnlockExclusive => w.(gate := w.gate.(exclusive := false))
    case LockShared => w.(gate := w.gate.(shared := w.gate.shared + 1))
    case UnlockShared => w.(gate := w.gate.(shared := if w.gate.shared > 0 then w.gate.shared - 1 else 0))
    case CloseRemote(id) => w.(closed := w.closed + {id})
    case DropUncommitted => w.(mem := w.mem.(uncommitted := None))
    case ClearRow(epoch) =>
      if w.row.Some? && w.row.value.epoch == epoch then w.(row := Some(Row(epoch + 1, None))) else w
    case Forget => w.(mem := w.mem.(session := None))
    case Establish(handle) =>
      w.(mem := w.mem.(uncommitted := Some(handle)), posts := w.posts + [w.established - w.closed],
         established := w.established + {handle.id})
    case PostWithoutReply => w.(posts := w.posts + [w.established - w.closed])
    case Install =>
      if w.mem.uncommitted.None? then w
      else
        var epoch, h := EpochAfter(w.row), w.mem.uncommitted.value;
        w.(row := Some(Row(epoch, Some(Session(epoch, h.id, h.scaleSet)))))
    case Adopt =>
      if ActiveOf(w.row).None? then w
      else
        w.(mem := Memory(ActiveOf(w.row), None, 0, 0, false, true, false, false),
           seen := w.seen + {ActiveOf(w.row).value.epoch})
    case Enable(on) => w.(mem := w.mem.(enabled := on))
    case Stopped(yes) => w.(mem := w.mem.(stopped := yes))
    case FailUnder(expired, retryAt) => w.(mem := Failed(w.mem, expired, retryAt))
    case NoteReason => w.(mem := w.mem.(failing := true))
    case MarkReconnect(_) => w.(mem := w.mem.(reconnect := true))
    case FailSession(_, expired, retryAt) => w.(mem := Failed(w.mem, expired, retryAt))
    case Recover(_) => w.(mem := w.mem.(retryAt := 0, failing := false, failures := 0))
    case Expire(id) => w.(closed := w.closed + {id})
  }

  // ---- What every run keeps ----

  /** Every session the broker definitely established is gone, installed, or
      the one uncommitted handle. */
  predicate Accounted(w: World) {
    forall id <- w.established ::
      || id in w.closed
      || (ActiveOf(w.row).Some? && ActiveOf(w.row).value.id == id)
      || (w.mem.uncommitted.Some? && w.mem.uncommitted.value.id == id)
  }

  /** No establishment request was ever sent with an earlier session open. */
  predicate NothingOpenAtPost(w: World) {
    forall i :: 0 <= i < |w.posts| ==> w.posts[i] == {}
  }

  /** Epochs never come back: a remembered epoch that is still the row's is
      still remembered. */
  predicate EpochsAreCurrent(w: World) {
    && (ActiveOf(w.row).Some? ==> ActiveOf(w.row).value.epoch == w.row.value.epoch)
    && (w.mem.session.Some? ==> w.mem.session.value.epoch in w.seen)
    && (forall e <- w.seen :: w.row.Some? && e <= w.row.value.epoch)
    && (forall e <- w.seen :: RowIsAt(w, e) ==> w.mem.session == w.row.value.active)
    && (forall e <- w.seen :: e == w.row.value.epoch ==> RowIsAt(w, e))
  }

  predicate GateExcludes(g: Gate) {
    g.exclusive ==> g.shared == 0
  }

  predicate Inv(w: World) {
    Accounted(w) && NothingOpenAtPost(w) && EpochsAreCurrent(w) && GateExcludes(w.gate)
  }

  lemma StepKeepsInv(w: World, s: Step)
    requires Inv(w) && Enabled(w, s)
    ensures Inv(Apply(w, s))
  {
    var w' := Apply(w, s);
    assert Accounted(w') by {
      AccountingKept(w, s);
    }
    assert EpochsAreCurrent(w') by {
      EpochsKept(w, s);
    }
    if s.Establish? || s.PostWithoutReply? {
      assert w.established - w.closed == {};
    }
  }

  lemma AccountingKept(w: World, s: Step)
    requires Accounted(w) && Enabled(w, s)
    ensures Accounted(Apply(w, s))
  {
  }

  lemma EpochsKept(w: World, s: Step)
    requires EpochsAreCurrent(w) && Enabled(w, s)
    ensures EpochsAreCurrent(Apply(w, s))
  {
  }

  /** At the moment of an establishment request every session established
      before it is gone. */
  lemma PostFollowsClosure(w: World, s: Step)
    requires Inv(w) && Enabled(w, s) && (s.Establish? || s.PostWithoutReply?)
    ensures w.established <= w.closed
    ensures Apply(w, s).posts == w.posts + [{}]
  {
    assert w.established - w.closed == {};
  }

  // ---- Runs ----

  datatype Run = Run(worlds: seq<World>, steps: seq<Step>) {
    predicate Shaped() {
      |worlds| == |steps| + 1
    }

    function Now(): World
      requires Shaped()
    {
      worlds[|steps|]
    }

    ghost predicate Taken(i: nat)
      requires Shaped() && i < |steps|
    {
      Enabled(worlds[i], steps[i]) && worlds[i + 1] == Apply(worlds[i], steps[i])
    }
  }

  /** A listener that starts over whatever row its predecessors left. */
  function Start(row: Option<Row>): World {
    World(Memory(None, None, 0, 0, false, false, false, false), row, Gate(false, 0), {}, {}, {}, [])
  }

  predicate WellFormedRow(row: Option<Row>) {
    ActiveOf(row).Some? ==> ActiveOf(row).value.epoch == row.value.epoch
  }

  ghost predicate IsRun(row: Option<Row>, run: Run) {
    && WellFormedRow(row) && run.Shaped() && run.worlds[0] == Start(row)
    && forall i :: 0 <= i < |run.steps| ==> run.Taken(i)
  }

  function Extended(run: Run, s: Step): Run
    requires run.Shaped()
  {
    Run(run.worlds + [Apply(run.Now(), s)], run.steps + [s])
  }

  lemma RunExtends(row: Option<Row>, run: Run, s: Step)
    requires IsRun(row, run) && Enabled(run.Now(), s)
    ensures IsRun(row, Extended(run, s)) && Extended(run, s).Now() == Apply(run.Now(), s)
  {
    var more := Extended(run, s);
    forall i | 0 <= i < |more.steps| ensures more.Taken(i) {
      if i < |run.steps| {
        assert run.Taken(i);
      }
    }
  }

  /** Any interleaving of polls, replacements, stops and broker expiries: no
      definitely established session is ever lost track of, and none is asked
      for while an earlier one is open. */
  lemma {:induction false} EveryRunIsAccounted(row: Option<Row>, run: Run, n: nat)
    requires IsRun(row, run) && n <= |run.steps|
    ensures Inv(run.worlds[n])
  {
    if n > 0 {
      EveryRunIsAccounted(row, run, n - 1);
      assert run.Taken(n - 1);
      StepKeepsInv(run.worlds[n - 1], run.steps[n - 1]);
    }
  }

  // ---- Who may act when ----

  predicate SessionSide(s: Step) {
    s.CloseRemote? || s.DropUncommitted? || s.ClearRow? || s.Forget? || s.Establish? || s.PostWithoutReply? ||
    s.Install? || s.Adopt? || s.Enable? || s.Stopped? || s.FailUnder? || s.NoteReason?
  }

  /** Everything that makes up who owns which session. */
  predicate SameSession(w0: World, w1: World) {
    && w1.mem.session == w0.mem.session && w1.mem.uncommitted == w0.mem.uncommitted && w1.row == w0.row
    && w1.seen == w0.seen && w1.established == w0.established && w1.posts == w0.posts && w0.closed <= w1.closed
    && w1.mem.stopped == w0.mem.stopped && (w0.mem.reconnect ==> w1.mem.reconnect)
    && (w1.mem.enabled ==> w0.mem.enabled)
  }

  /** The exclusive gate's holder is alone with the sessions, and so is anyone
      holding a shared claim. */
  lemma SessionsAreStable(w: World, s: Step)
    requires Enabled(w, s) && !SessionSide(s)
    ensures SameSession(w, Apply(w, s))
  {
  }
}
