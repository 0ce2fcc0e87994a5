/** One Fleet listener: session replacement and stop under the exclusive gate,
    long polling with its effects under shared claims (listener_session.rs,
    listener_poll.rs, listener.rs). A wait that never ends is a refusal without
    effect. */
module Listener {
  import opened Int64
  import opened Wrappers
  import opened ListenerWorld

  /** GitHub's failures, as far as the listener tells them apart. */
  datatype Failure = SessionExpired | RateLimited(delayMs: int) | RequestUncertain | HiddenOrNotFound | OtherFailure

  // ---- Backoff ----

  function PowerOfTwo(n: nat): nat {
    if n == 0 then 1 else 2 * PowerOfTwo(n - 1)
  }

  /** Seconds of backoff after this many consecutive failures. */
  function BackoffSeconds(failures: nat): nat {
    5 * PowerOfTwo(if failures < 5 then failures else 5)
  }

  function RetryDelay(failures: nat, f: Failure): int {
    if f.RateLimited? then Max(f.delayMs, BackoffSeconds(failures) * 1000) else BackoffSeconds(failures) * 1000
  }

  function RetryAt(now: int, failures: nat, f: Failure, jitter: int): int {
    Saturate(Saturate(now + RetryDelay(failures, f)) + jitter)
  }

  lemma {:induction false} PowerGrows(m: nat, n: nat)
    requires m <= n
    ensures 1 <= PowerOfTwo(m) <= PowerOfTwo(n)
    decreases n
  {
    if m < n {
      PowerGrows(m, n - 1);
    } else if n > 0 {
      PowerGrows(n - 1, n - 1);
    }
  }

  /** From ten seconds after the first failure, never shorter after more, never
      more than 160 seconds unless GitHub asks for a longer pause. */
  lemma BackoffIsBounded(failures: nat, more: nat, f: Failure)
    requires 1 <= failures <= more
    ensures 10_000 <= RetryDelay(failures, f) <= RetryDelay(more, f)
    ensures RetryDelay(more, f) <= 160_000 || (f.RateLimited? && RetryDelay(more, f) == f.delayMs)
  {
    PowerGrows(1, if failures < 5 then failures else 5);
    PowerGrows(if failures < 5 then failures else 5, if more < 5 then more else 5);
    PowerGrows(if more < 5 then more else 5, 5);
    assert PowerOfTwo(5) == 32 && PowerOfTwo(1) == 2;
  }

  /** The remembered session still serves: no new one is wanted for this scale
      set and the row is still its own. */
  predicate Keeps(w: World, scaleSet: int) {
    && w.mem.session.Some? && !w.mem.reconnect && w.mem.session.value.scaleSet == scaleSet
    && RowIsAt(w, w.mem.session.value.epoch)
  }

  /** An undisturbed turn of the session side: nothing during the backoff or
      without authority; otherwise the session that still serves, without any
      request, or exactly one request for another. */
  predicate EnsuresExactly(w0: World, scaleSet: int, authorized: bool, now: int, r: Result<Option<Epoch>>, w1: World) {
    if now < w0.mem.retryAt || !authorized then r == Success(None) && w1.posts == w0.posts && w1.row == w0.row
    else if Keeps(w0, scaleSet)
    then r == Success(Some(w0.mem.session.value.epoch)) && w1.posts == w0.posts && w1.row == w0.row
    else r.Success? && r.value.Some? && w1.posts == w0.posts + [{}]
  }

  /** What a claimed message's calls answer: the authority check, the broker's
      acknowledgement, its row, the start of the acquisition and whether there
      is anything to acquire, the acquisition and its completion. */
  datatype Replies = Replies(authorized: bool, ack: Option<Failure>, acknowledged: bool, started: bool, requests: bool,
                             acquire: Option<Failure>, completed: bool)

  /** What one long poll brings. */
  datatype PollReply = PollReply(authorized: bool, failure: Option<Failure>, message: Option<Replies>, ingested: bool)

  function AfterFailure(w: World, epoch: Epoch, f: Failure, now: int, jitter: int): World {
    Apply(w, FailSession(epoch, f.SessionExpired?, RetryAt(now, w.mem.failures + 1, f, jitter)))
  }

  function AfterLostReply(w: World, epoch: Epoch, f: Failure, reconnect: bool, now: int, jitter: int): World {
    AfterFailure(if reconnect then Apply(w, MarkReconnect(epoch)) else w, epoch, f, now, jitter)
  }

  predicate AcquiresExactly(w0: World, epoch: Epoch, replies: Replies, now: int, jitter: int, r: Result<bool>, w1: World) {
    if !replies.started then r == Success(false) && w1 == w0
    else if !replies.requests then r == Success(true) && w1 == w0
    else if replies.acquire.None? then r == Success(replies.completed) && w1 == w0
    else
      && r == Success(false)
      && w1 == AfterLostReply(w0, epoch, replies.acquire.value, replies.acquire.value.RequestUncertain?, now, jitter)
  }

  /** Undisturbed, a message is finished for the current epoch only. A lost
      acknowledgement, also one whose message is gone, and a lost acquisition
      ask for a new session; any other failure only backs off. */
  predicate FinishesExactly(w0: World, epoch: Epoch, acked: bool, replies: Replies, now: int, jitter: int,
                            r: Result<bool>, w1: World) {
    if !(replies.authorized && RowIsAt(w0, epoch)) then r == Success(false) && w1 == w0
    else if !acked && replies.ack.Some? then
      && r == Success(false)
      && w1 == AfterLostReply(w0, epoch, replies.ack.value,
                              replies.ack.value.RequestUncertain? || replies.ack.value.HiddenOrNotFound?, now, jitter)
    else if !acked && !replies.acknowledged then r == Success(false) && w1 == w0
    else AcquiresExactly(w0, epoch, replies, now, jitter, r, w1)
  }

  /** Taking the claim and dropping it again changes nothing else. */
  lemma ClaimIsNeutral(w0: World, w1: World, w2: World, w3: World, epoch: Epoch, acked: bool, replies: Replies, now: int,
                       jitter: int, r: Result<bool>)
    requires w1 == Apply(w0, LockShared) && w3 == Apply(w2, UnlockShared)
    requires FinishesExactly(w1, epoch, acked, replies, now, jitter, r, w2)
    ensures FinishesExactly(w0, epoch, acked, replies, now, jitter, r, w3)
  {
  }

  predicate MayPoll(w: World, now: int) {
    w.mem.enabled && !w.mem.reconnect && now >= w.mem.retryAt && w.mem.session.Some?
  }

  /** Every call for this message comes through. */
  predicate Smooth(acked: bool, replies: Replies) {
    && replies.authorized && (acked || (replies.ack.None? && replies.acknowledged)) && replies.started
    && (replies.requests ==> replies.acquire.None? && replies.completed)
  }

  predicate AllSmooth(pending: seq<(bool, Replies)>) {
    forall k :: 0 <= k < |pending| ==> Smooth(pending[k].0, pending[k].1)
  }

  /** An undisturbed poll: its failure is recorded; without a message, or with
      one that is finished, it clears the failure state; a message that is not
      ingested ends it. */
  predicate PollsExactly(w0: World, epoch: Epoch, poll: PollReply, now: int, jitter: int, w1: World) {
    if poll.failure.Some? then w1 == AfterFailure(w0, epoch, poll.failure.value, now, jitter)
    else if poll.message.None? then w1 == Apply(w0, Recover(epoch))
    else if !poll.ingested then w1 == w0
    else if Smooth(false, poll.message.value) then w1 == Apply(w0, Recover(epoch))
    else FinishesExactly(w0, epoch, false, poll.message.value, now, jitter, Success(false), w1)
  }

  /** Without authority, or over a row that moved on, nothing is done; with
      every pending message finished the poll takes place. */
  predicate InnerExactly(w0: World, epoch: Epoch, pending: seq<(bool, Replies)>, poll: PollReply, now: int, jitter: int,
                         w1: World, polled: bool) {
    && (!(poll.authorized && RowIsAt(w0, epoch)) ==> w1 == w0 && !polled)
    && (poll.authorized && Serves(w0, epoch) ==> polled == AllSmooth(pending))
    && (poll.authorized && Serves(w0, epoch) && polled ==> PollsExactly(w0, epoch, poll, now, jitter, w1))
  }

  /** The remembered session is the row's own. */
  predicate Serves(w: World, epoch: Epoch) {
    !w.gate.exclusive && RowIsAt(w, epoch) && Remembers(w, epoch)
  }

  class FleetListener {
    var w: World
    ghost const firstRow: Option<Row>
    ghost var run: Run
    /** Since this was last set nobody else has acted and no call has failed. */
    ghost var quiet: bool
    /** How many long polls were sent. */
    ghost var polls: nat

    ghost predicate Valid()
      reads this
    {
      IsRun(firstRow, run) && w == run.Now()
    }

    /** A disturbance stays noticed, and no poll was sent. */
    twostate predicate Noticed()
      reads this
    {
      (quiet ==> old(quiet)) && polls == old(polls)
    }

    constructor (row: Option<Row>)
      requires WellFormedRow(row)
      ensures Valid() && w == Start(row) && quiet
    {
      quiet := true;
      polls := 0;
      firstRow := row;
      w := Start(row);
      run := Run([Start(row)], []);
    }

    lemma Safety()
      requires Valid()
      ensures Inv(w)
    {
      EveryRunIsAccounted(firstRow, run, |run.steps|);
    }

    method Take(s: Step)
      requires Valid() && Enabled(w, s)
      modifies this
      ensures Valid() && w == Apply(old(w), s) && quiet == old(quiet) && polls == old(polls)
    {
      RunExtends(firstRow, run, s);
      run := Extended(run, s);
      w := Apply(w, s);
    }

    /** What others do while this task holds the exclusive gate: a poll may
        record its failure, the broker may drop sessions. */
    method InterfereExclusive()
      requires Valid() && w.gate.exclusive
      modifies this
      ensures Valid() && w.gate == old(w).gate && SameSession(old(w), w)
      ensures Noticed() && (quiet ==> w == old(w))
    {
      var turns: nat := *;
      while turns > 0
        invariant Valid() && w.gate == old(w).gate && SameSession(old(w), w)
        invariant Noticed() && (quiet ==> w == old(w))
      {
        var s: Step := *;
        if (s.FailSession? || s.Recover? || s.Expire?) && Enabled(w, s) {
          SessionsAreStable(w, s);
          Take(s);
          quiet := false;
        }
        turns := turns - 1;
      }
    }

    /** What others do while this task holds a shared claim. */
    method InterfereShared()
      requires Valid() && !w.gate.exclusive && w.gate.shared > 0
      modifies this
      ensures Valid() && !w.gate.exclusive && w.gate.shared > 0 && SameSession(old(w), w)
      ensures Noticed() && (quiet ==> w == old(w))
    {
      var turns: nat := *;
      while turns > 0
        invariant Valid() && !w.gate.exclusive && w.gate.shared > 0 && SameSession(old(w), w)
        invariant Noticed() && (quiet ==> w == old(w))
      {
        var s: Step := *;
        if !SessionSide(s) && Enabled(w, s) && !s.LockExclusive? && (s.UnlockShared? ==> w.gate.shared > 1) {
          SessionsAreStable(w, s);
          Take(s);
          quiet := false;
        }
        turns := turns - 1;
      }
    }

    /** What others do while this task holds nothing. */
    method Interfere()
      requires Valid()
      modifies this
      ensures Valid() && old(w).seen <= w.seen
      ensures Noticed() && (quiet ==> w == old(w))
    {
      var turns: nat := *;
      while turns > 0
        invariant Valid() && old(w).seen <= w.seen
        invariant Noticed() && (quiet ==> w == old(w))
      {
        var s: Step := *;
        if Enabled(w, s) {
          Take(s);
          quiet := false;
        }
        turns := turns - 1;
      }
    }

    // ---- The session side ----

    method AcquireExclusive() returns (held: bool)
      requires Valid()
      modifies this
      ensures Valid() && (held ==> w.gate.exclusive && w.gate.shared == 0)
      ensures Noticed() && (quiet ==> w == if held then Apply(old(w), LockExclusive) else old(w))
      ensures quiet && old(w).gate == Gate(false, 0) ==> held
    {
      Interfere();
      if w.gate.exclusive || w.gate.shared > 0 {
        return false;
      }
      Take(LockExclusive);
      return true;
    }

    /** set_failure without an epoch. */
    method RecordFailure(f: Failure, now: int, jitter: int)
      requires Valid() && w.gate.exclusive
      modifies this
      ensures Valid() && Noticed()
      ensures w == Apply(old(w), FailUnder(f.SessionExpired?, RetryAt(now, old(w).mem.failures + 1, f, jitter)))
    {
      Take(FailUnder(f.SessionExpired?, RetryAt(now, w.mem.failures + 1, f, jitter)));
    }

    /** A delete that is answered, or refused because the session is already
        gone, proves it closed. */
    method DeleteSession(id: SessionId, now: int, jitter: int) returns (gone: bool)
      requires Valid() && w.gate.exclusive
      modifies this
      ensures Valid() && Noticed() && w.gate == old(w).gate && SameSession(old(w), w)
      ensures if gone then id in w.closed else w.mem.failing
      ensures quiet ==> gone && w == Apply(old(w), CloseRemote(id))
    {
      var failure: Option<Failure> := *;
      if failure.Some? && !failure.value.SessionExpired? {
        quiet := false;
        InterfereExclusive();
        RecordFailure(failure.value, now, jitter);
        return false;
      }
      Take(CloseRemote(id));
      InterfereExclusive();
      return true;
    }

    /** What a clean-up of sessions never does: ask for another. */
    twostate predicate NothingAsked()
      reads this
    {
      w.gate == old(w).gate && w.posts == old(w).posts && w.established == old(w).established && w.seen == old(w).seen
    }

    method ClearUncommitted(now: int, jitter: int) returns (cleared: bool)
      requires Valid() && w.gate.exclusive
      modifies this
      ensures Valid() && Noticed() && NothingAsked() && w.row == old(w).row && w.mem.session == old(w).mem.session
      ensures cleared ==> w.mem.uncommitted.None?
      ensures !cleared ==> w.mem.uncommitted == old(w).mem.uncommitted
      ensures w.mem.stopped == old(w).mem.stopped
      ensures quiet ==> cleared && w.mem == old(w).mem.(uncommitted := None)
    {
      if w.mem.uncommitted.None? {
        return true;
      }
      var gone := DeleteSession(w.mem.uncommitted.value.id, now, jitter);
      if !gone {
        return false;
      }
      Take(DropUncommitted);
      return true;
    }

    /** The session a replacement closes is the stored one, else the remembered
        one; a retiring listener closes its own, or a stored one it may close. */
    method ChooseSession(replace: bool, mayClose: bool) returns (r: Result<Option<Session>>)
      requires Valid() && w.gate.exclusive
      modifies this
      ensures Valid() && Noticed() && w.gate == old(w).gate && SameSession(old(w), w)
      ensures r.Success? ==>
                r.value == if replace then (if ActiveOf(w.row).Some? then ActiveOf(w.row) else w.mem.session)
                           else if w.mem.session.None? && mayClose then ActiveOf(w.row) else w.mem.session
      ensures quiet ==> r.Success? && w == old(w)
    {
      var answered: bool := *;
      InterfereExclusive();
      if !answered {
        quiet := false;
        return Refused;
      }
      var stored, remembered := ActiveOf(w.row), w.mem.session;
      if replace {
        return Success(if stored.Some? then stored else remembered);
      }
      return Success(if remembered.None? && mayClose then stored else remembered);
    }

    /** Remote first, then the row, then the memory. True only when this
        listener remembers nothing and, for a replacement, the row is clear. */
    method ClearSession(replace: bool, mayClose: bool, now: int, jitter: int) returns (r: Result<bool>)
      requires Valid() && w.gate.exclusive
      modifies this
      ensures Valid() && Noticed() && NothingAsked() && w.mem.uncommitted == old(w).mem.uncommitted
      ensures r == Success(true) ==> w.mem.session.None? && (replace ==> ActiveOf(w.row).None?)
      ensures !w.mem.enabled && (r == Success(false) ==> w.mem.failing)
      ensures quiet ==> r == Success(true)
    {
      Take(Enable(false));
      var chosen :- ChooseSession(replace, mayClose);
      if chosen.None? {
        return Success(true);
      }
      var client: bool := *;
      if !client {
        quiet := false;
        Take(NoteReason);
        return Success(false);
      }
      var gone := DeleteSession(chosen.value.id, now, jitter);
      if !gone {
        return Success(false);
      }
      r := ForgetSession(chosen.value, replace);
    }

    method ForgetSession(s: Session, ghost replace: bool) returns (r: Result<bool>)
      requires Valid() && w.gate.exclusive && s.id in w.closed
      requires Some(s) == w.mem.session || Some(s) == ActiveOf(w.row)
      requires replace && ActiveOf(w.row).Some? ==> Some(s) == ActiveOf(w.row)
      modifies this
      ensures Valid() && Noticed() && NothingAsked() && w.mem.uncommitted == old(w).mem.uncommitted
      ensures r == Success(true) ==> w.mem.session.None? && (replace ==> ActiveOf(w.row).None?)
      ensures w.mem.enabled ==> old(w).mem.enabled
      ensures r != Success(false)
      ensures quiet ==> r == Success(true)
    {
      Safety();
      var reached: bool, answered: bool := *, *;
      if !reached {
        quiet := false;
        return Refused;
      }
      Take(ClearRow(s.epoch));
      InterfereExclusive();
      if !answered {
        quiet := false;
        return Refused;
      }
      Take(Forget);
      return Success(true);
    }

    /** Whether the row still is this epoch's and the authority the configured one. */
    method Current(epoch: Epoch, authorized: bool) returns (r: Result<bool>)
      requires Valid()
      modifies `quiet
      ensures Valid() && Noticed()
      ensures r.Success? ==> r.value == (authorized && RowIsAt(w, epoch))
      ensures quiet ==> r.Success?
    {
      var answered: bool := *;
      if !answered {
        quiet := false;
        return Refused;
      }
      return Success(authorized && RowIsAt(w, epoch));
    }

    /** Reads whether the configured authority still is the Fleet's. */
    method Authorized(authorized: bool) returns (r: Result<bool>)
      requires Valid() && w.gate.exclusive
      modifies this
      ensures Valid() && Noticed() && w.gate == old(w).gate && SameSession(old(w), w)
      ensures r.Success? ==> r.value == authorized
      ensures quiet ==> r.Success? && w == old(w)
    {
      var answered: bool := *;
      InterfereExclusive();
      if !answered {
        quiet := false;
        return Refused;
      }
      return Success(authorized);
    }

    /** At most one session is asked for, and only with nothing else open. */
    twostate predicate AskedAtMostOnce()
      reads this
    {
      w.posts == old(w).posts || w.posts == old(w).posts + [{}]
    }

    /** Drains the effects of the old session behind the exclusive gate. */
    method EnsureSession(scaleSet: int, authorized: bool, now: int, jitter: int) returns (r: Result<Option<Epoch>>)
      requires Valid()
      modifies this
      ensures Valid() && Noticed()
      ensures r.Success? && r.value.Some? ==> Ready(r.value.value, scaleSet)
      ensures quiet && old(w).gate == Gate(false, 0) ==> w.gate == Gate(false, 0)
      ensures quiet && old(w).gate == Gate(false, 0) ==> EnsuresExactly(old(w), scaleSet, authorized, now, r, w)
    {
      var held := AcquireExclusive();
      if !held {
        return Refused;
      }
      r := EnsureLocked(scaleSet, authorized, now, jitter);
      Take(UnlockExclusive);
    }

    /** Keeps the session it has if that is still the right one; otherwise
        closes what is open and establishes another. A returned epoch is the
        row's, remembered and enabled. */
    method EnsureLocked(scaleSet: int, authorized: bool, now: int, jitter: int) returns (r: Result<Option<Epoch>>)
      requires Valid() && w.gate.exclusive
      modifies this
      ensures Valid() && Noticed() && w.gate == old(w).gate && AskedAtMostOnce()
      ensures r.Success? && r.value.Some? ==> Ready(r.value.value, scaleSet)
      ensures !authorized ==> w.posts == old(w).posts
      ensures quiet ==> EnsuresExactly(old(w), scaleSet, authorized, now, r, w)
    {
      if now < w.mem.retryAt {
        return Success(None);
      }
      var cleared := ClearUncommitted(now, jitter);
      if !cleared {
        return Success(None);
      }
      r := EnsureCleared(scaleSet, authorized, now, jitter);
    }

    method EnsureCleared(scaleSet: int, authorized: bool, now: int, jitter: int) returns (r: Result<Option<Epoch>>)
      requires Valid() && w.gate.exclusive && w.mem.uncommitted.None?
      modifies this
      ensures Valid() && Noticed() && w.gate == old(w).gate && AskedAtMostOnce()
      ensures r.Success? && r.value.Some? ==> Ready(r.value.value, scaleSet)
      ensures !authorized ==> w.posts == old(w).posts
      ensures quiet && now >= old(w).mem.retryAt ==> EnsuresExactly(old(w), scaleSet, authorized, now, r, w)
    {
      var allowed :- Authorized(authorized);
      if !allowed || now < w.mem.retryAt {
        return Success(None);
      }
      if w.mem.session.Some? && !w.mem.reconnect && w.mem.session.value.scaleSet == scaleSet {
        var epoch := w.mem.session.value.epoch;
        var current :- Current(epoch, authorized);
        if current {
          Safety();
          Take(Enable(true));
          return Success(Some(epoch));
        }
      }
      r := Replace(scaleSet, authorized, now, jitter);
    }

    /** The listener and the row agree on an open session of this epoch. */
    predicate Ready(epoch: Epoch, scaleSet: int)
      reads this
    {
      && RowIsAt(w, epoch) && w.mem.session == w.row.value.active && w.mem.enabled && w.mem.uncommitted.None?
      && w.mem.session.value.scaleSet == scaleSet
    }

    method Replace(scaleSet: int, authorized: bool, now: int, jitter: int) returns (r: Result<Option<Epoch>>)
      requires Valid() && w.gate.exclusive && w.mem.uncommitted.None?
      modifies this
      ensures Valid() && Noticed() && w.gate == old(w).gate && AskedAtMostOnce()
      ensures r.Success? && r.value.Some? ==> Ready(r.value.value, scaleSet)
      ensures !authorized ==> w.posts == old(w).posts && !(r.Success? && r.value.Some?)
      ensures quiet && authorized ==> r.Success? && r.value.Some? && w.posts == old(w).posts + [{}]
    {
      var cleared :- ClearSession(true, true, now, jitter);
      if !cleared {
        return Success(None);
      }
      var allowed :- Authorized(authorized);
      if !allowed {
        return Success(None);
      }
      var established := EstablishSession(scaleSet, now, jitter);
      if !established {
        return Success(None);
      }
      r := InstallSession(now, jitter);
    }

    /** The one establishment request of a replacement, with nothing else open. */
    method EstablishSession(scaleSet: int, now: int, jitter: int) returns (definite: bool)
      requires Valid() && w.gate.exclusive && NothingHeld(w)
      modifies this
      ensures Valid() && Noticed() && w.gate == old(w).gate && w.row == old(w).row
      ensures definite ==> w.mem.uncommitted.Some? && w.mem.uncommitted.value.scaleSet == scaleSet
      ensures w.posts == old(w).posts + [{}]
      ensures quiet ==> definite
    {
      Safety();
      var id: SessionId, failure: Option<Failure> := *, *;
      if failure.None? && id !in w.established && id !in w.closed {
        PostFollowsClosure(w, Establish(Handle(id, scaleSet)));
        Take(Establish(Handle(id, scaleSet)));
        InterfereExclusive();
        return true;
      }
      quiet := false;
      PostFollowsClosure(w, PostWithoutReply);
      Take(PostWithoutReply);
      InterfereExclusive();
      RecordFailure(if failure.Some? then failure.value else RequestUncertain, now, jitter);
      return false;
    }

    /** The transaction may fail, before or after it committed, or lose its
        compare-and-swap; then the handle is closed, or kept for the next
        attempt to close. */
    method InstallSession(now: int, jitter: int) returns (r: Result<Option<Epoch>>)
      requires Valid() && w.gate.exclusive && w.mem.uncommitted.Some? && ActiveOf(w.row).None?
      modifies this
      ensures Valid() && Noticed() && w.gate == old(w).gate && w.posts == old(w).posts
      ensures r.Success? && r.value.Some? ==> Ready(r.value.value, old(w).mem.uncommitted.value.scaleSet)
      ensures !(r.Success? && r.value.Some?) ==> w.mem.uncommitted.None? || w.mem.uncommitted == old(w).mem.uncommitted
      ensures quiet ==> r.Success? && r.value.Some?
    {
      var reached: bool, swapped: bool, answered: bool := *, *, *;
      if reached && swapped {
        Take(Install);
      }
      InterfereExclusive();
      if !reached || !swapped || !answered {
        quiet := false;
        var _ := ClearUncommitted(now, jitter);
        return if reached && !swapped && answered then Success(None) else Refused;
      }
      Take(Adopt);
      return Success(Some(w.row.value.epoch));
    }

    method Stop(mayClose: bool, now: int, jitter: int) returns (r: Result<bool>)
      requires Valid()
      modifies this
      ensures Valid() && Noticed()
      ensures r == Success(true) ==> w.mem.uncommitted.None? && w.mem.stopped
      ensures quiet && old(w).gate == Gate(false, 0) ==> w.gate == Gate(false, 0)
      ensures quiet && old(w).gate == Gate(false, 0) ==> r == Success(true) && w.posts == old(w).posts
    {
      var held := AcquireExclusive();
      if !held {
        return Refused;
      }
      r := StopLocked(mayClose, now, jitter);
      Take(UnlockExclusive);
    }

    /** Stopped means no handle is left behind in memory. */
    method StopLocked(mayClose: bool, now: int, jitter: int) returns (r: Result<bool>)
      requires Valid() && w.gate.exclusive
      modifies this
      ensures Valid() && Noticed() && NothingAsked()
      ensures r == Success(true) ==> w.mem.uncommitted.None? && w.mem.stopped
      ensures r == Success(true) && !old(w).mem.stopped ==> w.mem.session.None?
      ensures quiet ==> r == Success(true)
      ensures quiet && old(w).mem.stopped ==> w.mem == old(w).mem.(uncommitted := None) && w.row == old(w).row
    {
      var cleared := ClearUncommitted(now, jitter);
      if !cleared {
        return Success(false);
      }
      if w.mem.stopped {
        return Success(true);
      }
      var stopped :- ClearSession(false, mayClose, now, jitter);
      Take(Stopped(stopped));
      return Success(stopped);
    }

    // ---- Polling ----

    method AcquireClaim() returns (held: bool)
      requires Valid()
      modifies this
      ensures Valid() && Noticed() && old(w).seen <= w.seen
      ensures held ==> !w.gate.exclusive && w.gate.shared > 0
      ensures quiet ==> w == (if held then Apply(old(w), LockShared) else old(w)) && (held <==> !old(w).gate.exclusive)
    {
      Interfere();
      if w.gate.exclusive {
        return false;
      }
      Take(LockShared);
      return true;
    }

    /** The failure is recorded only against the epoch it belongs to: the epoch
        is compared under the same lock that sets the flags. */
    method FailedSession(epoch: Epoch, f: Failure, now: int, jitter: int) returns (recorded: bool)
      requires Valid()
      modifies this
      ensures Valid() && quiet == old(quiet) && polls == old(polls)
      ensures recorded <==> Remembers(old(w), epoch)
      ensures w == if recorded then AfterFailure(old(w), epoch, f, now, jitter) else old(w)
    {
      if !Remembers(w, epoch) {
        return false;
      }
      Take(FailSession(epoch, f.SessionExpired?, RetryAt(now, w.mem.failures + 1, f, jitter)));
      return true;
    }

    /** Under a claim a current epoch is the remembered one, and stays it. */
    method PollFailedUnderClaim(epoch: Epoch, f: Failure, authorized: bool, now: int, jitter: int) returns (r: Result<bool>)
      requires Valid() && !w.gate.exclusive && w.gate.shared > 0 && epoch in w.seen
      modifies this
      ensures Valid() && Noticed() && !w.gate.exclusive && w.gate.shared > 0 && SameSession(old(w), w)
      ensures quiet ==> r.Success?
      ensures quiet ==> w == (if authorized && RowIsAt(old(w), epoch) then AfterFailure(old(w), epoch, f, now, jitter) else old(w))
    {
      InterfereShared();
      var current :- Current(epoch, authorized);
      InterfereShared();
      if current {
        Safety();
        SessionsAreStable(w, FailSession(epoch, f.SessionExpired?, RetryAt(now, w.mem.failures + 1, f, jitter)));
        var _ := FailedSession(epoch, f, now, jitter);
      }
      return Success(current);
    }

    /** Acknowledge, then acquire, each re-checked against the epoch. A lost
        reply asks for a new session; that flag is only ever set for the epoch
        that is still installed, because the claim keeps replacement out. */
    method FinishMessage(epoch: Epoch, acked: bool, replies: Replies, now: int, jitter: int) returns (r: Result<bool>)
      requires Valid() && epoch in w.seen
      modifies this
      ensures Valid() && Noticed() && old(w).seen <= w.seen
      ensures quiet && !old(w).gate.exclusive ==> FinishesExactly(old(w), epoch, acked, replies, now, jitter, r, w)
    {
      var held := AcquireClaim();
      if !held {
        return Refused;
      }
      ghost var w1 := w;
      r := FinishUnderClaim(epoch, acked, replies, now, jitter);
      ghost var w2 := w;
      Take(UnlockShared);
      if quiet && !old(w).gate.exclusive {
        ClaimIsNeutral(old(w), w1, w2, w, epoch, acked, replies, now, jitter, r);
      }
    }

    method FinishUnderClaim(epoch: Epoch, acked: bool, replies: Replies, now: int, jitter: int) returns (r: Result<bool>)
      requires Valid() && !w.gate.exclusive && w.gate.shared > 0 && epoch in w.seen
      modifies this
      ensures Valid() && Noticed() && !w.gate.exclusive && w.gate.shared > 0 && SameSession(old(w), w)
      ensures quiet ==> FinishesExactly(old(w), epoch, acked, replies, now, jitter, r, w)
    {
      var current :- Current(epoch, replies.authorized);
      if !current {
        return Success(false);
      }
      if !acked {
        InterfereShared();
        if replies.ack.Some? {
          var f := replies.ack.value;
          r := LoseReply(epoch, f, f.RequestUncertain? || f.HiddenOrNotFound?, replies.authorized, now, jitter);
          return;
        }
        var stored :- Stored(replies.acknowledged);
        if !stored {
          return Success(false);
        }
      }
      r := Acquire(epoch, replies, now, jitter);
    }

    /** A store call that answers this, or fails. */
    method Stored(answer: bool) returns (r: Result<bool>)
      requires Valid() && !w.gate.exclusive && w.gate.shared > 0
      modifies this
      ensures Valid() && Noticed() && !w.gate.exclusive && w.gate.shared > 0 && SameSession(old(w), w)
      ensures r.Success? ==> r.value == answer
      ensures quiet ==> r.Success? && w == old(w)
    {
      var answered: bool := *;
      InterfereShared();
      if !answered {
        quiet := false;
        return Refused;
      }
      return Success(answer);
    }

    /** The acquisition of an acknowledged message's jobs. */
    method Acquire(epoch: Epoch, replies: Replies, now: int, jitter: int) returns (r: Result<bool>)
      requires Valid() && !w.gate.exclusive && w.gate.shared > 0 && epoch in w.seen && RowIsAt(w, epoch)
      modifies this
      ensures Valid() && Noticed() && !w.gate.exclusive && w.gate.shared > 0 && SameSession(old(w), w)
      ensures quiet && replies.authorized ==> AcquiresExactly(old(w), epoch, replies, now, jitter, r, w)
    {
      var started :- Stored(replies.started);
      if !started {
        return Success(false);
      }
      if !replies.requests {
        return Success(true);
      }
      InterfereShared();
      if replies.acquire.Some? && replies.acquire.value.RequestUncertain? {
        r := CompleteLost(epoch, replies, now, jitter);
        return;
      }
      var completed :- Stored(replies.completed);
      if replies.acquire.None? {
        return Success(completed);
      }
      var _ :- PollFailedUnderClaim(epoch, replies.acquire.value, replies.authorized, now, jitter);
      return Success(false);
    }

    /** Nobody knows which jobs were acquired: the flag comes first, then the
        completion without an answer, then the failure. */
    method CompleteLost(epoch: Epoch, replies: Replies, now: int, jitter: int) returns (r: Result<bool>)
      requires Valid() && !w.gate.exclusive && w.gate.shared > 0 && epoch in w.seen && RowIsAt(w, epoch)
      modifies this
      ensures Valid() && Noticed() && !w.gate.exclusive && w.gate.shared > 0 && SameSession(old(w), w)
      ensures w.mem.reconnect
      ensures quiet && replies.authorized ==>
                r == Success(false) && w == AfterLostReply(old(w), epoch, RequestUncertain, true, now, jitter)
    {
      Safety();
      SessionsAreStable(w, MarkReconnect(epoch));
      Take(MarkReconnect(epoch));
      var _ :- Stored(replies.completed);
      var _ :- PollFailedUnderClaim(epoch, RequestUncertain, replies.authorized, now, jitter);
      return Success(false);
    }

    /** The reconnect flag and the failure of a current epoch under a claim. */
    method LoseReply(epoch: Epoch, f: Failure, reconnect: bool, authorized: bool, now: int, jitter: int)
      returns (r: Result<bool>)
      requires Valid() && !w.gate.exclusive && w.gate.shared > 0 && epoch in w.seen && RowIsAt(w, epoch)
      modifies this
      ensures Valid() && Noticed() && !w.gate.exclusive && w.gate.shared > 0 && SameSession(old(w), w)
      ensures r.Success? ==> !r.value
      ensures reconnect ==> w.mem.reconnect
      ensures quiet && authorized ==>
                r == Success(false) && w == AfterLostReply(old(w), epoch, f, reconnect, now, jitter)
    {
      Safety();
      if reconnect {
        SessionsAreStable(w, MarkReconnect(epoch));
        Take(MarkReconnect(epoch));
      }
      var _ :- PollFailedUnderClaim(epoch, f, authorized, now, jitter);
      return Success(false);
    }

    /** A poll without a claim: the epoch is checked against the row and again
        against the memory, under the lock that sets the flags. */
    method PollFailed(epoch: Epoch, f: Failure, authorized: bool, now: int, jitter: int) returns (r: Result<bool>)
      requires Valid()
      modifies this
      ensures Valid() && Noticed() && old(w).seen <= w.seen
      ensures quiet ==> r.Success?
      ensures quiet ==> w == (if authorized && RowIsAt(old(w), epoch) && Remembers(old(w), epoch)
                              then AfterFailure(old(w), epoch, f, now, jitter) else old(w))
    {
      var current :- Current(epoch, authorized);
      Interfere();
      if current {
        var _ := FailedSession(epoch, f, now, jitter);
      }
      return Success(current);
    }

    method Recovered(epoch: Epoch, authorized: bool) returns (r: Result<bool>)
      requires Valid()
      modifies this
      ensures Valid() && Noticed() && old(w).seen <= w.seen
      ensures quiet ==> r.Success?
      ensures quiet ==> w == (if authorized && RowIsAt(old(w), epoch) && Remembers(old(w), epoch)
                              then Apply(old(w), Recover(epoch)) else old(w))
    {
      var current :- Current(epoch, authorized);
      Interfere();
      if current && Remembers(w, epoch) {
        Take(Recover(epoch));
      }
      return Success(true);
    }

    /** One long poll, over the messages still unfinished. */
    method PollOnce(pending: seq<(bool, Replies)>, poll: PollReply, now: int, jitter: int) returns (r: Result<bool>)
      requires Valid()
      modifies this
      ensures Valid() && (quiet ==> old(quiet)) && old(polls) <= polls <= old(polls) + 1
      ensures polls > old(polls) ==> MayPoll(old(w), now)
      ensures quiet && !MayPoll(old(w), now) ==> r == Success(true) && w == old(w)
      ensures r.Refused? && old(w).mem.session.Some? && Remembers(w, old(w).mem.session.value.epoch) ==> w.mem.failing
    {
      var epoch := if w.mem.session.Some? then Some(w.mem.session.value.epoch) else None;
      r := PollInner(pending, poll, now, jitter);
      if r.Refused? && epoch.Some? {
        var _ := FailedSession(epoch.value, OtherFailure, now, jitter);
      }
    }

    method PollInner(pending: seq<(bool, Replies)>, poll: PollReply, now: int, jitter: int) returns (r: Result<bool>)
      requires Valid()
      modifies this
      ensures Valid() && (quiet ==> old(quiet)) && old(polls) <= polls <= old(polls) + 1
      ensures polls > old(polls) ==> MayPoll(old(w), now)
      ensures quiet && !MayPoll(old(w), now) ==> r == Success(true) && w == old(w)
      ensures quiet && MayPoll(old(w), now) ==>
                InnerExactly(old(w), old(w).mem.session.value.epoch, pending, poll, now, jitter, w, polls > old(polls))
    {
      if !MayPoll(w, now) {
        return Success(true);
      }
      var epoch := w.mem.session.value.epoch;
      Safety();
      Interfere();
      var current :- Current(epoch, poll.authorized);
      if !current {
        return Success(true);
      }
      var listed: bool, answered: bool := *, *;
      if !listed {
        quiet := false;
        return Refused;
      }
      var finished :- FinishPending(epoch, pending, now, jitter);
      if !finished {
        return Success(true);
      }
      Interfere();
      if !answered {
        quiet := false;
        return Refused;
      }
      if w.row.None? || w.row.value.epoch != epoch {
        return Success(true);
      }
      r := Poll(epoch, poll, now, jitter);
    }

    method FinishPending(epoch: Epoch, pending: seq<(bool, Replies)>, now: int, jitter: int) returns (r: Result<bool>)
      requires Valid() && epoch in w.seen
      modifies this
      ensures Valid() && Noticed() && epoch in w.seen
      ensures quiet && !old(w).gate.exclusive && RowIsAt(old(w), epoch) ==>
                r == Success(AllSmooth(pending)) && (AllSmooth(pending) ==> w == old(w))
    {
      for i := 0 to |pending|
        invariant Valid() && Noticed() && epoch in w.seen
        invariant quiet && !old(w).gate.exclusive && RowIsAt(old(w), epoch) ==> AllSmooth(pending[..i]) && w == old(w)
      {
        var finished :- FinishMessage(epoch, pending[i].0, pending[i].1, now, jitter);
        if !finished {
          return Success(false);
        }
      }
      return Success(true);
    }

    /** The message becomes durable under a claim, while the epoch is current. */
    method Ingest(answer: bool) returns (r: Result<bool>)
      requires Valid()
      modifies this
      ensures Valid() && Noticed() && old(w).seen <= w.seen
      ensures r.Success? ==> r.value == answer
      ensures quiet && !old(w).gate.exclusive ==> r.Success? && w == old(w)
    {
      var held := AcquireClaim();
      if !held {
        return Refused;
      }
      r := Stored(answer);
      Take(UnlockShared);
    }

    /** A failed poll is recorded, a message is finished, and only a poll that
        came through clears the failure state. */
    method Poll(epoch: Epoch, poll: PollReply, now: int, jitter: int) returns (r: Result<bool>)
      requires Valid() && epoch in w.seen && w.row.Some? && w.row.value.epoch == epoch
      modifies this
      ensures Valid() && (quiet ==> old(quiet)) && polls == old(polls) + 1
      ensures quiet && Serves(old(w), epoch) && poll.authorized ==>
                PollsExactly(old(w), epoch, poll, now, jitter, w)
    {
      polls := polls + 1;
      Interfere();
      if poll.failure.Some? {
        r := PollFailed(epoch, poll.failure.value, poll.authorized, now, jitter);
        return;
      }
      if poll.message.Some? {
        var ingested :- Ingest(poll.ingested);
        if !ingested {
          return Success(true);
        }
        var finished :- FinishMessage(epoch, false, poll.message.value, now, jitter);
        if !finished {
          return Success(true);
        }
      }
      r := Recovered(epoch, poll.authorized);
    }
  }

  /** Any sequence of turns of the two kinds of task over one listener, each
      turn interleaved with everyone else's steps: nothing is ever lost track
      of and no session is asked for while another is open. */
  method Serve(row: Option<Row>, turns: nat) returns (l: FleetListener)
    requires WellFormedRow(row)
    ensures l.Valid() && Inv(l.w)
  {
    l := new FleetListener(row);
    var left := turns;
    while left > 0
      invariant fresh(l) && l.Valid()
    {
      var which: nat, scaleSet: int, allowed: bool, now: int, jitter: int := *, *, *, *, *;
      var pending: seq<(bool, Replies)>, poll: PollReply := *, *;
      if which == 0 {
        var _ := l.EnsureSession(scaleSet, allowed, now, jitter);
      } else if which == 1 {
        var _ := l.Stop(allowed, now, jitter);
      } else {
        var _ := l.PollOnce(pending, poll, now, jitter);
      }
      left := left - 1;
    }
    l.Safety();
  }
}
