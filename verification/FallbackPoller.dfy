/**
 * The polling fallback beside the stream (streaming.go:69-105, 178-227, 321-361): run's
 * goroutine and stop interleave at every lock section and cancellation check.
 */
module FallbackPoller {

  /** Where run's goroutine stands. */
  datatype Pc =
    | Connecting                    // about to open a connection
    | Reading(delivered: bool)      // in the line loop
    | Retiring                      // first frame handled, about to retire the poller
    | Ended(delivered: bool)        // connect returned, cancellation not yet checked
    | Recovering                    // about to retire the poller after a delivering connection
    | Arming                        // about to start the poller
    | Sleeping                      // waiting out the backoff
    | Exited

  datatype StopPc = NotCalled | Cancelled | Returned

  /** pollers[i] says whether poller i is uncancelled; outcomes records whether each connection delivered. */
  datatype State = State(
    run: Pc, stop: StopPc, done: bool, current: int, pollers: seq<bool>, failures: nat, outcomes: seq<bool>)

  const NO_POLLER := -1
  const INIT := State(Connecting, NotCalled, false, NO_POLLER, [], 0, [])

  datatype Action =
    | Connected       // a 200 response
    | Refused         // any other end of the connection attempt
    | FrameHandled    // a complete frame was handled
    | Disconnected    // the connection ended, or the loop noticed the cancellation
    | RunStep         // run's next step of its own
    | StopStep        // stop's next step

  // ---- steps ----------------------------------------------------------------------------

  /** stopFallbackPolling, one lock section. */
  function Retire(s: State): State {
    if 0 <= s.current < |s.pollers| then s.(pollers := s.pollers[s.current := false], current := NO_POLLER)
    else s
  }

  /** startFallbackPolling, one lock section: not twice, and not once stop has begun. */
  function Arm(s: State): State {
    if s.current != NO_POLLER || s.done then s
    else s.(current := |s.pollers|, pollers := s.pollers + [true])
  }

  function RunNext(threshold: int, s: State): State {
    match s.run
    case Retiring => Retire(s).(run := Reading(true))
    case Ended(delivered) =>
      var t := s.(outcomes := s.outcomes + [delivered]);
      if s.done then t.(run := Exited)
      else if delivered then t.(run := Recovering, failures := 0)
      else t.(run := if s.failures + 1 >= threshold then Arming else Sleeping, failures := s.failures + 1)
    case Recovering => Retire(s).(run := Sleeping)
    case Arming => Arm(s).(run := Sleeping)
    case Sleeping => s.(run := if s.done then Exited else Connecting)
    case _ => s
  }

  function Next(threshold: int, s: State, a: Action): State {
    match a
    case Connected => if s.run.Connecting? then s.(run := Reading(false)) else s
    case Refused => if s.run.Connecting? then s.(run := Ended(false)) else s
    case FrameHandled => if s.run == Reading(false) then s.(run := Retiring) else s
    case Disconnected => if s.run.Reading? then s.(run := Ended(s.run.delivered)) else s
    case RunStep => RunNext(threshold, s)
    case StopStep =>
      match s.stop
      case NotCalled => s.(done := true, stop := Cancelled)
      case Cancelled => Retire(s).(stop := Returned)
      case Returned => s
  }

  function After(threshold: int, s: State, actions: seq<Action>): State
    decreases |actions|
  {
    if actions == [] then s else After(threshold, Next(threshold, s, actions[0]), actions[1..])
  }

  // ---- the invariant ------------------------------------------------------------------------

  /** The last n connections delivered nothing. */
  predicate LastFailed(outcomes: seq<bool>, n: nat) {
    n <= |outcomes| && forall i | |outcomes| - n <= i < |outcomes| :: !outcomes[i]
  }

  /** A poller is uncancelled. */
  predicate Polling(s: State) {
    exists i | 0 <= i < |s.pollers| :: s.pollers[i]
  }

  /** The current connection delivered a frame and the poller was told, or is about to be told, to go. */
  predicate JustDelivered(s: State) {
    s.run == Reading(true) || s.run == Ended(true) || s.run.Recovering?
  }

  /** failures counts exactly the connections since the last one that delivered. */
  predicate CountsFailures(s: State) {
    && LastFailed(s.outcomes, s.failures)
    && (s.failures < |s.outcomes| ==> s.outcomes[|s.outcomes| - 1 - s.failures])
  }

  /** Between connections, or in one that has delivered nothing yet. */
  predicate Waiting(s: State) {
    s.run.Connecting? || s.run == Reading(false) || s.run == Ended(false) || s.run.Sleeping?
  }

  predicate Failing(threshold: int, s: State) {
    s.failures >= threshold && s.failures >= 1
  }

  /** The uncancelled poller, if any, is the one the source holds; none is once stop returned. */
  ghost predicate PollerHeld(s: State) {
    && (forall i | 0 <= i < |s.pollers| :: s.pollers[i] <==> i == s.current)
    && (s.current == NO_POLLER || 0 <= s.current < |s.pollers|)
    && (s.stop.NotCalled? <==> !s.done)
    && (s.stop.Returned? ==> s.current == NO_POLLER)
  }

  /** The counter is right; after an exit, as far as a poller still depends on it. */
  ghost predicate FailuresCounted(threshold: int, s: State) {
    && (CountsFailures(s)
        || (s.run.Exited? && s.done && (s.current == NO_POLLER || LastFailed(s.outcomes, s.failures))))
    && (s.run.Arming? ==> Failing(threshold, s))
    && (s.run.Recovering? ==> s.failures == 0)
    && (s.run.Exited? ==> s.done)
  }

  /** A poller only while failing, and always while failing until stop begins. */
  predicate FallbackPresent(threshold: int, s: State) {
    && (s.current != NO_POLLER ==> Failing(threshold, s) && !JustDelivered(s))
    && (Waiting(s) && !s.done && Failing(threshold, s) ==> s.current != NO_POLLER)
  }

  ghost predicate Invariant(threshold: int, s: State) {
    PollerHeld(s) && FailuresCounted(threshold, s) && FallbackPresent(threshold, s)
  }

  lemma RetireHolds(s: State)
    requires PollerHeld(s)
    ensures PollerHeld(Retire(s)) && Retire(s).current == NO_POLLER
  {
  }

  lemma ArmHolds(s: State)
    requires PollerHeld(s)
    ensures PollerHeld(Arm(s)) && (!s.done ==> Arm(s).current != NO_POLLER)
    ensures s.done ==> Arm(s) == s
  {
  }

  lemma PollerHeldKept(threshold: int, s: State, a: Action)
    requires PollerHeld(s)
    ensures PollerHeld(Next(threshold, s, a))
  {
    RetireHolds(s);
    ArmHolds(s);
  }

  lemma ConnectionCounted(s: State, delivered: bool)
    requires CountsFailures(s)
    ensures CountsFailures(s.(outcomes := s.outcomes + [delivered], failures := if delivered then 0 else s.failures + 1))
  {
  }

  lemma FailuresCountedRun(threshold: int, s: State)
    requires Invariant(threshold, s)
    ensures FailuresCounted(threshold, RunNext(threshold, s))
  {
    if s.run.Ended? {
      ConnectionCounted(s, s.run.delivered);
    }
  }

  lemma FailuresCountedKept(threshold: int, s: State, a: Action)
    requires Invariant(threshold, s)
    ensures FailuresCounted(threshold, Next(threshold, s, a))
  {
    if a.RunStep? {
      FailuresCountedRun(threshold, s);
    }
  }

  lemma FallbackPresentKept(threshold: int, s: State, a: Action)
    requires Invariant(threshold, s)
    ensures FallbackPresent(threshold, Next(threshold, s, a))
  {
    RetireHolds(s);
    ArmHolds(s);
  }

  lemma InvariantKept(threshold: int, s: State, a: Action)
    requires Invariant(threshold, s)
    ensures Invariant(threshold, Next(threshold, s, a))
  {
    PollerHeldKept(threshold, s, a);
    FailuresCountedKept(threshold, s, a);
    FallbackPresentKept(threshold, s, a);
  }

  lemma {:induction false} InvariantAfter(threshold: int, s: State, actions: seq<Action>)
    requires Invariant(threshold, s)
    ensures Invariant(threshold, After(threshold, s, actions))
    decreases |actions|
  {
    if actions != [] {
      InvariantKept(threshold, s, actions[0]);
      InvariantAfter(threshold, Next(threshold, s, actions[0]), actions[1..]);
    }
  }

  function Max(a: int, b: int): int {
    if a < b then b else a
  }

  /**
   * In every interleaving: at most one poller is uncancelled; one is only after threshold, and
   * at least one, connections in a row delivered nothing; none is from just after a
   * connection's first handled frame until it ended; and none is once stop has returned.
   */
  lemma PollerLifecycle(threshold: int, actions: seq<Action>)
    ensures var s := After(threshold, INIT, actions);
      && (forall i, j | 0 <= i < |s.pollers| && 0 <= j < |s.pollers| && s.pollers[i] && s.pollers[j] :: i == j)
      && (Polling(s) ==> LastFailed(s.outcomes, Max(threshold, 1)))
      && (Polling(s) ==> !JustDelivered(s) && !s.stop.Returned?)
  {
    InvariantAfter(threshold, INIT, actions);
  }

  /**
   * Nor is the fallback ever missing: until stop begins, whenever run waits or connects, a
   * poller is at work exactly when that many connections in a row have failed.
   */
  lemma PollerExactlyWhenFailing(threshold: int, actions: seq<Action>)
    ensures var s := After(threshold, INIT, actions);
      Waiting(s) && !s.done ==> (Polling(s) <==> LastFailed(s.outcomes, Max(threshold, 1)))
  {
    InvariantAfter(threshold, INIT, actions);
    var s := After(threshold, INIT, actions);
    if Waiting(s) && !s.done {
      assert Polling(s) <==> s.current != NO_POLLER by {
        assert s.current != NO_POLLER ==> s.pollers[s.current];
      }
    }
  }

  /**
   * The stream never gives up before stop: run has not exited, and from the end of any
   * connection three steps of its own bring it to the next attempt.
   */
  lemma NeverGivesUp(threshold: int, actions: seq<Action>)
    ensures var s := After(threshold, INIT, actions);
      && (s.stop.NotCalled? ==> !s.run.Exited?)
      && (s.stop.NotCalled? && s.run.Ended? ==> After(threshold, s, [RunStep, RunStep, RunStep]).run.Connecting?)
  {
    InvariantAfter(threshold, INIT, actions);
    var s := After(threshold, INIT, actions);
    if s.stop.NotCalled? && s.run.Ended? {
      var s1 := Next(threshold, s, RunStep);
      var s2 := Next(threshold, s1, RunStep);
      var s3 := Next(threshold, s2, RunStep);
      assert [RunStep, RunStep, RunStep][1..] == [RunStep, RunStep];
      assert [RunStep, RunStep][1..] == [RunStep] && [RunStep][1..] == [];
      assert After(threshold, s2, [RunStep]) == s3;
      assert After(threshold, s1, [RunStep, RunStep]) == s3;
    }
  }

  /** No poller ever again: after stop returned, no run of anyone brings one back. */
  lemma {:induction false} NoPollerAfterStop(threshold: int, s: State, actions: seq<Action>)
    requires Invariant(threshold, s) && s.stop.Returned?
    ensures !Polling(After(threshold, s, actions)) && After(threshold, s, actions).stop.Returned?
    decreases |actions|
  {
    if actions != [] {
      InvariantKept(threshold, s, actions[0]);
      NoPollerAfterStop(threshold, Next(threshold, s, actions[0]), actions[1..]);
    }
  }

  /** A cancelled poller stays cancelled: pollers are only ever added, live, at the end. */
  lemma {:induction false} CancelledForGood(threshold: int, s: State, actions: seq<Action>, i: nat)
    requires i < |s.pollers| && !s.pollers[i]
    ensures i < |After(threshold, s, actions).pollers| && !After(threshold, s, actions).pollers[i]
    decreases |actions|
  {
    if actions != [] {
      CancelledForGood(threshold, Next(threshold, s, actions[0]), actions[1..], i);
    }
  }

  // ---- what the steps come to ---------------------------------------------------------------------

  /** stop, left alone, cancels and returns in two steps; calling it again changes nothing. */
  lemma StopReturns(threshold: int, s: State)
    ensures var t := After(threshold, s, [StopStep, StopStep]);
      t.stop.Returned? && (s.stop.NotCalled? ==> t.done) && (s.stop.Returned? ==> t == s)
  {
    var s1 := Next(threshold, s, StopStep);
    assert After(threshold, s1, [StopStep]) == Next(threshold, s1, StopStep);
  }

  /**
   * Once stop began, run exits: the connection fails or ends, and the next check of the
   * cancellation, three steps of its own away at most, ends the loop, wherever it stood.
   */
  lemma ExitsAfterStop(threshold: int, s: State)
    requires s.done
    ensures s.run.Ended? ==> Next(threshold, s, RunStep).run.Exited?
    ensures After(threshold, s, [RunStep, Refused, Disconnected, RunStep, RunStep, RunStep]).run.Exited?
  {
    var s1 := Next(threshold, s, RunStep);
    var s2 := Next(threshold, s1, Refused);
    var s3 := Next(threshold, s2, Disconnected);
    assert s3.done && (s3.run.Ended? || s3.run.Sleeping? || s3.run.Exited?);
    var s4 := Next(threshold, s3, RunStep);
    assert s4.run.Exited?;
    assert After(threshold, s4, [RunStep, RunStep]) == s4 by {
      assert After(threshold, s4, [RunStep]) == s4;
    }
    assert After(threshold, s3, [RunStep, RunStep, RunStep]) == s4;
    assert After(threshold, s2, [Disconnected, RunStep, RunStep, RunStep]) == s4;
    assert After(threshold, s1, [Refused, Disconnected, RunStep, RunStep, RunStep]) == s4;
  }

  /** A refused or silent connection counts as a failure. */
  lemma SilenceFails(threshold: int, s: State)
    requires s.run.Connecting? && !s.done
    ensures After(threshold, s, [Refused, RunStep]).outcomes == s.outcomes + [false]
    ensures After(threshold, s, [Connected, Disconnected, RunStep]).outcomes == s.outcomes + [false]
    ensures After(threshold, s, [Refused, RunStep]).failures == s.failures + 1
  {
    var r1 := Next(threshold, s, Refused);
    assert After(threshold, r1, [RunStep]) == Next(threshold, r1, RunStep);
    var s1 := Next(threshold, s, Connected);
    var s2 := Next(threshold, s1, Disconnected);
    assert After(threshold, s2, [RunStep]) == Next(threshold, s2, RunStep);
    assert After(threshold, s1, [Disconnected, RunStep]) == Next(threshold, s2, RunStep);
  }

  /** The first handled frame retires the poller at once, and its connection counts as a recovery. */
  lemma FrameRecovers(threshold: int, s: State)
    requires s.run == Reading(false) && PollerHeld(s)
    ensures var t := After(threshold, s, [FrameHandled, RunStep]); t.run == Reading(true) && !Polling(t)
    ensures !s.done ==>
      var u := After(threshold, s, [FrameHandled, RunStep, Disconnected, RunStep]);
      u.outcomes == s.outcomes + [true] && u.failures == 0 && !Polling(u)
  {
    var s1 := Next(threshold, s, FrameHandled);
    RetireHolds(s1);
    var s2 := Next(threshold, s1, RunStep);
    assert After(threshold, s1, [RunStep]) == s2;
    var s3 := Next(threshold, s2, Disconnected);
    var s4 := Next(threshold, s3, RunStep);
    assert After(threshold, s3, [RunStep]) == s4;
    assert After(threshold, s2, [Disconnected, RunStep]) == s4;
    assert After(threshold, s1, [RunStep, Disconnected, RunStep]) == s4;
  }
}
