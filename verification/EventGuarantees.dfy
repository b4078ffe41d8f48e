/** What every interleaving of the event processor's callers guarantees. */
module EventGuarantees {
  import opened EventQueue
  import opened EventProtocol

  // ---- order ------------------------------------------------------------------------

  ghost predicate Ascending(events: seq<nat>) {
    forall i, j | 0 <= i < j < |events| :: events[i] < events[j]
  }

  /** Everything in a is older than everything in b. */
  ghost predicate MultiBelow(a: multiset<nat>, b: seq<nat>) {
    forall x, i | x in a && 0 <= i < |b| :: x < b[i]
  }

  /** What still waits, front first, and the number the next event will get. */
  function Tail(w: World, front: seq<nat>): seq<nat> {
    front + (w.p.buf + [w.fates.accepted])
  }

  /** Acknowledged, then in flight (front), then buffered, is one ascending line; rejects are behind it. */
  ghost predicate InLine(w: World, front: seq<nat>) {
    Ascending(w.fates.acked + Tail(w, front)) && MultiBelow(w.fates.rejected, Tail(w, front))
  }

  /** The batch the running drain has in flight. */
  function Front(s: State): seq<nat> {
    var d := s.w.holders.drain;
    if s.w.p.draining && d < |s.callers| && InFlushDrain(s.callers[d]) then InFlight(s.callers[d]) else []
  }

  ghost predicate Ordered(s: State) {
    !s.w.p.closed ==> InLine(s.w, Front(s))
  }

  lemma DropMiddle(a: seq<nat>, m: seq<nat>, b: seq<nat>)
    requires Ascending(a + (m + b))
    ensures Ascending(a + b)
  {
    var whole, rest := a + (m + b), a + b;
    forall i, j | 0 <= i < j < |rest| ensures rest[i] < rest[j] {
      var i', j' := if i < |a| then i else i + |m|, if j < |a| then j else j + |m|;
      assert rest[i] == whole[i'] && rest[j] == whole[j'];
    }
  }

  lemma DropMiddleBelow(r: multiset<nat>, a: seq<nat>, m: seq<nat>, b: seq<nat>)
    requires MultiBelow(r, a + (m + b))
    ensures MultiBelow(r, a + b)
  {
    var whole, rest := a + (m + b), a + b;
    forall x, i | x in r && 0 <= i < |rest| ensures x < rest[i] {
      var i' := if i < |a| then i else i + |m|;
      assert rest[i] == whole[i'];
    }
  }

  lemma PushLast(a: seq<nat>, n: nat)
    requires Ascending(a + [n])
    ensures Ascending(a + [n, n + 1])
  {
    var line, longer := a + [n], a + [n, n + 1];
    forall i, j | 0 <= i < j < |longer| ensures longer[i] < longer[j] {
      assert i <= |a| && line[i] == longer[i] && line[|a|] == n;
      assert j <= |a| ==> line[j] == longer[j];
    }
  }

  lemma PushLastBelow(r: multiset<nat>, a: seq<nat>, n: nat)
    requires MultiBelow(r, a + [n])
    ensures MultiBelow(r, a + [n, n + 1])
  {
    var line, longer := a + [n], a + [n, n + 1];
    forall x, i | x in r && 0 <= i < |longer| ensures x < longer[i] {
      assert line[|a|] == n;
      assert i <= |a| ==> line[i] == longer[i];
    }
  }

  /** Appending n+1 after n, with a middle stretch shed. */
  lemma LineGrows(acked: seq<nat>, front: seq<nat>, shed: seq<nat>, older: seq<nat>, n: nat)
    requires Ascending(acked + (front + (shed + (older + [n]))))
    ensures Ascending(acked + (front + ((older + [n]) + [n + 1])))
  {
    assert acked + (front + (shed + (older + [n]))) == (acked + front) + (shed + (older + [n]));
    DropMiddle(acked + front, shed, older + [n]);
    assert (acked + front) + (older + [n]) == (acked + front + older) + [n];
    PushLast(acked + front + older, n);
    assert (acked + front + older) + [n, n + 1] == acked + (front + ((older + [n]) + [n + 1]));
  }

  lemma TailGrows(r: multiset<nat>, front: seq<nat>, shed: seq<nat>, older: seq<nat>, n: nat)
    requires MultiBelow(r, front + (shed + (older + [n])))
    ensures MultiBelow(r, front + ((older + [n]) + [n + 1]))
  {
    DropMiddleBelow(r, front, shed, older + [n]);
    assert front + (older + [n]) == (front + older) + [n];
    PushLastBelow(r, front + older, n);
    assert (front + older) + [n, n + 1] == front + ((older + [n]) + [n + 1]);
  }

  lemma EnqueueInLine(cfg: Config, w: World, front: seq<nat>)
    requires cfg.maxQueueSize > 0 && !w.p.closed && InLine(w, front)
    ensures InLine(EnqueueStep(cfg, w).1, front)
  {
    var n := w.fates.accepted;
    var grown := w.p.buf + [n];
    var shed, kept := Shed(cfg, grown), Trimmed(cfg, grown);
    var older := kept[..|kept| - 1];
    assert kept == older + [n];
    assert grown == shed + (older + [n]);
    LineGrows(w.fates.acked, front, shed, older, n);
    TailGrows(w.fates.rejected, front, shed, older, n);
  }

  lemma TakeInLine(cfg: Config, w: World, who: Drainer)
    requires InLine(w, [])
    ensures InLine(TakeStep(cfg, w, who).1, InFlight(TakeStep(cfg, w, who).0))
  {
    var (pc', w') := TakeStep(cfg, w, who);
    assert Tail(w', InFlight(pc')) == Tail(w, []);
  }

  lemma AckInLine(w: World, who: Drainer, batch: seq<nat>)
    requires InLine(w, batch)
    ensures InLine(PostStep(w, who, batch, Ack).1, [])
  {
    var acked, rest := w.fates.acked, w.p.buf + [w.fates.accepted];
    assert (acked + batch) + ([] + rest) == acked + (batch + rest);
    assert [] + (batch + rest) == batch + rest;
    DropMiddleBelow(w.fates.rejected, [], batch, rest);
  }

  lemma RejectInLine(w: World, who: Drainer, batch: seq<nat>)
    requires InLine(w, batch)
    ensures InLine(PostStep(w, who, batch, Reject).1, [])
  {
    var acked, rest := w.fates.acked, w.p.buf + [w.fates.accepted];
    DropMiddle(acked, batch, rest);
    assert [] + rest == rest && [] + (batch + rest) == batch + rest;
    BatchBelowRest(acked, batch, rest);
    DropMiddleBelow(w.fates.rejected, [], batch, rest);
  }

  lemma PostInLine(w: World, who: Drainer, batch: seq<nat>, outcome: Outcome)
    requires InLine(w, batch)
    ensures InLine(PostStep(w, who, batch, outcome).1, InFlight(PostStep(w, who, batch, outcome).0))
  {
    match outcome
    case Ack => AckInLine(w, who, batch);
    case Reject => RejectInLine(w, who, batch);
    case Retry =>
  }

  lemma BatchBelowRest(a: seq<nat>, batch: seq<nat>, rest: seq<nat>)
    requires Ascending(a + (batch + rest))
    ensures MultiBelow(multiset(batch), rest)
  {
    var whole := a + (batch + rest);
    forall x, i | x in multiset(batch) && 0 <= i < |rest| ensures x < rest[i] {
      assert x in batch;
      var k :| 0 <= k < |batch| && batch[k] == x;
      assert whole[|a| + k] == x && whole[|a| + |batch| + i] == rest[i];
    }
  }

  lemma RequeueInLine(cfg: Config, w: World, clock: nat, who: Drainer, batch: seq<nat>)
    requires cfg.maxQueueSize > 0 && !w.p.closed && batch != [] && InLine(w, batch)
    ensures InLine(RequeueStep(cfg, w, clock, who, batch).1, [])
  {
    var acked, next := w.fates.acked, [w.fates.accepted];
    var combined := batch + w.p.buf;
    var shed, kept := Shed(cfg, combined), Trimmed(cfg, combined);
    assert batch + (w.p.buf + next) == shed + (kept + next);
    DropMiddle(acked, shed, kept + next);
    assert [] + (shed + (kept + next)) == shed + (kept + next);
    DropMiddleBelow(w.fates.rejected, [], shed, kept + next);
    assert [] + (kept + next) == kept + next;
  }

  /** The front after a step of caller c from pc to pc'. */
  function FrontAfter(front: seq<nat>, pc: Pc, pc': Pc): seq<nat> {
    if InFlushDrain(pc') then InFlight(pc') else if InFlushDrain(pc) then [] else front
  }

  lemma StepInLine(cfg: Config, w: World, clock: nat, c: nat, pc: Pc, outcome: Outcome, front: seq<nat>)
    requires cfg.maxQueueSize > 0 && !w.p.closed && InLine(w, front) && Fits(w, c, pc) && BatchBounded(cfg, pc)
    requires InFlushDrain(pc) ==> front == InFlight(pc)
    requires !w.p.draining ==> front == []
    ensures var (pc', w') := Step(cfg, w, clock, c, pc, outcome);
      !w'.p.closed ==> InLine(w', FrontAfter(front, pc, pc'))
  {
    var next := Step(cfg, w, clock, c, pc, outcome);
    if pc.Enqueuing? {
      EnqueueInLine(cfg, w, front);
      assert next == EnqueueStep(cfg, w) && !InFlushDrain(next.0);
    } else if pc.Draining? {
      TakeInLine(cfg, w, pc.who);
      assert next == TakeStep(cfg, w, pc.who) && InFlushDrain(next.0);
    } else if pc.Posting? {
      PostInLine(w, pc.who, pc.batch, outcome);
      assert next == PostStep(w, pc.who, pc.batch, outcome) && InFlushDrain(next.0);
    } else if pc.Requeuing? {
      RequeueInLine(cfg, w, clock, pc.who, pc.batch);
      assert next == RequeueStep(cfg, w, clock, pc.who, pc.batch) && InFlushDrain(next.0);
    } else {
      QuietInLine(cfg, w, clock, c, pc, outcome, front);
    }
  }

  lemma QuietInLine(cfg: Config, w: World, clock: nat, c: nat, pc: Pc, outcome: Outcome, front: seq<nat>)
    requires cfg.maxQueueSize > 0 && !w.p.closed && InLine(w, front) && Fits(w, c, pc)
    requires !pc.Enqueuing? && !pc.Draining? && !pc.Posting? && !pc.Requeuing?
    requires InFlushDrain(pc) ==> front == []
    requires !w.p.draining ==> front == []
    ensures var (pc', w') := Step(cfg, w, clock, c, pc, outcome);
      !w'.p.closed ==> InLine(w', FrontAfter(front, pc, pc'))
  {
    var (pc', w') := Step(cfg, w, clock, c, pc, outcome);
    assert !w'.p.closed ==> w'.p.buf == w.p.buf && w'.fates == w.fates;
  }

  lemma FrontFollows(cfg: Config, s: State, c: nat, outcome: Outcome)
    requires cfg.maxQueueSize > 0 && Roles(s) && c < |s.callers|
    ensures var t := Next(cfg, s, Run(c, outcome));
      Front(t) == FrontAfter(Front(s), s.callers[c], t.callers[c])
  {
    assert Fits(s.w, c, s.callers[c]);
    StepHolds(cfg, s.w, s.clock, c, s.callers[c], outcome);
    DrainFlag(cfg, s.w, s.clock, c, s.callers[c], outcome);
  }

  /** The drain channel changes hands only through its own steps. */
  lemma DrainFlag(cfg: Config, w: World, clock: nat, c: nat, pc: Pc, outcome: Outcome)
    requires cfg.maxQueueSize > 0
    ensures var (pc', w') := Step(cfg, w, clock, c, pc, outcome);
      && (!InFlushDrain(pc) && !InFlushDrain(pc') ==>
           w'.p.draining == w.p.draining && w'.holders.drain == w.holders.drain)
      && (InFlushDrain(pc) && !InFlushDrain(pc') ==> !w'.p.draining)
  {
  }

  lemma OrderedKept(cfg: Config, s: State, a: Action)
    requires cfg.maxQueueSize > 0 && Roles(s) && Bounds(cfg, s) && Ordered(s)
    ensures Ordered(Next(cfg, s, a))
  {
    if a.Run? && a.caller < |s.callers| {
      var c := a.caller;
      assert Fits(s.w, c, s.callers[c]);
      if !s.w.p.closed {
        StepInLine(cfg, s.w, s.clock, c, s.callers[c], a.outcome, Front(s));
        FrontFollows(cfg, s, c, a.outcome);
      } else {
        StaysClosed(cfg, s.w, s.clock, c, s.callers[c], a.outcome);
      }
    }
  }

  lemma StaysClosed(cfg: Config, w: World, clock: nat, c: nat, pc: Pc, outcome: Outcome)
    requires cfg.maxQueueSize > 0 && w.p.closed
    ensures Step(cfg, w, clock, c, pc, outcome).1.p.closed
  {
  }

  // ---- the whole invariant, in every interleaving --------------------------------------------

  ghost predicate Invariant(cfg: Config, s: State) {
    Roles(s) && Bounds(cfg, s) && Conserved(s) && Ordered(s) && GateSane(cfg, s) && KeptWhileOpen(s)
  }

  /** Until stop begins, no accepted event is discarded. */
  predicate KeptWhileOpen(s: State) {
    !s.w.p.closed ==> s.w.fates.discarded == multiset{}
  }

  lemma DiscardsNeedClose(cfg: Config, w: World, clock: nat, c: nat, pc: Pc, outcome: Outcome)
    requires cfg.maxQueueSize > 0 && Fits(w, c, pc)
    ensures var w' := Step(cfg, w, clock, c, pc, outcome).1;
      !w'.p.closed ==> !w.p.closed && w'.fates.discarded == w.fates.discarded
  {
  }

  /** The gate is never armed further ahead than one interval from now. */
  predicate GateSane(cfg: Config, s: State) {
    s.w.p.gate <= s.clock + cfg.interval
  }

  lemma GateSaneKept(cfg: Config, s: State, a: Action)
    requires cfg.maxQueueSize > 0 && GateSane(cfg, s)
    ensures GateSane(cfg, Next(cfg, s, a))
  {
    if a.Run? && a.caller < |s.callers| {
      GateMoves(cfg, s.w, s.clock, a.caller, s.callers[a.caller], a.outcome);
    }
  }

  /** Only an acknowledged send opens the gate and only a requeue arms it. */
  lemma GateMoves(cfg: Config, w: World, clock: nat, c: nat, pc: Pc, outcome: Outcome)
    requires cfg.maxQueueSize > 0
    ensures Step(cfg, w, clock, c, pc, outcome).1.p.gate ==
      if pc.Acked? then 0
      else if pc.Requeuing? && !w.p.closed && pc.batch != [] then clock + cfg.interval
      else w.p.gate
  {
  }

  lemma InvariantKept(cfg: Config, s: State, a: Action)
    requires cfg.maxQueueSize > 0 && Invariant(cfg, s)
    ensures Invariant(cfg, Next(cfg, s, a))
  {
    RolesKept(cfg, s, a);
    BoundsKept(cfg, s, a);
    ConservedKept(cfg, s, a);
    OrderedKept(cfg, s, a);
    GateSaneKept(cfg, s, a);
    if a.Run? && a.caller < |s.callers| {
      assert Fits(s.w, a.caller, s.callers[a.caller]);
      DiscardsNeedClose(cfg, s.w, s.clock, a.caller, s.callers[a.caller], a.outcome);
    }
  }

  lemma {:induction false} InvariantAfter(cfg: Config, s: State, actions: seq<Action>)
    requires cfg.maxQueueSize > 0 && Invariant(cfg, s)
    ensures Invariant(cfg, After(cfg, s, actions))
    decreases |actions|
  {
    if actions != [] {
      InvariantKept(cfg, s, actions[0]);
      InvariantAfter(cfg, Next(cfg, s, actions[0]), actions[1..]);
    }
  }

  lemma EveryRun(cfg: Config, actions: seq<Action>)
    requires cfg.maxQueueSize > 0
    ensures Invariant(cfg, After(cfg, INIT, actions))
  {
    assert Conserved(INIT) by {
      assert forall e: nat :: Flying([], e) == 0 && Grounded(INIT.w, e) == 0;
    }
    InvariantAfter(cfg, INIT, actions);
  }

  // ---- conservation and order, for a reader -----------------------------------------------------

  /** The number of places, among all there are, where e is found. */
  ghost function Places(s: State, e: nat): nat {
    Flying(s.callers, e) + Grounded(s.w, e)
  }

  /**
   * Every accepted event is in exactly one place, whatever happens, and none is made up; only a
   * stop discards.
   */
  lemma EventsConserved(cfg: Config, actions: seq<Action>, e: nat)
    requires cfg.maxQueueSize > 0
    ensures var s := After(cfg, INIT, actions);
      Places(s, e) == (if e < s.w.fates.accepted then 1 else 0) && KeptWhileOpen(s)
  {
    EveryRun(cfg, actions);
  }

  /**
   * Until stop begins, everything acknowledged, then the batch in flight, then the buffer, is in
   * the order of acceptance, and nothing rejected is newer than what still waits.
   */
  lemma EventsOrdered(cfg: Config, actions: seq<Action>)
    requires cfg.maxQueueSize > 0
    ensures var s := After(cfg, INIT, actions);
      !s.w.p.closed ==>
        Ascending(s.w.fates.acked + (Front(s) + s.w.p.buf)) && MultiBelow(s.w.fates.rejected, Front(s) + s.w.p.buf)
  {
    EveryRun(cfg, actions);
    var s := After(cfg, INIT, actions);
    if !s.w.p.closed {
      var acked, waiting, next := s.w.fates.acked, Front(s) + s.w.p.buf, [s.w.fates.accepted];
      assert Tail(s.w, Front(s)) == waiting + next;
      assert acked + (waiting + next) == (acked + waiting) + (next + []);
      DropMiddle(acked + waiting, next, []);
      assert (acked + waiting) + [] == acked + waiting;
      assert waiting + next == waiting + (next + []) && waiting + [] == waiting;
      DropMiddleBelow(s.w.fates.rejected, waiting, next, []);
    }
  }

  /** Two places that hold batches, held by different callers. */
  lemma TwoCarriers(w: World, c: nat, pc: Pc, d: nat, qc: Pc)
    requires c != d && Fits(w, c, pc) && Fits(w, d, qc) && Carries(pc) && Carries(qc)
    ensures w.p.closed && {c, d} == {w.holders.drain, w.holders.stop}
    ensures InStopDrain(pc) <==> InFlushDrain(qc)
  {
    assert InFlushDrain(pc) || InStopDrain(pc);
    assert InFlushDrain(qc) || InStopDrain(qc);
  }

  /** At most one batch is in flight before stop begins and at most two, one of them stop's, after. */
  lemma BatchesInFlight(cfg: Config, actions: seq<Action>, c: nat, d: nat)
    requires cfg.maxQueueSize > 0
    requires var s := After(cfg, INIT, actions);
      c < d < |s.callers| && Carries(s.callers[c]) && Carries(s.callers[d])
    ensures var s := After(cfg, INIT, actions);
      && s.w.p.closed
      && {c, d} == {s.w.holders.drain, s.w.holders.stop}
      && (InStopDrain(s.callers[c]) <==> InFlushDrain(s.callers[d]))
  {
    EveryRun(cfg, actions);
    var s := After(cfg, INIT, actions);
    assert Fits(s.w, c, s.callers[c]) && Fits(s.w, d, s.callers[d]);
    TwoCarriers(s.w, c, s.callers[c], d, s.callers[d]);
  }

  /** Every batch holds 1 to max(1, batchSize) events and the buffer respects its bound. */
  lemma BoundsHold(cfg: Config, actions: seq<Action>)
    requires cfg.maxQueueSize > 0
    ensures Bounds(cfg, After(cfg, INIT, actions))
  {
    EveryRun(cfg, actions);
  }

  /** Once stop cleared the buffer, nothing is ever buffered again. */
  lemma {:induction false} StaysEmpty(cfg: Config, s: State, actions: seq<Action>)
    requires cfg.maxQueueSize > 0 && Invariant(cfg, s) && s.w.holders.over
    ensures After(cfg, s, actions).w.holders.over && After(cfg, s, actions).w.p.buf == []
    decreases |actions|
  {
    if actions != [] {
      InvariantKept(cfg, s, actions[0]);
      StaysEmpty(cfg, Next(cfg, s, actions[0]), actions[1..]);
    }
  }

  // ---- the backoff gate ------------------------------------------------------------------------

  predicate AutoFlushAdmitted(cfg: Config, s: State, a: Action)
    requires cfg.maxQueueSize > 0
  {
    a.Run? && a.caller < |s.callers| && s.callers[a.caller].AutoFlushing?
    && Next(cfg, s, a).callers[a.caller].Flushing?
  }

  /** A size-triggered flush takes the drain channel. */
  predicate AutoDrainBegins(cfg: Config, s: State, a: Action)
    requires cfg.maxQueueSize > 0
  {
    a.Run? && a.caller < |s.callers| && s.callers[a.caller] == Flushing(true)
    && Next(cfg, s, a).callers[a.caller].Draining?
  }

  /** An acknowledged send opens the gate. */
  predicate OpensGate(s: State, a: Action) {
    a.Run? && a.caller < |s.callers| && s.callers[a.caller].Acked?
  }

  ghost function Admissions(cfg: Config, s: State, actions: seq<Action>): nat
    requires cfg.maxQueueSize > 0
    decreases |actions|
  {
    if actions == [] then 0 else
      var now := if AutoFlushAdmitted(cfg, s, actions[0]) then 1 else 0;
      now + Admissions(cfg, Next(cfg, s, actions[0]), actions[1..])
  }

  ghost function AutoDrains(cfg: Config, s: State, actions: seq<Action>): nat
    requires cfg.maxQueueSize > 0
    decreases |actions|
  {
    if actions == [] then 0 else
      var now := if AutoDrainBegins(cfg, s, actions[0]) then 1 else 0;
      now + AutoDrains(cfg, Next(cfg, s, actions[0]), actions[1..])
  }

  /** No step of the run opens the gate, and the run is over before until. */
  ghost predicate Gated(cfg: Config, s: State, actions: seq<Action>, until: nat)
    requires cfg.maxQueueSize > 0
    decreases |actions|
  {
    s.clock < until && (actions != [] ==>
      !OpensGate(s, actions[0]) && Gated(cfg, Next(cfg, s, actions[0]), actions[1..], until))
  }

  /** The one size-triggered flush that may have been admitted before and not yet begun. */
  ghost function Pending(s: State): nat {
    var c := s.w.holders.auto;
    if s.w.p.autoBusy && c < |s.callers| && s.callers[c] == Flushing(true) then 1 else 0
  }

  /** While the gate is shut, no step admits a size-triggered flush or hands over the latch. */
  lemma ShutAdmitsNobody(cfg: Config, w: World, clock: nat, c: nat, pc: Pc, outcome: Outcome)
    requires cfg.maxQueueSize > 0 && clock < w.p.gate
    ensures var (pc', w') := Step(cfg, w, clock, c, pc, outcome);
      pc' != Flushing(true) && (w'.p.autoBusy ==> w.p.autoBusy && w'.holders.auto == w.holders.auto)
  {
  }

  lemma GateStep(cfg: Config, s: State, a: Action)
    requires cfg.maxQueueSize > 0 && Roles(s) && GateSane(cfg, s) && s.clock < s.w.p.gate && !OpensGate(s, a)
    ensures Next(cfg, s, a).w.p.gate >= s.w.p.gate
    ensures !AutoFlushAdmitted(cfg, s, a)
    ensures Pending(Next(cfg, s, a)) + (if AutoDrainBegins(cfg, s, a) then 1 else 0) <= Pending(s)
  {
    if a.Run? && a.caller < |s.callers| {
      var c := a.caller;
      assert Fits(s.w, c, s.callers[c]);
      GateMoves(cfg, s.w, s.clock, c, s.callers[c], a.outcome);
      ShutAdmitsNobody(cfg, s.w, s.clock, c, s.callers[c], a.outcome);
    }
  }

  /**
   * While the gate stays shut, autoFlush admits nobody, and at most one size-triggered drain
   * begins: one that had been admitted before.
   */
  lemma {:induction false} GateHolds(cfg: Config, s: State, actions: seq<Action>, until: nat)
    requires cfg.maxQueueSize > 0 && Invariant(cfg, s)
    requires s.w.p.gate >= until && Gated(cfg, s, actions, until)
    ensures Admissions(cfg, s, actions) == 0
    ensures AutoDrains(cfg, s, actions) <= Pending(s) <= 1
    decreases |actions|
  {
    if actions != [] {
      GateStep(cfg, s, actions[0]);
      InvariantKept(cfg, s, actions[0]);
      GateHolds(cfg, Next(cfg, s, actions[0]), actions[1..], until);
    }
  }

  lemma BackoffFrom(cfg: Config, s: State, a: Action, after: seq<Action>)
    requires cfg.maxQueueSize > 0 && Invariant(cfg, s)
    requires a.Run? && a.caller < |s.callers| && s.callers[a.caller].Requeuing? && !s.w.p.closed
    requires Gated(cfg, Next(cfg, s, a), after, s.clock + cfg.interval)
    ensures Admissions(cfg, Next(cfg, s, a), after) == 0 && AutoDrains(cfg, Next(cfg, s, a), after) <= 1
  {
    RequeueArms(cfg, s, a);
    InvariantKept(cfg, s, a);
    GateHolds(cfg, Next(cfg, s, a), after, s.clock + cfg.interval);
  }

  /** In particular from the requeue that arms it: one interval of quiet. */
  lemma BackoffAfterFailure(cfg: Config, before: seq<Action>, s: State, a: Action, after: seq<Action>)
    requires cfg.maxQueueSize > 0 && s == After(cfg, INIT, before)
    requires a.Run? && a.caller < |s.callers| && s.callers[a.caller].Requeuing? && !s.w.p.closed
    requires Gated(cfg, Next(cfg, s, a), after, s.clock + cfg.interval)
    ensures Admissions(cfg, Next(cfg, s, a), after) == 0 && AutoDrains(cfg, Next(cfg, s, a), after) <= 1
  {
    EveryRun(cfg, before);
    BackoffFrom(cfg, s, a, after);
  }

  lemma RequeueArms(cfg: Config, s: State, a: Action)
    requires cfg.maxQueueSize > 0 && Bounds(cfg, s)
    requires a.Run? && a.caller < |s.callers| && s.callers[a.caller].Requeuing? && !s.w.p.closed
    ensures Next(cfg, s, a).w.p.gate == s.clock + cfg.interval
  {
    assert BatchBounded(cfg, s.callers[a.caller]);
    GateMoves(cfg, s.w, s.clock, a.caller, s.callers[a.caller], a.outcome);
  }

  // ---- what is shed ------------------------------------------------------------------------------

  /** What a step shed is older than everything buffered after it. */
  ghost predicate ShedBelow(before: World, after: World) {
    forall e, i | 0 <= i < |after.p.buf| && after.fates.shed[e] > before.fates.shed[e] :: e < after.p.buf[i]
  }

  lemma PrefixBelow(cfg: Config, buf: seq<nat>, shed: multiset<nat>)
    requires cfg.maxQueueSize > 0 && Ascending(buf)
    ensures forall e, i | 0 <= i < |Trimmed(cfg, buf)| && (shed + multiset(Shed(cfg, buf)))[e] > shed[e] ::
      e < Trimmed(cfg, buf)[i]
  {
    var lost, kept := Shed(cfg, buf), Trimmed(cfg, buf);
    forall e, i | 0 <= i < |kept| && (shed + multiset(lost))[e] > shed[e] ensures e < kept[i] {
      assert e in multiset(lost);
      var k :| 0 <= k < |lost| && lost[k] == e;
      assert buf[k] == e && buf[|lost| + i] == kept[i];
    }
  }

  lemma MiddleAscends(a: seq<nat>, b: seq<nat>, c: seq<nat>)
    requires Ascending(a + (b + c))
    ensures Ascending(b)
  {
    var whole := a + (b + c);
    forall i, j | 0 <= i < j < |b| ensures b[i] < b[j] {
      assert whole[|a| + i] == b[i] && whole[|a| + j] == b[j];
    }
  }

  lemma EnqueueShedsOldest(cfg: Config, w: World, front: seq<nat>)
    requires cfg.maxQueueSize > 0 && !w.p.closed && InLine(w, front)
    ensures ShedBelow(w, EnqueueStep(cfg, w).1)
  {
    var grown := w.p.buf + [w.fates.accepted];
    var whole := w.fates.acked + Tail(w, front);
    assert whole == (w.fates.acked + front) + (grown + []);
    MiddleAscends(w.fates.acked + front, grown, []);
    PrefixBelow(cfg, grown, w.fates.shed);
  }

  lemma RequeueShedsOldest(cfg: Config, w: World, clock: nat, who: Drainer, batch: seq<nat>)
    requires cfg.maxQueueSize > 0 && !w.p.closed && batch != [] && InLine(w, batch)
    ensures ShedBelow(w, RequeueStep(cfg, w, clock, who, batch).1)
  {
    var combined := batch + w.p.buf;
    var whole := w.fates.acked + Tail(w, batch);
    assert whole == w.fates.acked + (combined + [w.fates.accepted]);
    MiddleAscends(w.fates.acked, combined, [w.fates.accepted]);
    PrefixBelow(cfg, combined, w.fates.shed);
  }

  lemma StepShedsOldest(cfg: Config, w: World, clock: nat, c: nat, pc: Pc, outcome: Outcome, front: seq<nat>)
    requires cfg.maxQueueSize > 0 && Fits(w, c, pc) && BatchBounded(cfg, pc)
    requires !w.p.closed ==> InLine(w, front) && (InFlushDrain(pc) ==> front == InFlight(pc))
    ensures ShedBelow(w, Step(cfg, w, clock, c, pc, outcome).1)
  {
    if pc.Enqueuing? && !w.p.closed {
      EnqueueShedsOldest(cfg, w, front);
    } else if pc.Requeuing? && !w.p.closed {
      RequeueShedsOldest(cfg, w, clock, pc.who, pc.batch);
    } else {
      NothingShed(cfg, w, clock, c, pc, outcome);
    }
  }

  lemma NothingShed(cfg: Config, w: World, clock: nat, c: nat, pc: Pc, outcome: Outcome)
    requires cfg.maxQueueSize > 0 && (w.p.closed || (!pc.Enqueuing? && !pc.Requeuing?))
    ensures Step(cfg, w, clock, c, pc, outcome).1.fates.shed == w.fates.shed
  {
  }

  /** In every interleaving whatever a step sheds is older than everything still buffered after it. */
  lemma OldestAreShed(cfg: Config, actions: seq<Action>, a: Action)
    requires cfg.maxQueueSize > 0
    ensures var s := After(cfg, INIT, actions); ShedBelow(s.w, Next(cfg, s, a).w)
  {
    EveryRun(cfg, actions);
    var s := After(cfg, INIT, actions);
    if a.Run? && a.caller < |s.callers| {
      var c := a.caller;
      assert Fits(s.w, c, s.callers[c]);
      StepShedsOldest(cfg, s.w, s.clock, c, s.callers[c], a.outcome, Front(s));
    }
  }

  // ---- the gate opens again, and closing shuts it --------------------------------------------------

  /** One interval later the gate is open, whatever happened before. */
  lemma GateExpires(cfg: Config, actions: seq<Action>)
    requires cfg.maxQueueSize > 0
    ensures var s := Next(cfg, After(cfg, INIT, actions), Tick(cfg.interval));
      s.w.p.gate <= s.clock && (Admits(s.w.p, s.clock) <==> !s.w.p.closed && !s.w.p.autoBusy)
  {
    EveryRun(cfg, actions);
  }

  /** Once stop began, the size trigger admits nobody. */
  lemma ClosedAdmitsNobody(cfg: Config, s: State, a: Action)
    requires cfg.maxQueueSize > 0 && s.w.p.closed
    ensures !AutoFlushAdmitted(cfg, s, a)
  {
  }
}
