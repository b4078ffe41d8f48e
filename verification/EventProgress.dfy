/** What one caller of the event processor gets done while the others rest (events.go:118-390). */
module EventProgress {
  import opened EventQueue
  import opened EventGuarantees
  import opened EventProtocol

  /** Caller c takes n steps by itself, every post ending in outcome. */
  function Solo(cfg: Config, w: World, clock: nat, c: nat, pc: Pc, outcome: Outcome, n: nat): (Pc, World)
    requires cfg.maxQueueSize > 0
    decreases n
  {
    if n == 0 then (pc, w)
    else
      var (pc', w') := Step(cfg, w, clock, c, pc, outcome);
      Solo(cfg, w', clock, c, pc', outcome, n - 1)
  }

  lemma {:induction false} SoloJoin(cfg: Config, w: World, clock: nat, c: nat, pc: Pc, outcome: Outcome, m: nat, n: nat)
    requires cfg.maxQueueSize > 0
    ensures var (pc', w') := Solo(cfg, w, clock, c, pc, outcome, m);
      Solo(cfg, w, clock, c, pc, outcome, m + n) == Solo(cfg, w', clock, c, pc', outcome, n)
    decreases m
  {
    if m > 0 {
      var (pc', w') := Step(cfg, w, clock, c, pc, outcome);
      SoloJoin(cfg, w', clock, c, pc', outcome, m - 1, n);
    }
  }

  function Runs(c: nat, outcome: Outcome, n: nat): seq<Action> {
    if n == 0 then [] else [Run(c, outcome)] + Runs(c, outcome, n - 1)
  }

  /** Which is a run of the protocol in which only c acts. */
  lemma {:induction false} SoloIsRun(cfg: Config, s: State, c: nat, outcome: Outcome, n: nat)
    requires cfg.maxQueueSize > 0 && c < |s.callers|
    ensures var (pc, w) := Solo(cfg, s.w, s.clock, c, s.callers[c], outcome, n);
      After(cfg, s, Runs(c, outcome, n)) == State(w, s.clock, s.callers[c := pc])
    decreases n
  {
    if n == 0 {
      assert s.callers[c := s.callers[c]] == s.callers;
    } else {
      var next := Next(cfg, s, Run(c, outcome));
      SoloIsRun(cfg, next, c, outcome, n - 1);
      assert Runs(c, outcome, n)[1..] == Runs(c, outcome, n - 1);
    }
  }

  // ---- a drain loop alone -------------------------------------------------------------

  /** Everything buffered was acknowledged, and the gate is open if anything was sent. */
  function AllAcked(w: World): World {
    w.(p := w.p.(buf := [], gate := if w.p.buf == [] then w.p.gate else 0),
       fates := w.fates.(acked := w.fates.acked + w.p.buf))
  }

  /** The first batch is taken, acknowledged and the gate opened: three steps. */
  lemma OneBatchAcked(cfg: Config, w: World, clock: nat, c: nat, who: Drainer)
    requires cfg.maxQueueSize > 0 && w.p.buf != []
    ensures var n := TakeCount(cfg, w.p.buf);
      Solo(cfg, w, clock, c, Draining(who), Ack, 3) ==
        (Draining(who), w.(p := w.p.(buf := w.p.buf[n..], gate := 0),
                           fates := w.fates.(acked := w.fates.acked + w.p.buf[..n])))
  {
    var (pc1, w1) := Step(cfg, w, clock, c, Draining(who), Ack);
    var (pc2, w2) := Step(cfg, w1, clock, c, pc1, Ack);
    var (pc3, w3) := Step(cfg, w2, clock, c, pc2, Ack);
    assert Solo(cfg, w2, clock, c, pc2, Ack, 1) == (pc3, w3);
    assert Solo(cfg, w1, clock, c, pc1, Ack, 2) == (pc3, w3);
  }

  /** While every post succeeds, a drain sends the whole buffer, in order. */
  lemma {:induction false} DrainDelivers(cfg: Config, w: World, clock: nat, c: nat, who: Drainer) returns (n: nat)
    requires cfg.maxQueueSize > 0
    ensures Solo(cfg, w, clock, c, Draining(who), Ack, n) == (AfterDrain(who), AllAcked(w))
    decreases |w.p.buf|
  {
    if w.p.buf == [] {
      n := 1;
      assert w.fates.acked + [] == w.fates.acked;
      assert Solo(cfg, w, clock, c, AfterDrain(who), Ack, 0) == (AfterDrain(who), w);
    } else {
      OneBatchAcked(cfg, w, clock, c, who);
      var (pc, next) := Solo(cfg, w, clock, c, Draining(who), Ack, 3);
      var rest := DrainDelivers(cfg, next, clock, c, who);
      n := 3 + rest;
      SoloJoin(cfg, w, clock, c, Draining(who), Ack, 3, rest);
      TakenTogether(w, TakeCount(cfg, w.p.buf));
    }
  }

  lemma TakenTogether(w: World, n: nat)
    requires n <= |w.p.buf| && w.p.buf != []
    ensures AllAcked(w.(p := w.p.(buf := w.p.buf[n..], gate := 0),
      fates := w.fates.(acked := w.fates.acked + w.p.buf[..n]))) == AllAcked(w)
  {
    assert w.p.buf == w.p.buf[..n] + w.p.buf[n..];
    assert w.fates.acked + w.p.buf[..n] + w.p.buf[n..] == w.fates.acked + w.p.buf;
  }

  lemma OneBatchBack(cfg: Config, w: World, clock: nat, who: Drainer)
    requires cfg.maxQueueSize > 0 && |w.p.buf| <= cfg.maxQueueSize && !w.p.closed && w.p.buf != []
    ensures var n := TakeCount(cfg, w.p.buf);
      RequeueStep(cfg, w.(p := w.p.(buf := w.p.buf[n..])), clock, who, w.p.buf[..n]) ==
        (AfterDrain(who), w.(p := w.p.(gate := clock + cfg.interval)))
  {
    PutBackWhole(cfg, w.p.buf);
    assert w.p.buf[..TakeCount(cfg, w.p.buf)] != [];
    assert w.fates.shed + multiset{} == w.fates.shed;
  }

  /** While posts fail, an open drain makes one attempt, loses nothing and arms the gate. */
  lemma DrainBacksOff(cfg: Config, w: World, clock: nat, c: nat, who: Drainer)
    requires cfg.maxQueueSize > 0 && w.p.buf != [] && |w.p.buf| <= cfg.maxQueueSize && !w.p.closed
    ensures var (pc, next) := Solo(cfg, w, clock, c, Draining(who), Retry, 3);
      && pc == AfterDrain(who)
      && next.p == w.p.(gate := clock + cfg.interval) && next.fates == w.fates && next.holders == w.holders
  {
    var n := TakeCount(cfg, w.p.buf);
    var w1 := w.(p := w.p.(buf := w.p.buf[n..]));
    var posting, requeuing := Posting(who, w.p.buf[..n]), Requeuing(who, w.p.buf[..n]);
    OneBatchBack(cfg, w, clock, who);
    var (pc, last) := RequeueStep(cfg, w1, clock, who, w.p.buf[..n]);
    assert Step(cfg, w, clock, c, Draining(who), Retry) == (posting, w1);
    assert Step(cfg, w1, clock, c, posting, Retry) == (requeuing, w1);
    assert Solo(cfg, last, clock, c, pc, Retry, 0) == (pc, last);
    assert Solo(cfg, w1, clock, c, requeuing, Retry, 1) == (pc, last);
    assert Solo(cfg, w1, clock, c, posting, Retry, 2) == (pc, last);
  }

  lemma PutBackWhole(cfg: Config, buf: seq<nat>)
    requires cfg.maxQueueSize > 0 && |buf| <= cfg.maxQueueSize
    ensures var n := TakeCount(cfg, buf);
      Trimmed(cfg, buf[..n] + buf[n..]) == buf && multiset(Shed(cfg, buf[..n] + buf[n..])) == multiset{}
  {
    var n := TakeCount(cfg, buf);
    assert buf[..n] + buf[n..] == buf;
    assert buf[..0] == [];
  }

  // ---- whole calls alone -----------------------------------------------------------------

  /** A flush nobody else is draining for sends everything and gives the channel, and the latch, back. */
  lemma FlushDelivers(cfg: Config, w: World, clock: nat, c: nat, auto: bool) returns (n: nat)
    requires cfg.maxQueueSize > 0 && !w.p.draining
    ensures var (pc, next) := Solo(cfg, w, clock, c, Flushing(auto), Ack, n);
      && pc.Done?
      && next.fates == AllAcked(w).fates
      && next.p == AllAcked(w).p.(autoBusy := w.p.autoBusy && !auto)
  {
    var (pc1, w1) := Step(cfg, w, clock, c, Flushing(auto), Ack);
    var d := DrainDelivers(cfg, w1, clock, c, ByFlush(auto));
    SoloJoin(cfg, w, clock, c, Flushing(auto), Ack, 1, d);
    assert Solo(cfg, w, clock, c, Flushing(auto), Ack, 1) == (pc1, w1);
    var w2 := AllAcked(w1);
    SoloJoin(cfg, w, clock, c, Flushing(auto), Ack, 1 + d, 2);
    FlushEnds(cfg, w2, clock, c, auto);
    n := 1 + d + 2;
  }

  lemma FlushEnds(cfg: Config, w: World, clock: nat, c: nat, auto: bool)
    requires cfg.maxQueueSize > 0
    ensures Solo(cfg, w, clock, c, Ending(auto), Ack, 2) ==
      (Done, w.(p := w.p.(draining := false, autoBusy := w.p.autoBusy && !auto)))
  {
    var (pc1, w1) := Step(cfg, w, clock, c, Ending(auto), Ack);
    var (pc2, w2) := Step(cfg, w1, clock, c, pc1, Ack);
    assert Solo(cfg, w1, clock, c, pc1, Ack, 1) == (pc2, w2);
  }

  /** The world once an event was accepted. */
  function Accepted(cfg: Config, w: World): World
    requires cfg.maxQueueSize > 0
  {
    EnqueueStep(cfg, w).1
  }

  /**
   * An event that makes a full batch, with the gate open and nobody flushing, is sent by the call
   * that tracked it, together with everything before it.
   */
  lemma FullBatchIsSent(cfg: Config, w: World, clock: nat, c: nat) returns (n: nat)
    requires cfg.maxQueueSize > 0 && !w.p.closed && !w.p.autoBusy && !w.p.draining && w.p.gate <= clock
    requires cfg.batchSize <= |w.p.buf| + 1 && cfg.batchSize <= cfg.maxQueueSize
    ensures var (pc, next) := Solo(cfg, w, clock, c, Enqueuing, Ack, n);
      && pc.Done? && next.p.buf == [] && !next.p.autoBusy && !next.p.draining
      && next.fates.acked == w.fates.acked + Trimmed(cfg, w.p.buf + [w.fates.accepted])
  {
    var w1 := Accepted(cfg, w);
    var (pc2, w2) := Step(cfg, w1, clock, c, AutoFlushing, Ack);
    assert Step(cfg, w, clock, c, Enqueuing, Ack) == (AutoFlushing, w1);
    assert Solo(cfg, w1, clock, c, AutoFlushing, Ack, 1) == (pc2, w2);
    assert Solo(cfg, w, clock, c, Enqueuing, Ack, 2) == (Flushing(true), w2);
    var d := FlushDelivers(cfg, w2, clock, c, true);
    SoloJoin(cfg, w, clock, c, Enqueuing, Ack, 2, d);
    n := 2 + d;
  }

  /** A stop left alone sends what it can, and leaves nothing buffered. */
  lemma StopDelivers(cfg: Config, w: World, clock: nat, c: nat) returns (n: nat)
    requires cfg.maxQueueSize > 0 && !w.p.closed
    ensures var (pc, next) := Solo(cfg, w, clock, c, Stopping, Ack, n);
      && pc.Done? && next.p.closed && next.holders.over && next.p.buf == []
      && next.fates == w.fates.(acked := w.fates.acked + w.p.buf)
  {
    var (pc1, w1) := Step(cfg, w, clock, c, Stopping, Ack);
    var d := DrainDelivers(cfg, w1, clock, c, ByStop);
    assert Solo(cfg, w, clock, c, Stopping, Ack, 1) == (pc1, w1);
    SoloJoin(cfg, w, clock, c, Stopping, Ack, 1, d);
    SoloJoin(cfg, w, clock, c, Stopping, Ack, 1 + d, 1);
    var w2 := AllAcked(w1);
    assert Step(cfg, w2, clock, c, Clearing, Ack) == ClearStep(w2);
    assert Solo(cfg, w2, clock, c, Clearing, Ack, 1) == ClearStep(w2);
    n := 1 + d + 1;
  }

  // ---- nothing is orphaned ----------------------------------------------------------------

  predicate MansDrain(w: World, c: nat, pc: Pc) {
    w.p.draining && w.holders.drain == c ==> InFlushDrain(pc)
  }

  predicate MansAuto(w: World, c: nat, pc: Pc) {
    w.p.autoBusy && w.holders.auto == c ==> InAutoFlush(pc)
  }

  predicate MansStop(w: World, c: nat, pc: Pc) {
    w.p.closed && !w.holders.over && w.holders.stop == c ==> InStopDrain(pc)
  }

  /** Whatever says caller c holds it, c is in the stretch that gives it back. */
  predicate Mans(w: World, c: nat, pc: Pc) {
    MansDrain(w, c, pc) && MansAuto(w, c, pc) && MansStop(w, c, pc)
  }

  /** Latch, drain channel and stop are held by callers there are. */
  predicate HeldBelow(w: World, n: nat) {
    && (w.p.draining ==> w.holders.drain < n)
    && (w.p.autoBusy ==> w.holders.auto < n)
    && (w.p.closed && !w.holders.over ==> w.holders.stop < n)
  }

  ghost predicate Manned(s: State) {
    HeldBelow(s.w, |s.callers|) && forall c | 0 <= c < |s.callers| :: Mans(s.w, c, s.callers[c])
  }

  predicate DrainOnlyMoves(v: World, w: World, c: nat) {
    w.p.draining && w.holders.drain != c ==> v.p.draining && v.holders.drain == w.holders.drain
  }

  predicate AutoOnlyMoves(v: World, w: World, c: nat) {
    w.p.autoBusy && w.holders.auto != c ==> v.p.autoBusy && v.holders.auto == w.holders.auto
  }

  predicate StopOnlyMoves(v: World, w: World, c: nat) {
    w.p.closed && !w.holders.over && w.holders.stop != c ==>
      v.p.closed && !v.holders.over && v.holders.stop == w.holders.stop
  }

  /** What a step leaves held is held by its caller, or as it was. */
  predicate OnlyMoves(v: World, w: World, c: nat) {
    DrainOnlyMoves(v, w, c) && AutoOnlyMoves(v, w, c) && StopOnlyMoves(v, w, c)
  }

  lemma StepMansDrain(cfg: Config, w: World, clock: nat, c: nat, pc: Pc, outcome: Outcome)
    requires cfg.maxQueueSize > 0 && MansDrain(w, c, pc)
    ensures var (pc', w') := Step(cfg, w, clock, c, pc, outcome); DrainOnlyMoves(w, w', c) && MansDrain(w', c, pc')
  {
  }

  lemma StepMansAuto(cfg: Config, w: World, clock: nat, c: nat, pc: Pc, outcome: Outcome)
    requires cfg.maxQueueSize > 0 && MansAuto(w, c, pc)
    ensures var (pc', w') := Step(cfg, w, clock, c, pc, outcome); AutoOnlyMoves(w, w', c) && MansAuto(w', c, pc')
  {
  }

  lemma StepMansStop(cfg: Config, w: World, clock: nat, c: nat, pc: Pc, outcome: Outcome)
    requires cfg.maxQueueSize > 0 && MansStop(w, c, pc)
    ensures var (pc', w') := Step(cfg, w, clock, c, pc, outcome); StopOnlyMoves(w, w', c) && MansStop(w', c, pc')
  {
  }

  lemma StepMans(cfg: Config, w: World, clock: nat, c: nat, pc: Pc, outcome: Outcome)
    requires cfg.maxQueueSize > 0 && Mans(w, c, pc)
    ensures var (pc', w') := Step(cfg, w, clock, c, pc, outcome); OnlyMoves(w, w', c) && Mans(w', c, pc')
  {
    StepMansDrain(cfg, w, clock, c, pc, outcome);
    StepMansAuto(cfg, w, clock, c, pc, outcome);
    StepMansStop(cfg, w, clock, c, pc, outcome);
  }

  lemma MannedKept(cfg: Config, s: State, a: Action)
    requires cfg.maxQueueSize > 0 && Manned(s)
    ensures Manned(Next(cfg, s, a))
  {
    if a.Run? && a.caller < |s.callers| {
      var c := a.caller;
      StepMans(cfg, s.w, s.clock, c, s.callers[c], a.outcome);
      var t := Next(cfg, s, a);
      forall d | 0 <= d < |s.callers| && d != c ensures Mans(t.w, d, s.callers[d]) {
        assert Mans(s.w, d, s.callers[d]);
      }
    }
  }

  lemma {:induction false} MannedAfter(cfg: Config, s: State, actions: seq<Action>)
    requires cfg.maxQueueSize > 0 && Manned(s)
    ensures Manned(After(cfg, s, actions))
    decreases |actions|
  {
    if actions != [] {
      MannedKept(cfg, s, actions[0]);
      MannedAfter(cfg, Next(cfg, s, actions[0]), actions[1..]);
    }
  }

  /**
   * In every interleaving a taken drain channel, a taken latch and an unfinished stop each belong
   * to a caller on its way to give them back: no flush waits for a drain that nobody runs.
   */
  lemma NothingOrphaned(cfg: Config, actions: seq<Action>)
    requires cfg.maxQueueSize > 0
    ensures var s := After(cfg, INIT, actions);
      && (s.w.p.draining ==> exists c | 0 <= c < |s.callers| :: InFlushDrain(s.callers[c]))
      && (s.w.p.autoBusy ==> exists c | 0 <= c < |s.callers| :: InAutoFlush(s.callers[c]))
      && (s.w.p.closed && !s.w.holders.over ==> exists c | 0 <= c < |s.callers| :: InStopDrain(s.callers[c]))
  {
    MannedAfter(cfg, INIT, actions);
    var s := After(cfg, INIT, actions);
    var h := s.w.holders;
    assert s.w.p.draining ==> Mans(s.w, h.drain, s.callers[h.drain]);
    assert s.w.p.autoBusy ==> Mans(s.w, h.auto, s.callers[h.auto]);
    assert s.w.p.closed && !h.over ==> Mans(s.w, h.stop, s.callers[h.stop]);
  }

  // ---- a flush that found a drain going waits for it ------------------------------------------

  /** Caller d drains for a flush in every state of the run. */
  ghost predicate DrainsThroughout(cfg: Config, s: State, d: nat, actions: seq<Action>)
    requires cfg.maxQueueSize > 0
    decreases |actions|
  {
    && d < |s.callers| && InFlushDrain(s.callers[d])
    && (actions != [] ==> DrainsThroughout(cfg, Next(cfg, s, actions[0]), d, actions[1..]))
  }

  /** It neither returns early nor starts a drain of its own while that drain goes on. */
  lemma {:induction false} FlushWaits(cfg: Config, s: State, actions: seq<Action>, c: nat, auto: bool, d: nat)
    requires cfg.maxQueueSize > 0 && Roles(s) && c < |s.callers| && s.callers[c] == Waiting(auto, d)
    requires DrainsThroughout(cfg, s, d, actions)
    ensures c < |After(cfg, s, actions).callers| && After(cfg, s, actions).callers[c] == Waiting(auto, d)
    decreases |actions|
  {
    if actions != [] {
      assert Fits(s.w, d, s.callers[d]);
      RolesKept(cfg, s, actions[0]);
      FlushWaits(cfg, Next(cfg, s, actions[0]), actions[1..], c, auto, d);
    }
  }

  // ---- while the endpoint acknowledges ------------------------------------------------------------

  ghost predicate EveryPostAcked(actions: seq<Action>) {
    forall i | 0 <= i < |actions| && actions[i].Run? :: actions[i].outcome == Ack
  }

  /** Not on the way to put a batch back or to write one off, and nothing left to clear. */
  predicate LosesNothing(w: World, pc: Pc) {
    !pc.Requeuing? && !pc.Rejected? && (pc.Clearing? ==> w.p.buf == [])
  }

  ghost predicate Spotless(s: State) {
    && (forall c | 0 <= c < |s.callers| :: LosesNothing(s.w, s.callers[c]))
    && s.w.fates.rejected == multiset{} && s.w.fates.discarded == multiset{}
  }

  /** Once closed, an empty buffer stays empty while nothing is put back. */
  lemma StepLosesNothing(cfg: Config, w: World, clock: nat, c: nat, pc: Pc)
    requires cfg.maxQueueSize > 0 && Fits(w, c, pc) && LosesNothing(w, pc)
    ensures var (pc', w') := Step(cfg, w, clock, c, pc, Ack);
      && LosesNothing(w', pc')
      && w'.fates.rejected == w.fates.rejected && w'.fates.discarded == w.fates.discarded
      && (w.p.closed && w.p.buf == [] ==> w'.p.buf == [])
  {
  }

  lemma SpotlessKept(cfg: Config, s: State, a: Action)
    requires cfg.maxQueueSize > 0 && Roles(s) && Spotless(s) && (a.Run? ==> a.outcome == Ack)
    ensures Spotless(Next(cfg, s, a))
  {
    if a.Run? && a.caller < |s.callers| {
      var c := a.caller;
      assert Fits(s.w, c, s.callers[c]);
      StepLosesNothing(cfg, s.w, s.clock, c, s.callers[c]);
      var t := Next(cfg, s, a);
      forall d | 0 <= d < |s.callers| && d != c ensures LosesNothing(t.w, s.callers[d]) {
        assert Fits(s.w, d, s.callers[d]) && LosesNothing(s.w, s.callers[d]);
      }
    }
  }

  lemma {:induction false} SpotlessAfter(cfg: Config, s: State, actions: seq<Action>)
    requires cfg.maxQueueSize > 0 && Roles(s) && Spotless(s) && EveryPostAcked(actions)
    ensures Spotless(After(cfg, s, actions))
    decreases |actions|
  {
    if actions != [] {
      SpotlessKept(cfg, s, actions[0]);
      RolesKept(cfg, s, actions[0]);
      SpotlessAfter(cfg, Next(cfg, s, actions[0]), actions[1..]);
    }
  }

  lemma {:induction false} NobodyCarries(callers: seq<Pc>, e: nat)
    requires forall c | 0 <= c < |callers| :: !Carries(callers[c])
    ensures Flying(callers, e) == 0
  {
    if callers != [] {
      NobodyCarries(callers[1..], e);
    }
  }

  /**
   * In every interleaving, stop included: as long as every post is acknowledged nothing is
   * rejected or discarded; and once stop is over and no batch is in flight, every accepted event
   * was acknowledged, unless it had been shed.
   */
  lemma NothingLostWhileAcked(cfg: Config, actions: seq<Action>, e: nat)
    requires cfg.maxQueueSize > 0 && EveryPostAcked(actions)
    ensures var s := After(cfg, INIT, actions);
      && s.w.fates.rejected == multiset{} && s.w.fates.discarded == multiset{}
      && (s.w.holders.over && (forall c | 0 <= c < |s.callers| :: !Carries(s.callers[c])) && e < s.w.fates.accepted ==>
           Count(s.w.fates.acked, e) + s.w.fates.shed[e] == 1)
  {
    SpotlessAfter(cfg, INIT, actions);
    EventsConserved(cfg, actions, e);
    EveryRun(cfg, actions);
    var s := After(cfg, INIT, actions);
    if s.w.holders.over && forall c | 0 <= c < |s.callers| :: !Carries(s.callers[c]) {
      NobodyCarries(s.callers, e);
    }
  }

  // ---- the other outcomes ---------------------------------------------------------------------------

  /** Everything buffered was rejected. */
  function AllRejected(w: World): World {
    w.(p := w.p.(buf := []), fates := w.fates.(rejected := w.fates.rejected + multiset(w.p.buf)))
  }

  lemma OneBatchRejected(cfg: Config, w: World, clock: nat, c: nat, who: Drainer)
    requires cfg.maxQueueSize > 0 && w.p.buf != []
    ensures var n := TakeCount(cfg, w.p.buf);
      Solo(cfg, w, clock, c, Draining(who), Reject, 3) ==
        (if w.p.closed then AfterDrain(who) else Draining(who),
         w.(p := w.p.(buf := w.p.buf[n..]),
            fates := w.fates.(rejected := w.fates.rejected + multiset(w.p.buf[..n]))))
  {
    var (pc1, w1) := Step(cfg, w, clock, c, Draining(who), Reject);
    var (pc2, w2) := Step(cfg, w1, clock, c, pc1, Reject);
    var (pc3, w3) := Step(cfg, w2, clock, c, pc2, Reject);
    assert Solo(cfg, w2, clock, c, pc2, Reject, 1) == (pc3, w3);
    assert Solo(cfg, w1, clock, c, pc1, Reject, 2) == (pc3, w3);
  }

  lemma RejectedTogether(w: World, n: nat)
    requires n <= |w.p.buf|
    ensures AllRejected(w.(p := w.p.(buf := w.p.buf[n..]),
      fates := w.fates.(rejected := w.fates.rejected + multiset(w.p.buf[..n])))) == AllRejected(w)
  {
    assert w.p.buf == w.p.buf[..n] + w.p.buf[n..];
    assert w.fates.rejected + multiset(w.p.buf[..n]) + multiset(w.p.buf[n..]) == w.fates.rejected + multiset(w.p.buf);
  }

  /** A poison batch does not block what is queued behind it: open, a drain goes on past rejections. */
  lemma {:induction false} DrainPassesRejections(cfg: Config, w: World, clock: nat, c: nat, who: Drainer) returns (n: nat)
    requires cfg.maxQueueSize > 0 && !w.p.closed
    ensures Solo(cfg, w, clock, c, Draining(who), Reject, n) == (AfterDrain(who), AllRejected(w))
    decreases |w.p.buf|
  {
    if w.p.buf == [] {
      n := 1;
      assert w.fates.rejected + multiset([]) == w.fates.rejected;
      assert Solo(cfg, w, clock, c, AfterDrain(who), Reject, 0) == (AfterDrain(who), w);
    } else {
      OneBatchRejected(cfg, w, clock, c, who);
      var (pc, next) := Solo(cfg, w, clock, c, Draining(who), Reject, 3);
      var rest := DrainPassesRejections(cfg, next, clock, c, who);
      n := 3 + rest;
      SoloJoin(cfg, w, clock, c, Draining(who), Reject, 3, rest);
      RejectedTogether(w, TakeCount(cfg, w.p.buf));
    }
  }

  /** Closed, one failed attempt is the last, of either kind: the batch is lost and the rest stays. */
  lemma ClosedDrainTriesOnce(cfg: Config, w: World, clock: nat, c: nat, who: Drainer)
    requires cfg.maxQueueSize > 0 && w.p.closed && w.p.buf != []
    ensures var n := TakeCount(cfg, w.p.buf);
      var (pc, next) := Solo(cfg, w, clock, c, Draining(who), Retry, 3);
      pc == AfterDrain(who) && next == w.(p := w.p.(buf := w.p.buf[n..]),
        fates := w.fates.(discarded := w.fates.discarded + multiset(w.p.buf[..n])))
    ensures Solo(cfg, w, clock, c, Draining(who), Reject, 3).0 == AfterDrain(who)
  {
    OneBatchRejected(cfg, w, clock, c, who);
    var (pc1, w1) := Step(cfg, w, clock, c, Draining(who), Retry);
    var (pc2, w2) := Step(cfg, w1, clock, c, pc1, Retry);
    var (pc3, w3) := Step(cfg, w2, clock, c, pc2, Retry);
    assert Solo(cfg, w2, clock, c, pc2, Retry, 1) == (pc3, w3);
    assert Solo(cfg, w1, clock, c, pc1, Retry, 2) == (pc3, w3);
  }

  // ---- calls from their start ---------------------------------------------------------------------------

  /** The state after a new call took n steps while everyone else rested. */
  function Called(cfg: Config, s: State, call: Call, outcome: Outcome, n: nat): State
    requires cfg.maxQueueSize > 0
  {
    After(cfg, s, [Enter(call)] + Runs(|s.callers|, outcome, n))
  }

  lemma CallIsSolo(cfg: Config, s: State, call: Call, outcome: Outcome, n: nat)
    requires cfg.maxQueueSize > 0
    ensures var (pc, w) := Solo(cfg, s.w, s.clock, |s.callers|, Entry(call), outcome, n);
      Called(cfg, s, call, outcome, n) == State(w, s.clock, s.callers + [pc])
  {
    var c := |s.callers|;
    var t := Next(cfg, s, Enter(call));
    SoloIsRun(cfg, t, c, outcome, n);
    assert ([Enter(call)] + Runs(c, outcome, n))[1..] == Runs(c, outcome, n);
    var (pc, w) := Solo(cfg, s.w, s.clock, c, Entry(call), outcome, n);
    assert t.callers[c := pc] == s.callers + [pc];
  }

  /** A flush called when nobody drains sends everything buffered. */
  lemma FlushCallDelivers(cfg: Config, s: State) returns (n: nat)
    requires cfg.maxQueueSize > 0 && !s.w.p.draining
    ensures var t := Called(cfg, s, Flush, Ack, n);
      t.callers == s.callers + [Done] && t.w.p.buf == [] && t.w.fates.acked == s.w.fates.acked + s.w.p.buf
  {
    n := FlushDelivers(cfg, s.w, s.clock, |s.callers|, false);
    CallIsSolo(cfg, s, Flush, Ack, n);
  }

  /** The first stop sends everything buffered, and leaves a closed and empty processor. */
  lemma StopCallDelivers(cfg: Config, s: State) returns (n: nat)
    requires cfg.maxQueueSize > 0 && !s.w.p.closed
    ensures var t := Called(cfg, s, Stop, Ack, n);
      && t.callers == s.callers + [Done] && t.w.p.closed && t.w.p.buf == []
      && t.w.fates.acked == s.w.fates.acked + s.w.p.buf
  {
    n := StopDelivers(cfg, s.w, s.clock, |s.callers|);
    CallIsSolo(cfg, s, Stop, Ack, n);
  }

  /** Tracking while open accepts the event, and keeps it last; short of a full batch that is all. */
  lemma TrackCallAccepts(cfg: Config, s: State, outcome: Outcome)
    requires cfg.maxQueueSize > 0 && !s.w.p.closed
    ensures var t := Called(cfg, s, Track, outcome, 1);
      && t.w.fates.accepted == s.w.fates.accepted + 1
      && t.w.p.buf != [] && t.w.p.buf[|t.w.p.buf| - 1] == s.w.fates.accepted
      && (|t.w.p.buf| < cfg.batchSize ==> t.callers == s.callers + [Done])
  {
    CallIsSolo(cfg, s, Track, outcome, 1);
    var (pc, w) := Step(cfg, s.w, s.clock, |s.callers|, Enqueuing, outcome);
    assert Solo(cfg, w, s.clock, |s.callers|, pc, outcome, 0) == (pc, w);
    assert Solo(cfg, s.w, s.clock, |s.callers|, Enqueuing, outcome, 1) == (pc, w);
    var dropped := EnqueueKeepsNewest(cfg, s.w.p, s.w.fates.accepted);
  }

  /** Closed, tracking and stopping again return at once and change nothing. */
  lemma ClosedCallsDoNothing(cfg: Config, s: State, outcome: Outcome)
    requires cfg.maxQueueSize > 0 && s.w.p.closed
    ensures Called(cfg, s, Track, outcome, 1) == State(s.w, s.clock, s.callers + [Done])
    ensures Called(cfg, s, Stop, outcome, 1) == State(s.w, s.clock, s.callers + [Done])
  {
    CallIsSolo(cfg, s, Track, outcome, 1);
    CallIsSolo(cfg, s, Stop, outcome, 1);
    assert Solo(cfg, s.w, s.clock, |s.callers|, Done, outcome, 0) == (Done, s.w);
    assert Solo(cfg, s.w, s.clock, |s.callers|, Enqueuing, outcome, 1) == (Done, s.w);
    assert Solo(cfg, s.w, s.clock, |s.callers|, Stopping, outcome, 1) == (Done, s.w);
  }

  /** A flush whose drain is over returns in two steps, giving back the latch if it holds it. */
  lemma WaiterReturns(cfg: Config, w: World, clock: nat, c: nat, auto: bool, d: nat, outcome: Outcome)
    requires cfg.maxQueueSize > 0 && !(w.p.draining && w.holders.drain == d)
    ensures Solo(cfg, w, clock, c, Waiting(auto, d), outcome, 2) == (Done, w.(p := w.p.(autoBusy := w.p.autoBusy && !auto)))
  {
    var (pc1, w1) := Step(cfg, w, clock, c, Waiting(auto, d), outcome);
    var (pc2, w2) := Step(cfg, w1, clock, c, pc1, outcome);
    assert Solo(cfg, w2, clock, c, pc2, outcome, 0) == (pc2, w2);
    assert Solo(cfg, w1, clock, c, pc1, outcome, 1) == (pc2, w2);
  }
}
