/**
 * The event processor under concurrency (events.go:118-390): every lock section is one atomic
 * step, every post is a step of its own, and any number of callers interleave. An event is
 * named by its place in the order of acceptance.
 */
module EventProtocol {
  import opened EventQueue

  /** Who runs a drain loop: a flush, entered by the size trigger or not, or the closing stop. */
  datatype Drainer = ByFlush(auto: bool) | ByStop

  /** Where a caller stands; batch is in flight from the section that took it to its outcome. */
  datatype Pc =
    | Enqueuing
    | AutoFlushing
    | Flushing(auto: bool)
    | Waiting(auto: bool, drainer: nat)
    | Draining(who: Drainer)
    | Posting(who: Drainer, batch: seq<nat>)
    | Acked(who: Drainer)
    | Rejected(who: Drainer)
    | Requeuing(who: Drainer, batch: seq<nat>)
    | Ending(auto: bool)
    | AutoEnding
    | Stopping
    | Clearing
    | Done

  /** The callers behind the latch, the drain channel and the stop; over: stop cleared the buffer. */
  datatype Holders = Holders(auto: nat, drain: nat, stop: nat, over: bool)

  /** What became of the accepted events that are no longer buffered or in flight. */
  datatype Fates = Fates(
    accepted: nat, acked: seq<nat>, rejected: multiset<nat>, shed: multiset<nat>, discarded: multiset<nat>)

  datatype World = World(p: Shared<nat>, holders: Holders, fates: Fates)

  datatype State = State(w: World, clock: nat, callers: seq<Pc>)

  datatype Call = Track | Flush | Stop

  datatype Action =
    | Tick(elapsed: nat)
    | Enter(call: Call)
    | Run(caller: nat, outcome: Outcome)

  const INIT := State(
    World(Shared([], false, 0, false, false), Holders(0, 0, 0, false), Fates(0, [], multiset{}, multiset{}, multiset{})),
    0, [])

  // ---- steps --------------------------------------------------------------------------

  function Entry(call: Call): Pc {
    match call
    case Track => Enqueuing
    case Flush => Flushing(false)
    case Stop => Stopping
  }

  /** Where a flush goes on once its drain, or the drain it waited for, is over. */
  function AfterFlush(auto: bool): Pc {
    if auto then AutoEnding else Done
  }

  function AfterDrain(who: Drainer): Pc {
    match who
    case ByFlush(auto) => Ending(auto)
    case ByStop => Clearing
  }

  function EnqueueStep(cfg: Config, w: World): (Pc, World)
    requires cfg.maxQueueSize > 0
  {
    if w.p.closed then (Done, w)
    else
      var q := EnqueueSection(cfg, w.p, w.fates.accepted);
      var lost := multiset(Shed(cfg, w.p.buf + [w.fates.accepted]));
      (if |q.buf| >= cfg.batchSize then AutoFlushing else Done,
       w.(p := q, fates := w.fates.(accepted := w.fates.accepted + 1, shed := w.fates.shed + lost)))
  }

  function FlushStep(w: World, c: nat, auto: bool): (Pc, World) {
    if w.p.draining then (Waiting(auto, w.holders.drain), w)
    else (Draining(ByFlush(auto)), w.(p := w.p.(draining := true), holders := w.holders.(drain := c)))
  }

  function TakeStep(cfg: Config, w: World, who: Drainer): (Pc, World) {
    var n := TakeCount(cfg, w.p.buf);
    if w.p.buf == [] then (AfterDrain(who), w)
    else (Posting(who, w.p.buf[..n]), w.(p := w.p.(buf := w.p.buf[n..])))
  }

  function PostStep(w: World, who: Drainer, batch: seq<nat>, outcome: Outcome): (Pc, World) {
    match outcome
    case Ack => (Acked(who), w.(fates := w.fates.(acked := w.fates.acked + batch)))
    case Reject => (Rejected(who), w.(fates := w.fates.(rejected := w.fates.rejected + multiset(batch))))
    case Retry => (Requeuing(who, batch), w)
  }

  function RequeueStep(cfg: Config, w: World, clock: nat, who: Drainer, batch: seq<nat>): (Pc, World)
    requires cfg.maxQueueSize > 0
  {
    if w.p.closed then
      (AfterDrain(who), w.(fates := w.fates.(discarded := w.fates.discarded + multiset(batch))))
    else
      (AfterDrain(who),
       w.(p := RequeueSection(cfg, w.p, batch, clock),
          fates := w.fates.(shed := w.fates.shed + multiset(Shed(cfg, batch + w.p.buf)))))
  }

  function StopStep(w: World, c: nat): (Pc, World) {
    if w.p.closed then (Done, w)
    else (Draining(ByStop), w.(p := w.p.(closed := true), holders := w.holders.(stop := c)))
  }

  function ClearStep(w: World): (Pc, World) {
    (Done, w.(p := w.p.(buf := []), holders := w.holders.(over := true),
              fates := w.fates.(discarded := w.fates.discarded + multiset(w.p.buf))))
  }

  /** The next atomic step of caller c at pc. */
  function Step(cfg: Config, w: World, clock: nat, c: nat, pc: Pc, outcome: Outcome): (Pc, World)
    requires cfg.maxQueueSize > 0
  {
    match pc
    case Enqueuing => EnqueueStep(cfg, w)
    case AutoFlushing =>
      if Admits(w.p, clock) then (Flushing(true), w.(p := w.p.(autoBusy := true), holders := w.holders.(auto := c)))
      else (Done, w)
    case Flushing(auto) => FlushStep(w, c, auto)
    case Waiting(auto, drainer) =>
      if w.p.draining && w.holders.drain == drainer then (pc, w) else (AfterFlush(auto), w)
    case Draining(who) => TakeStep(cfg, w, who)
    case Posting(who, batch) => PostStep(w, who, batch, outcome)
    case Acked(who) => (Draining(who), w.(p := w.p.(gate := 0)))
    case Rejected(who) => (if w.p.closed then AfterDrain(who) else Draining(who), w)
    case Requeuing(who, batch) => RequeueStep(cfg, w, clock, who, batch)
    case Ending(auto) => (AfterFlush(auto), w.(p := w.p.(draining := false)))
    case AutoEnding => (Done, w.(p := w.p.(autoBusy := false)))
    case Stopping => StopStep(w, c)
    case Clearing => ClearStep(w)
    case Done => (Done, w)
  }

  function Next(cfg: Config, s: State, a: Action): State
    requires cfg.maxQueueSize > 0
  {
    match a
    case Tick(elapsed) => s.(clock := s.clock + elapsed)
    case Enter(call) => s.(callers := s.callers + [Entry(call)])
    case Run(c, outcome) =>
      if c >= |s.callers| then s
      else
        var (pc, w) := Step(cfg, s.w, s.clock, c, s.callers[c], outcome);
        State(w, s.clock, s.callers[c := pc])
  }

  /** The state after any interleaving. */
  function After(cfg: Config, s: State, actions: seq<Action>): State
    requires cfg.maxQueueSize > 0
    decreases |actions|
  {
    if actions == [] then s else After(cfg, Next(cfg, s, actions[0]), actions[1..])
  }

  // ---- who may be where ------------------------------------------------------------------

  datatype Role = NoDrain | Drains(who: Drainer)

  function RoleOf(pc: Pc): Role {
    match pc
    case Draining(who) => Drains(who)
    case Posting(who, _) => Drains(who)
    case Acked(who) => Drains(who)
    case Rejected(who) => Drains(who)
    case Requeuing(who, _) => Drains(who)
    case Ending(auto) => Drains(ByFlush(auto))
    case Clearing => Drains(ByStop)
    case _ => NoDrain
  }

  /** Inside flush's drain, from taking the channel to giving it back. */
  predicate InFlushDrain(pc: Pc) {
    RoleOf(pc).Drains? && RoleOf(pc).who.ByFlush?
  }

  predicate InStopDrain(pc: Pc) {
    RoleOf(pc) == Drains(ByStop)
  }

  /** Admitted by the size trigger and not yet done. */
  predicate InAutoFlush(pc: Pc) {
    RoleOf(pc) == Drains(ByFlush(true)) || pc == Flushing(true) || (pc.Waiting? && pc.auto) || pc == AutoEnding
  }

  predicate FitsDrain(w: World, c: nat, pc: Pc) {
    InFlushDrain(pc) ==> w.p.draining && w.holders.drain == c
  }

  predicate FitsStop(w: World, c: nat, pc: Pc) {
    InStopDrain(pc) ==> w.p.closed && w.holders.stop == c && !w.holders.over
  }

  predicate FitsAuto(w: World, c: nat, pc: Pc) {
    InAutoFlush(pc) ==> w.p.autoBusy && w.holders.auto == c
  }

  /** A caller at pc holds what its place says it holds. */
  predicate Fits(w: World, c: nat, pc: Pc) {
    FitsDrain(w, c, pc) && FitsStop(w, c, pc) && FitsAuto(w, c, pc)
  }

  predicate OverIsOver(w: World) {
    w.holders.over ==> w.p.closed && w.p.buf == []
  }

  ghost predicate Roles(s: State) {
    (forall c | 0 <= c < |s.callers| :: Fits(s.w, c, s.callers[c])) && OverIsOver(s.w)
  }

  predicate DrainKept(v: World, w: World, c: nat) {
    v.p.draining && v.holders.drain != c ==> w.p.draining && w.holders.drain == v.holders.drain
  }

  predicate StopKept(v: World, w: World, c: nat) {
    v.p.closed && v.holders.stop != c && !v.holders.over ==>
      w.p.closed && w.holders.stop == v.holders.stop && !w.holders.over
  }

  predicate AutoKept(v: World, w: World, c: nat) {
    v.p.autoBusy && v.holders.auto != c ==> w.p.autoBusy && w.holders.auto == v.holders.auto
  }

  /** What another caller holds, c's step leaves alone. */
  predicate OthersKeep(v: World, w: World, c: nat) {
    DrainKept(v, w, c) && StopKept(v, w, c) && AutoKept(v, w, c)
  }

  lemma StepHoldsDrain(cfg: Config, w: World, clock: nat, c: nat, pc: Pc, outcome: Outcome)
    requires cfg.maxQueueSize > 0 && FitsDrain(w, c, pc)
    ensures var (pc', w') := Step(cfg, w, clock, c, pc, outcome); DrainKept(w, w', c) && FitsDrain(w', c, pc')
  {
  }

  lemma StepHoldsStop(cfg: Config, w: World, clock: nat, c: nat, pc: Pc, outcome: Outcome)
    requires cfg.maxQueueSize > 0 && FitsStop(w, c, pc) && OverIsOver(w)
    ensures var (pc', w') := Step(cfg, w, clock, c, pc, outcome); StopKept(w, w', c) && FitsStop(w', c, pc')
  {
  }

  lemma StepHoldsAuto(cfg: Config, w: World, clock: nat, c: nat, pc: Pc, outcome: Outcome)
    requires cfg.maxQueueSize > 0 && FitsAuto(w, c, pc)
    ensures var (pc', w') := Step(cfg, w, clock, c, pc, outcome); AutoKept(w, w', c) && FitsAuto(w', c, pc')
  {
  }

  lemma OverStays(cfg: Config, w: World, clock: nat, c: nat, pc: Pc, outcome: Outcome)
    requires cfg.maxQueueSize > 0 && FitsStop(w, c, pc) && OverIsOver(w)
    ensures OverIsOver(Step(cfg, w, clock, c, pc, outcome).1)
  {
  }

  lemma StepHolds(cfg: Config, w: World, clock: nat, c: nat, pc: Pc, outcome: Outcome)
    requires cfg.maxQueueSize > 0 && Fits(w, c, pc) && OverIsOver(w)
    ensures var (pc', w') := Step(cfg, w, clock, c, pc, outcome);
      OthersKeep(w, w', c) && Fits(w', c, pc') && OverIsOver(w')
  {
    StepHoldsDrain(cfg, w, clock, c, pc, outcome);
    StepHoldsStop(cfg, w, clock, c, pc, outcome);
    StepHoldsAuto(cfg, w, clock, c, pc, outcome);
    OverStays(cfg, w, clock, c, pc, outcome);
  }

  lemma RolesKept(cfg: Config, s: State, a: Action)
    requires cfg.maxQueueSize > 0 && Roles(s)
    ensures Roles(Next(cfg, s, a))
  {
    if a.Run? && a.caller < |s.callers| {
      var c := a.caller;
      StepHolds(cfg, s.w, s.clock, c, s.callers[c], a.outcome);
      var t := Next(cfg, s, a);
      forall d | 0 <= d < |s.callers| && d != c ensures Fits(t.w, d, s.callers[d]) {
        assert Fits(s.w, d, s.callers[d]);
      }
    }
  }

  // ---- bounds ------------------------------------------------------------------------------

  function InFlight(pc: Pc): seq<nat> {
    match pc
    case Posting(_, batch) => batch
    case Requeuing(_, batch) => batch
    case _ => []
  }

  predicate Carries(pc: Pc) {
    pc.Posting? || pc.Requeuing?
  }

  predicate BatchBounded(cfg: Config, pc: Pc) {
    Carries(pc) ==> 1 <= |InFlight(pc)| <= AtLeastOne(cfg)
  }

  ghost predicate Bounds(cfg: Config, s: State) {
    |s.w.p.buf| <= cfg.maxQueueSize && forall c | 0 <= c < |s.callers| :: BatchBounded(cfg, s.callers[c])
  }

  lemma StepBounds(cfg: Config, w: World, clock: nat, c: nat, pc: Pc, outcome: Outcome)
    requires cfg.maxQueueSize > 0 && |w.p.buf| <= cfg.maxQueueSize && BatchBounded(cfg, pc)
    ensures var (pc', w') := Step(cfg, w, clock, c, pc, outcome);
      |w'.p.buf| <= cfg.maxQueueSize && BatchBounded(cfg, pc')
  {
  }

  lemma BoundsKept(cfg: Config, s: State, a: Action)
    requires cfg.maxQueueSize > 0 && Bounds(cfg, s)
    ensures Bounds(cfg, Next(cfg, s, a))
  {
    if a.Run? && a.caller < |s.callers| {
      StepBounds(cfg, s.w, s.clock, a.caller, s.callers[a.caller], a.outcome);
    }
  }

  // ---- conservation ---------------------------------------------------------------------------

  /** How often e occurs in a sequence. */
  ghost function Count(events: seq<nat>, e: nat): nat {
    multiset(events)[e]
  }

  ghost function Flying(callers: seq<Pc>, e: nat): nat {
    if callers == [] then 0 else Count(InFlight(callers[0]), e) + Flying(callers[1..], e)
  }

  ghost function Grounded(w: World, e: nat): nat {
    Count(w.p.buf, e) + Count(w.fates.acked, e) + w.fates.rejected[e] + w.fates.shed[e] + w.fates.discarded[e]
  }

  /** Each accepted event is in exactly one place, once; no other event is anywhere. */
  ghost predicate Conserved(s: State) {
    forall e: nat :: Flying(s.callers, e) + Grounded(s.w, e) == if e < s.w.fates.accepted then 1 else 0
  }

  lemma {:induction false} FlyingUpdate(callers: seq<Pc>, c: nat, pc: Pc, e: nat)
    requires c < |callers|
    ensures Flying(callers[c := pc], e) + Count(InFlight(callers[c]), e) == Flying(callers, e) + Count(InFlight(pc), e)
  {
    if c == 0 {
      assert callers[c := pc][1..] == callers[1..];
    } else {
      FlyingUpdate(callers[1..], c - 1, pc, e);
      assert callers[c := pc][1..] == callers[1..][c - 1 := pc];
    }
  }

  lemma {:induction false} FlyingEnter(callers: seq<Pc>, call: Call, e: nat)
    ensures Flying(callers + [Entry(call)], e) == Flying(callers, e)
  {
    if callers == [] {
      assert (callers + [Entry(call)])[1..] == [];
    } else {
      FlyingEnter(callers[1..], call, e);
      assert (callers + [Entry(call)])[1..] == callers[1..] + [Entry(call)];
    }
  }

  lemma CountSplit(a: seq<nat>, b: seq<nat>, e: nat)
    ensures Count(a + b, e) == Count(a, e) + Count(b, e)
  {
  }

  lemma CountCut(events: seq<nat>, n: nat, e: nat)
    requires n <= |events|
    ensures Count(events[..n], e) + Count(events[n..], e) == Count(events, e)
  {
    assert events == events[..n] + events[n..];
  }

  lemma ShedSplits(cfg: Config, buf: seq<nat>, e: nat)
    requires cfg.maxQueueSize > 0
    ensures Count(Shed(cfg, buf), e) + Count(Trimmed(cfg, buf), e) == Count(buf, e)
  {
    CountCut(buf, Overflow(cfg, buf), e);
  }

  lemma EnqueueConserves(cfg: Config, w: World, e: nat)
    requires cfg.maxQueueSize > 0 && !w.p.closed
    ensures Grounded(EnqueueStep(cfg, w).1, e) == Grounded(w, e) + if e == w.fates.accepted then 1 else 0
  {
    var grown := w.p.buf + [w.fates.accepted];
    CountSplit(w.p.buf, [w.fates.accepted], e);
    ShedSplits(cfg, grown, e);
  }

  lemma TakeConserves(cfg: Config, w: World, who: Drainer, e: nat)
    ensures var (pc', w') := TakeStep(cfg, w, who);
      Count(InFlight(pc'), e) + Grounded(w', e) == Grounded(w, e)
  {
    CountCut(w.p.buf, TakeCount(cfg, w.p.buf), e);
  }

  lemma PostConserves(w: World, who: Drainer, batch: seq<nat>, outcome: Outcome, e: nat)
    ensures var (pc', w') := PostStep(w, who, batch, outcome);
      Count(InFlight(pc'), e) + Grounded(w', e) == Count(batch, e) + Grounded(w, e)
  {
    CountSplit(w.fates.acked, batch, e);
  }

  lemma RequeueConserves(cfg: Config, w: World, clock: nat, who: Drainer, batch: seq<nat>, e: nat)
    requires cfg.maxQueueSize > 0 && batch != []
    ensures Grounded(RequeueStep(cfg, w, clock, who, batch).1, e) == Count(batch, e) + Grounded(w, e)
  {
    CountSplit(batch, w.p.buf, e);
    ShedSplits(cfg, batch + w.p.buf, e);
  }

  /** The other sections touch no event, except that the last one discards what is left. */
  lemma QuietConserves(cfg: Config, w: World, clock: nat, c: nat, pc: Pc, outcome: Outcome, e: nat)
    requires cfg.maxQueueSize > 0
    requires !pc.Enqueuing? && !pc.Draining? && !pc.Posting? && !pc.Requeuing?
    ensures var (pc', w') := Step(cfg, w, clock, c, pc, outcome);
      InFlight(pc') == InFlight(pc) == [] && Grounded(w', e) == Grounded(w, e)
  {
  }

  /** A step moves events between places; only acceptance adds one. */
  lemma StepConserves(cfg: Config, w: World, clock: nat, c: nat, pc: Pc, outcome: Outcome, e: nat)
    requires cfg.maxQueueSize > 0 && BatchBounded(cfg, pc)
    ensures var (pc', w') := Step(cfg, w, clock, c, pc, outcome);
      Count(InFlight(pc'), e) + Grounded(w', e) == Count(InFlight(pc), e) + Grounded(w, e)
        + if pc.Enqueuing? && !w.p.closed && e == w.fates.accepted then 1 else 0
  {
    if pc.Enqueuing? {
      if !w.p.closed { EnqueueConserves(cfg, w, e); }
    } else if pc.Draining? {
      TakeConserves(cfg, w, pc.who, e);
    } else if pc.Posting? {
      PostConserves(w, pc.who, pc.batch, outcome, e);
    } else if pc.Requeuing? {
      RequeueConserves(cfg, w, clock, pc.who, pc.batch, e);
    } else {
      QuietConserves(cfg, w, clock, c, pc, outcome, e);
    }
  }

  lemma StepAccepts(cfg: Config, w: World, clock: nat, c: nat, pc: Pc, outcome: Outcome)
    requires cfg.maxQueueSize > 0
    ensures Step(cfg, w, clock, c, pc, outcome).1.fates.accepted ==
      w.fates.accepted + if pc.Enqueuing? && !w.p.closed then 1 else 0
  {
  }

  lemma RunConserves(cfg: Config, s: State, c: nat, outcome: Outcome, e: nat)
    requires cfg.maxQueueSize > 0 && Conserved(s) && c < |s.callers| && BatchBounded(cfg, s.callers[c])
    ensures var t := Next(cfg, s, Run(c, outcome));
      Flying(t.callers, e) + Grounded(t.w, e) == if e < t.w.fates.accepted then 1 else 0
  {
    var (pc, w) := Step(cfg, s.w, s.clock, c, s.callers[c], outcome);
    StepConserves(cfg, s.w, s.clock, c, s.callers[c], outcome, e);
    StepAccepts(cfg, s.w, s.clock, c, s.callers[c], outcome);
    FlyingUpdate(s.callers, c, pc, e);
  }

  lemma ConservedKept(cfg: Config, s: State, a: Action)
    requires cfg.maxQueueSize > 0 && Conserved(s) && Bounds(cfg, s)
    ensures Conserved(Next(cfg, s, a))
  {
    var t := Next(cfg, s, a);
    forall e: nat ensures Flying(t.callers, e) + Grounded(t.w, e) == if e < t.w.fates.accepted then 1 else 0 {
      match a
      case Tick(_) =>
      case Enter(call) => FlyingEnter(s.callers, call, e);
      case Run(c, outcome) => if c < |s.callers| { RunConserves(cfg, s, c, outcome, e); }
    }
  }
}
