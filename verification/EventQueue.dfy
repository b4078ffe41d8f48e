/**
 * The event processor's critical sections (events.go:118-390), as functions on the state the
 * mutex guards, and the processor itself run by one caller.
 */
module EventQueue {

  datatype Config = Config(batchSize: int, interval: nat, maxQueueSize: int)

  const DEFAULT_MAX_EVENT_QUEUE_SIZE := 10_000

  /** newEventProcessorWithBound: a non-positive bound falls back to the default. */
  function Bounded(cfg: Config): (c: Config)
    ensures c.maxQueueSize > 0 && c.batchSize == cfg.batchSize && c.interval == cfg.interval
    ensures cfg.maxQueueSize > 0 ==> c == cfg
  {
    if cfg.maxQueueSize <= 0 then cfg.(maxQueueSize := DEFAULT_MAX_EVENT_QUEUE_SIZE) else cfg
  }

  ghost predicate ValidConfig(cfg: Config) {
    cfg.maxQueueSize > 0
  }

  /** gate is the instant before which the size trigger stays quiet; 0 is long past. */
  datatype Shared<E> = Shared(buf: seq<E>, closed: bool, gate: nat, autoBusy: bool, draining: bool)

  /** What the endpoint makes of one post. */
  datatype Outcome = Ack | Reject | Retry

  // ---- sections -----------------------------------------------------------------------

  function Overflow<E>(cfg: Config, buf: seq<E>): (n: nat)
    requires cfg.maxQueueSize > 0
    ensures n <= |buf|
  {
    if |buf| > cfg.maxQueueSize then |buf| - cfg.maxQueueSize else 0
  }

  /** The oldest events beyond the bound. */
  function Shed<E>(cfg: Config, buf: seq<E>): seq<E>
    requires cfg.maxQueueSize > 0
  {
    buf[..Overflow(cfg, buf)]
  }

  function Trimmed<E>(cfg: Config, buf: seq<E>): (kept: seq<E>)
    requires cfg.maxQueueSize > 0
    ensures |kept| <= cfg.maxQueueSize
  {
    buf[Overflow(cfg, buf)..]
  }

  function EnqueueSection<E>(cfg: Config, p: Shared<E>, event: E): Shared<E>
    requires cfg.maxQueueSize > 0
  {
    if p.closed then p else p.(buf := Trimmed(cfg, p.buf + [event]))
  }

  predicate Admits<E>(p: Shared<E>, now: nat) {
    !p.closed && !p.autoBusy && !(now < p.gate)
  }

  function AtLeastOne(cfg: Config): (n: nat)
    ensures n >= 1
  {
    if cfg.batchSize < 1 then 1 else cfg.batchSize
  }

  function TakeCount<E>(cfg: Config, buf: seq<E>): (n: nat)
    ensures n <= |buf| && (buf != [] ==> n >= 1) && n <= AtLeastOne(cfg)
  {
    if AtLeastOne(cfg) > |buf| then |buf| else AtLeastOne(cfg)
  }

  function RequeueSection<E>(cfg: Config, p: Shared<E>, batch: seq<E>, now: nat): Shared<E>
    requires cfg.maxQueueSize > 0
  {
    if batch == [] || p.closed then p
    else p.(buf := Trimmed(cfg, batch + p.buf), gate := now + cfg.interval)
  }

  /** What drain does about the outcome of a post. */
  function SettleSection<E>(cfg: Config, p: Shared<E>, batch: seq<E>, outcome: Outcome, now: nat): Shared<E>
    requires cfg.maxQueueSize > 0
  {
    match outcome
    case Ack => p.(gate := 0)
    case Reject => p
    case Retry => RequeueSection(cfg, p, batch, now)
  }

  // ---- one caller draining alone ------------------------------------------------------------

  /** A post whose outcome ends the drain. */
  predicate Stops(outcome: Outcome, closed: bool) {
    outcome == Retry || (closed && outcome == Reject)
  }

  /** The batches a buffer is sent in. */
  function Chunks<E>(cfg: Config, buf: seq<E>): seq<seq<E>>
    decreases |buf|
  {
    if buf == [] then [] else [buf[..TakeCount(cfg, buf)]] + Chunks(cfg, buf[TakeCount(cfg, buf)..])
  }

  function Concat<E>(batches: seq<seq<E>>): seq<E> {
    if batches == [] then [] else batches[0] + Concat(batches[1..])
  }

  predicate SomeAck(post: nat -> Outcome, n: nat) {
    exists i | 0 <= i < n :: post(i) == Ack
  }

  predicate NoneStops(post: nat -> Outcome, closed: bool, n: nat) {
    forall i | 0 <= i < n :: !Stops(post(i), closed)
  }

  /** The drain got through the whole buffer. */
  ghost predicate Finished<E>(cfg: Config, buffered: seq<E>, closed: bool, post: nat -> Outcome, requests: seq<seq<E>>, left: seq<E>) {
    NoneStops(post, closed, |requests|) && requests == Chunks(cfg, buffered) && left == []
  }

  /** The last request stopped it: open, that batch is back in front of the untouched rest. */
  ghost predicate Stopped<E>(cfg: Config, buffered: seq<E>, closed: bool, post: nat -> Outcome, requests: seq<seq<E>>, left: seq<E>) {
    var last := |requests| - 1;
    && last >= 0 && NoneStops(post, closed, last) && Stops(post(last), closed)
    && requests <= Chunks(cfg, buffered)
    && buffered == Concat(if closed then requests else requests[..last]) + left
  }

  /** A drain so far: the requests made and the buffer left are what was buffered, in its batches. */
  ghost predicate Sent<E>(cfg: Config, buffered: seq<E>, closed: bool, post: nat -> Outcome, requests: seq<seq<E>>, left: seq<E>) {
    && requests + Chunks(cfg, left) == Chunks(cfg, buffered)
    && Concat(requests) + left == buffered
    && NoneStops(post, closed, |requests|)
  }

  class EventProcessor<E> {
    const cfg: Config
    var buf: seq<E>
    var closed: bool
    var nextAutoFlushAt: nat
    var autoFlushInFlight: bool
    var drainDone: bool

    constructor (batchSize: int, interval: nat, maxQueueSize: int)
      ensures Valid() && View() == Shared([], false, 0, false, false)
      ensures cfg == Bounded(Config(batchSize, interval, maxQueueSize))
    {
      cfg := Bounded(Config(batchSize, interval, maxQueueSize));
      buf, closed, nextAutoFlushAt, autoFlushInFlight, drainDone := [], false, 0, false, false;
    }

    /** The state the mutex guards; drainDone is the presence of the drain's channel. */
    ghost function View(): Shared<E>
      reads this
    {
      Shared(buf, closed, nextAutoFlushAt, autoFlushInFlight, drainDone)
    }

    ghost predicate Valid()
      reads this
    {
      ValidConfig(cfg) && |buf| <= cfg.maxQueueSize
    }

    method TrimOldestLocked() returns (dropped: nat)
      requires ValidConfig(cfg)
      modifies this`buf
      ensures buf == Trimmed(cfg, old(buf)) && dropped == |Shed(cfg, old(buf))|
    {
      var overflow := |buf| - cfg.maxQueueSize;
      if overflow <= 0 {
        return 0;
      }
      buf := buf[overflow..];
      dropped := overflow;
    }

    /** The locked part of enqueue; the caller goes on to autoFlush when asked to. */
    method Enqueue(event: E) returns (dropped: nat, shouldFlush: bool)
      requires Valid()
      modifies this`buf
      ensures Valid() && View() == EnqueueSection(cfg, old(View()), event)
      ensures shouldFlush <==> !closed && |buf| >= cfg.batchSize
      ensures dropped == if closed then 0 else |old(buf)| + 1 - |buf|
    {
      if closed {
        return 0, false;
      }
      buf := buf + [event];
      dropped := TrimOldestLocked();
      shouldFlush := |buf| >= cfg.batchSize;
    }

    /** autoFlush's admission: the latch is taken only while the gate is open. */
    method Admit(now: nat) returns (admitted: bool)
      modifies this`autoFlushInFlight
      ensures admitted <==> Admits(old(View()), now)
      ensures View() == if admitted then old(View()).(autoBusy := true) else old(View())
    {
      if closed || autoFlushInFlight || now < nextAutoFlushAt {
        return false;
      }
      autoFlushInFlight := true;
      admitted := true;
    }

    method DrainBatch() returns (events: seq<E>)
      requires Valid()
      modifies this`buf
      ensures Valid() && events == old(buf)[..TakeCount(cfg, old(buf))] && buf == old(buf)[TakeCount(cfg, old(buf))..]
      ensures events == [] <==> old(buf) == []
      ensures |events| <= AtLeastOne(cfg)
    {
      if |buf| == 0 {
        return [];
      }
      var take := cfg.batchSize;
      if take < 1 {
        take := 1;
      }
      if take > |buf| {
        take := |buf|;
      }
      events := buf[..take];
      buf := buf[take..];
    }

    method Requeue(events: seq<E>, now: nat) returns (dropped: nat)
      requires Valid()
      modifies this`buf, this`nextAutoFlushAt
      ensures Valid() && View() == RequeueSection(cfg, old(View()), events, now)
      ensures dropped == |events| + |old(buf)| - |buf|
    {
      if |events| == 0 {
        return 0;
      }
      if closed {
        return |events|;
      }
      buf := events + buf;
      nextAutoFlushAt := now + cfg.interval;
      dropped := TrimOldestLocked();
    }

    /**
     * drain, run alone against any sequence of outcomes: it makes one request per batch, in
     * order, until the buffer is empty or a failure stops it.
     */
    method Drain(post: nat -> Outcome, now: nat) returns (requests: seq<seq<E>>)
      requires Valid()
      modifies this`buf, this`nextAutoFlushAt
      ensures Valid()
      ensures Finished(cfg, old(buf), closed, post, requests, buf)
        || Stopped(cfg, old(buf), closed, post, requests, buf)
      ensures nextAutoFlushAt ==
        if !closed && requests != [] && post(|requests| - 1) == Retry then now + cfg.interval
        else if SomeAck(post, |requests|) then 0 else old(nextAutoFlushAt)
    {
      requests := [];
      SentNothing(cfg, buf, closed, post);
      while true
        invariant Valid()
        invariant Sent(cfg, old(buf), closed, post, requests, buf)
        invariant nextAutoFlushAt == if SomeAck(post, |requests|) then 0 else old(nextAutoFlushAt)
        decreases |buf|
      {
        ghost var head, sent := buf, requests;
        var events := DrainBatch();
        if |events| == 0 {
          return;
        }
        var outcome := post(|requests|);
        requests := requests + [events];
        SentOneMore(cfg, old(buf), closed, post, sent, head, events, buf);
        SomeAckNext(post, |sent|);
        FitsUntrimmed(cfg, head);
        var stop := Settle(events, outcome, now);
        if stop {
          return;
        }
      }
    }

    /** The switch after a post, and whether the loop ends there. */
    method Settle(events: seq<E>, outcome: Outcome, now: nat) returns (stop: bool)
      requires Valid()
      modifies this`buf, this`nextAutoFlushAt
      ensures Valid() && View() == SettleSection(cfg, old(View()), events, outcome, now)
      ensures stop <==> Stops(outcome, closed)
    {
      match outcome {
        case Ack =>
          nextAutoFlushAt := 0;
        case Reject =>
        case Retry =>
          var dropped := Requeue(events, now);
          return true;
      }
      stop := outcome != Ack && closed;
    }

    /** flush when nobody else drains: the channel is gone again afterwards. */
    method Flush(post: nat -> Outcome, now: nat) returns (requests: seq<seq<E>>)
      requires Valid() && !drainDone
      modifies this`buf, this`nextAutoFlushAt, this`drainDone
      ensures Valid() && !drainDone
      ensures Finished(cfg, old(buf), closed, post, requests, buf)
        || Stopped(cfg, old(buf), closed, post, requests, buf)
    {
      drainDone := true;
      requests := Drain(post, now);
      drainDone := false;
    }

    /** stop: one last drain that ends at the first failure, and nothing is left afterwards. */
    method Stop(post: nat -> Outcome, now: nat) returns (requests: seq<seq<E>>)
      requires Valid()
      modifies this`buf, this`nextAutoFlushAt, this`closed
      ensures Valid() && closed
      ensures old(closed) ==> requests == [] && View() == old(View())
      ensures !old(closed) ==> buf == []
      ensures !old(closed) ==> exists left ::
        Finished(cfg, old(buf), true, post, requests, left) || Stopped(cfg, old(buf), true, post, requests, left)
    {
      if closed {
        return [];
      }
      closed := true;
      requests := Drain(post, now);
      buf := [];
    }
  }

  lemma {:induction false} ConcatSnoc<E>(batches: seq<seq<E>>, last: seq<E>)
    ensures Concat(batches + [last]) == Concat(batches) + last
  {
    if batches != [] {
      ConcatSnoc(batches[1..], last);
      assert (batches + [last])[1..] == batches[1..] + [last];
    } else {
      assert ([] + [last])[1..] == [];
    }
  }

  lemma Regroup<T>(a: seq<T>, b: seq<T>, c: seq<T>)
    ensures (a + b) + c == a + (b + c)
  {
  }

  lemma NextChunk<E>(cfg: Config, requests: seq<seq<E>>, head: seq<E>, batch: seq<E>, rest: seq<E>)
    requires head != [] && batch == head[..TakeCount(cfg, head)] && rest == head[TakeCount(cfg, head)..]
    ensures (requests + [batch]) + Chunks(cfg, rest) == requests + Chunks(cfg, head)
    ensures Concat(requests + [batch]) + rest == Concat(requests) + head
  {
    ConcatSnoc(requests, batch);
    assert head == batch + rest;
    Regroup(Concat(requests), batch, rest);
    Regroup(requests, [batch], Chunks(cfg, rest));
  }

  lemma PutBack<E>(requests: seq<seq<E>>, rest: seq<E>)
    requires |requests| > 0
    ensures Concat(requests[..|requests| - 1]) + (requests[|requests| - 1] + rest) == Concat(requests) + rest
  {
    var older, last := requests[..|requests| - 1], requests[|requests| - 1];
    assert requests == older + [last];
    ConcatSnoc(older, last);
    Regroup(Concat(older), last, rest);
  }

  lemma PrefixOf<T>(a: seq<T>, b: seq<T>)
    ensures a <= a + b
  {
  }

  /** A drain that stops leaves the rest, behind the last batch if that was put back. */
  lemma DrainStops<E>(cfg: Config, buffered: seq<E>, closed: bool, post: nat -> Outcome, requests: seq<seq<E>>,
      rest: seq<E>, left: seq<E>)
    requires |requests| > 0 && NoneStops(post, closed, |requests| - 1) && Stops(post(|requests| - 1), closed)
    requires requests + Chunks(cfg, rest) == Chunks(cfg, buffered) && Concat(requests) + rest == buffered
    requires left == if closed then rest else requests[|requests| - 1] + rest
    ensures Stopped(cfg, buffered, closed, post, requests, left)
  {
    PutBack(requests, rest);
    PrefixOf(requests, Chunks(cfg, rest));
  }

  lemma SentNothing<E>(cfg: Config, buffered: seq<E>, closed: bool, post: nat -> Outcome)
    ensures Sent(cfg, buffered, closed, post, [], buffered)
  {
  }

  /** The next request keeps the account, or ends the drain. */
  lemma SentOneMore<E>(cfg: Config, buffered: seq<E>, closed: bool, post: nat -> Outcome, requests: seq<seq<E>>,
      head: seq<E>, batch: seq<E>, rest: seq<E>)
    requires Sent(cfg, buffered, closed, post, requests, head)
    requires head != [] && batch == head[..TakeCount(cfg, head)] && rest == head[TakeCount(cfg, head)..]
    ensures head == batch + rest
    ensures if Stops(post(|requests|), closed)
      then Stopped(cfg, buffered, closed, post, requests + [batch], if closed then rest else head)
      else Sent(cfg, buffered, closed, post, requests + [batch], rest)
  {
    NextChunk(cfg, requests, head, batch, rest);
    if Stops(post(|requests|), closed) {
      DrainStops(cfg, buffered, closed, post, requests + [batch], rest, if closed then rest else head);
    }
  }

  lemma SomeAckNext(post: nat -> Outcome, n: nat)
    ensures SomeAck(post, n + 1) <==> SomeAck(post, n) || post(n) == Ack
  {
  }

  lemma FitsUntrimmed<E>(cfg: Config, buf: seq<E>)
    requires cfg.maxQueueSize > 0 && |buf| <= cfg.maxQueueSize
    ensures Trimmed(cfg, buf) == buf
  {
  }

  // ---- how many requests, and which -----------------------------------------------------

  /** Every batch holds 1 to max(1, batchSize) events, and together they are the buffer. */
  lemma {:induction false} ChunksPartition<E>(cfg: Config, buf: seq<E>)
    ensures Concat(Chunks(cfg, buf)) == buf
    ensures forall i | 0 <= i < |Chunks(cfg, buf)| :: 1 <= |Chunks(cfg, buf)[i]| <= AtLeastOne(cfg)
    decreases |buf|
  {
    if buf != [] {
      var take := TakeCount(cfg, buf);
      ChunksPartition(cfg, buf[take..]);
      assert Chunks(cfg, buf)[1..] == Chunks(cfg, buf[take..]);
      assert buf == buf[..take] + buf[take..];
    }
  }

  /** The number of batches n events make, rounding up. */
  function Batches(cfg: Config, n: nat): nat {
    (n + AtLeastOne(cfg) - 1) / AtLeastOne(cfg)
  }

  lemma DivideOnce(n: nat, d: nat)
    requires d >= 1
    ensures (n + d) / d == n / d + 1
  {
    var q, r := n / d, n % d;
    assert n + d == (q + 1) * d + r;
    DivisionUnique(n + d, d, q + 1);
  }

  lemma DivisionUnique(a: nat, d: nat, q: nat)
    requires d >= 1 && q * d <= a < q * d + d
    ensures a / d == q
  {
    var r := a / d;
    MultipleOrder(r, q, d);
    MultipleOrder(q, r, d);
  }

  lemma MultipleOrder(a: nat, b: nat, d: nat)
    ensures a < b ==> a * d + d <= b * d
  {
    if a < b {
      assert (a + 1) * d <= b * d;
    }
  }

  lemma {:induction false} ChunkCount<E>(cfg: Config, buf: seq<E>)
    ensures |Chunks(cfg, buf)| == Batches(cfg, |buf|)
    decreases |buf|
  {
    var d := AtLeastOne(cfg);
    if buf == [] {
      DivisionUnique(d - 1, d, 0);
    } else if |buf| <= d {
      assert buf[TakeCount(cfg, buf)..] == [];
      assert |Chunks(cfg, buf)| == 1;
      DivisionUnique(|buf| + d - 1, d, 1);
    } else {
      ChunkCount(cfg, buf[d..]);
      DivideOnce(|buf| - d + d - 1, d);
    }
  }

  /** So a drain makes at most as many requests as the buffer has batches. */
  lemma DrainIsBounded<E>(cfg: Config, buffered: seq<E>, closed: bool, post: nat -> Outcome, requests: seq<seq<E>>, left: seq<E>)
    requires Finished(cfg, buffered, closed, post, requests, left) || Stopped(cfg, buffered, closed, post, requests, left)
    ensures |requests| <= Batches(cfg, |buffered|)
  {
    ChunkCount(cfg, buffered);
  }

  // ---- what trimming sheds ------------------------------------------------------------------

  /** Overflow costs the oldest events, exactly as many as there are too many. */
  lemma TrimKeepsNewest<E>(cfg: Config, buf: seq<E>)
    requires cfg.maxQueueSize > 0
    ensures Shed(cfg, buf) + Trimmed(cfg, buf) == buf
    ensures |Trimmed(cfg, buf)| == if |buf| <= cfg.maxQueueSize then |buf| else cfg.maxQueueSize
  {
  }

  /** The event just tracked is always kept, last; what is shed came before everything kept. */
  lemma EnqueueKeepsNewest<E>(cfg: Config, p: Shared<E>, event: E) returns (dropped: seq<E>)
    requires cfg.maxQueueSize > 0 && !p.closed
    ensures var q := EnqueueSection(cfg, p, event);
      && q.buf != [] && q.buf[|q.buf| - 1] == event
      && dropped + q.buf == p.buf + [event]
      && (dropped == [] || |q.buf| == cfg.maxQueueSize)
      && q == p.(buf := q.buf)
  {
    TrimKeepsNewest(cfg, p.buf + [event]);
    dropped := Shed(cfg, p.buf + [event]);
  }

  /** A batch comes back in front; overflow costs the front of the two together. */
  lemma RequeueKeepsNewest<E>(cfg: Config, p: Shared<E>, batch: seq<E>, now: nat) returns (dropped: seq<E>)
    requires cfg.maxQueueSize > 0 && !p.closed && batch != []
    ensures var q := RequeueSection(cfg, p, batch, now);
      && dropped + q.buf == batch + p.buf
      && (dropped == [] || |q.buf| == cfg.maxQueueSize)
      && q == p.(buf := q.buf, gate := now + cfg.interval)
  {
    TrimKeepsNewest(cfg, batch + p.buf);
    dropped := Shed(cfg, batch + p.buf);
  }

  /** Closed, neither an event nor a batch gets in. */
  lemma ClosedTakesNothing<E>(cfg: Config, p: Shared<E>, event: E, batch: seq<E>, now: nat)
    requires cfg.maxQueueSize > 0 && p.closed
    ensures EnqueueSection(cfg, p, event) == p && RequeueSection(cfg, p, batch, now) == p && !Admits(p, now)
  {
  }

  // ---- which failures end a drain -----------------------------------------------------------------

  /**
   * Open, only a retryable failure ends a drain before the buffer is empty; a permanent rejection
   * does not. Closed, the first failure of any kind does.
   */
  lemma DrainEndsAtFailure<E>(cfg: Config, buffered: seq<E>, closed: bool, post: nat -> Outcome, requests: seq<seq<E>>, left: seq<E>)
    requires Finished(cfg, buffered, closed, post, requests, left) || Stopped(cfg, buffered, closed, post, requests, left)
    ensures forall i | 0 <= i && i + 1 < |requests| :: if closed then post(i) == Ack else post(i) != Retry
    ensures Stopped(cfg, buffered, closed, post, requests, left) ==>
      if closed then post(|requests| - 1) != Ack else post(|requests| - 1) == Retry
    ensures Finished(cfg, buffered, closed, post, requests, left) && requests != [] ==>
      if closed then post(|requests| - 1) == Ack else post(|requests| - 1) != Retry
  {
    forall i | 0 <= i && i + 1 < |requests| ensures !Stops(post(i), closed) {
    }
  }
}
