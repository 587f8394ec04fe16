/** The bounded buffer between the loggers and Splunk. */
module LogBuffer {
  import opened Workflow

  datatype Config = Config(batchSize: int, maxBufferSize: int)

  /** The queue with the history of the handler: events accepted, events delivered, and the drop counter. */
  datatype Buffer<E> = Buffer(queue: seq<E>, dropped: nat, sent: seq<E>, accepted: seq<E>)

  /** queue.Queue.full(): a queue whose maximum is not positive is unbounded. */
  predicate Full(cfg: Config, n: nat) {
    0 < cfg.maxBufferSize <= n
  }

  /** flush(): everything queued goes out in one batch, or is counted as dropped. */
  function Flushed<E>(b: Buffer<E>, available: bool): Buffer<E> {
    if available then b.(queue := [], sent := b.sent + b.queue)
    else b.(queue := [], dropped := b.dropped + |b.queue|)
  }

  /** emit(): the oldest event makes room, and a full batch is flushed. */
  function Emitted<E>(cfg: Config, b: Buffer<E>, event: E, available: bool): Buffer<E> {
    var room := if Full(cfg, |b.queue|) then b.(queue := b.queue[1..], dropped := b.dropped + 1) else b;
    var put := room.(queue := room.queue + [event], accepted := room.accepted + [event]);
    if |put.queue| >= cfg.batchSize then Flushed(put, available) else put
  }

  /** The queue is empty now: what it held has been sent, in order and after what was sent before,
    or has been counted. */
  predicate Emptied<E(==)>(b: Buffer<E>, b': Buffer<E>, available: bool) {
    && |b'.queue| == 0 && b'.accepted == b.accepted
    && if available then b'.sent == b.sent + b.queue && b'.dropped == b.dropped
       else b'.sent == b.sent && b'.dropped == b.dropped + |b.queue|
  }

  /** The event is the last in the queue; when there was no room the oldest is gone, and counted. A batch that is full
      goes out at once. */
  predicate TakenIn<E(==)>(cfg: Config, b: Buffer<E>, event: E, b': Buffer<E>, available: bool) {
    var full := cfg.maxBufferSize > 0 && |b.queue| >= cfg.maxBufferSize;
    var queue := (if full then b.queue[1..] else b.queue) + [event];
    var dropped := if full then b.dropped + 1 else b.dropped;
    && b'.accepted == b.accepted + [event]
    && if |queue| < cfg.batchSize then b'.queue == queue && b'.dropped == dropped && b'.sent == b.sent
       else if available then |b'.queue| == 0 && b'.sent == b.sent + queue && b'.dropped == dropped
       else |b'.queue| == 0 && b'.sent == b.sent && b'.dropped == dropped + |queue|
  }

  class SplunkLoggingHandler<E(==)> {
    var queue: seq<E>
    var droppedCount: nat
    var closed: bool
    const enabled: bool
    const cfg: Config
    ghost var sent: seq<E>
    ghost var accepted: seq<E>

    ghost function Contents(): Buffer<E>
      reads this
    {
      Buffer(queue, droppedCount, sent, accepted)
    }

    predicate Active()
      reads this
    {
      enabled && !closed
    }

    constructor (cfg: Config, enabled: bool)
      ensures Contents() == Buffer([], 0, [], []) && !closed && this.cfg == cfg && this.enabled == enabled
    {
      this.cfg, this.enabled := cfg, enabled;
      queue, droppedCount, closed := [], 0, false;
      sent, accepted := [], [];
    }

    /** event is None when the record cannot be formatted. */
    method Emit(event: Option<E>, available: bool)
      modifies this
      ensures closed == old(closed)
      ensures Contents() == if old(Active()) && event.Some?
                            then Emitted(cfg, old(Contents()), event.value, available) else old(Contents())
      ensures old(Active()) && event.Some? ==> TakenIn(cfg, old(Contents()), event.value, Contents(), available)
    {
      if !enabled || closed || event.None? {
        return;
      }
      if Full(cfg, |queue|) {
        queue := queue[1..];
        droppedCount := droppedCount + 1;
      }
      queue := queue + [event.value];
      accepted := accepted + [event.value];
      if |queue| >= cfg.batchSize {
        Flush(available);
      }
    }

    method Flush(available: bool)
      modifies this
      ensures closed == old(closed)
      ensures Contents() == if old(Active()) then Flushed(old(Contents()), available) else old(Contents())
      ensures old(Active()) ==> Emptied(old(Contents()), Contents(), available)
    {
      if !enabled || closed {
        return;
      }
      var events := [];
      while queue != []
        invariant events + queue == old(queue)
        invariant droppedCount == old(droppedCount) && sent == old(sent) && accepted == old(accepted)
        invariant closed == old(closed)
        decreases |queue|
      {
        events := events + [queue[0]];
        queue := queue[1..];
      }
      assert events == old(queue);
      if events == [] {
        return;
      }
      if available {
        sent := sent + events;
      } else {
        droppedCount := droppedCount + |events|;
      }
    }

    /** The closing flush finds the handler closed already: what is queued stays queued, neither sent
        nor counted as dropped. */
    method Close(available: bool)
      modifies this
      ensures closed && Contents() == old(Contents())
    {
      closed := true;
      if enabled {
        Flush(available);
      }
    }
  }

  // ---------- runs ----------

  datatype Op<E> = Emit(event: E, available: bool) | Flush(available: bool)

  function Step<E>(cfg: Config, b: Buffer<E>, op: Op<E>): Buffer<E> {
    match op
    case Emit(event, available) => Emitted(cfg, b, event, available)
    case Flush(available) => Flushed(b, available)
  }

  /** The buffer after a sequence of emits and flushes, starting empty. */
  function After<E>(cfg: Config, ops: seq<Op<E>>): Buffer<E> {
    if ops == [] then Buffer([], 0, [], [])
    else Step(cfg, After(cfg, ops[..|ops| - 1]), ops[|ops| - 1])
  }

  predicate Subsequence<E(==)>(a: seq<E>, b: seq<E>) {
    if a == [] then true
    else if b == [] then false
    else if a[|a| - 1] == b[|b| - 1] && Subsequence(a[..|a| - 1], b[..|b| - 1]) then true
    else Subsequence(a, b[..|b| - 1])
  }

  lemma {:induction false} SubsequenceFits<E>(a: seq<E>, b: seq<E>)
    requires Subsequence(a, b)
    ensures |a| <= |b| && (|a| == |b| ==> a == b)
  {
    if a != [] {
      if a[|a| - 1] == b[|b| - 1] && Subsequence(a[..|a| - 1], b[..|b| - 1]) {
        SubsequenceFits(a[..|a| - 1], b[..|b| - 1]);
        assert a == a[..|a| - 1] + [a[|a| - 1]] && b == b[..|b| - 1] + [b[|b| - 1]];
      } else {
        SubsequenceFits(a, b[..|b| - 1]);
      }
    }
  }

  lemma {:induction false} SubsequenceSkips<E>(a: seq<E>, b: seq<E>, more: seq<E>)
    requires Subsequence(a, b)
    ensures Subsequence(a, b + more)
  {
    if more == [] {
      assert b + more == b;
    } else {
      var n := |more| - 1;
      SubsequenceSkips(a, b, more[..n]);
      assert (b + more)[..|b + more| - 1] == b + more[..n];
    }
  }

  lemma {:induction false} SubsequenceAppends<E>(a: seq<E>, b: seq<E>, more: seq<E>)
    requires Subsequence(a, b)
    ensures Subsequence(a + more, b + more)
  {
    if more == [] {
      assert b + more == b && a + more == a;
    } else {
      var n := |more| - 1;
      SubsequenceAppends(a, b, more[..n]);
      assert (b + more)[..|b + more| - 1] == b + more[..n];
      assert (a + more)[..|a + more| - 1] == a + more[..n];
    }
  }

  /** Every accepted event is sent, dropped or still queued: the queue is the most recent part of what was
      accepted, what was sent came before it and in order, and the counter tells the difference. */
  ghost predicate Accounted<E(!new)>(b: Buffer<E>) {
    exists gone: seq<E> :: Gone(b, gone)
  }

  ghost predicate Gone<E(!new)>(b: Buffer<E>, gone: seq<E>) {
    b.accepted == gone + b.queue && Subsequence(b.sent, gone) && b.dropped == |gone| - |b.sent|
  }

  lemma FlushAccounted<E(!new)>(b: Buffer<E>, available: bool)
    requires Accounted(b)
    ensures Accounted(Flushed(b, available))
  {
    var gone :| Gone(b, gone);
    if available {
      SubsequenceAppends(b.sent, gone, b.queue);
    } else {
      SubsequenceSkips(b.sent, gone, b.queue);
    }
    assert Gone(Flushed(b, available), gone + b.queue);
  }

  lemma StepAccounted<E(!new)>(cfg: Config, b: Buffer<E>, op: Op<E>)
    requires Accounted(b)
    ensures Accounted(Step(cfg, b, op))
  {
    if op.Flush? {
      FlushAccounted(b, op.available);
    } else {
      var gone :| Gone(b, gone);
      var room := if Full(cfg, |b.queue|) then b.(queue := b.queue[1..], dropped := b.dropped + 1) else b;
      var gone' := if Full(cfg, |b.queue|) then gone + b.queue[..1] else gone;
      if Full(cfg, |b.queue|) {
        SubsequenceSkips(b.sent, gone, b.queue[..1]);
      }
      var put := room.(queue := room.queue + [op.event], accepted := room.accepted + [op.event]);
      assert Gone(put, gone');
      FlushAccounted(put, op.available);
    }
  }

  /** Over every run of emits and flushes before the handler is closed: nothing is lost uncounted, the
      order of emission is kept, and both bounds on the queue hold after every operation. */
  lemma {:induction false} EveryRun<E(!new)>(cfg: Config, ops: seq<Op<E>>)
    ensures var b := After(cfg, ops);
            && Accounted(b)
            && |b.accepted| == |b.sent| + b.dropped + |b.queue|
            && Subsequence(b.sent + b.queue, b.accepted)
            && (0 < cfg.maxBufferSize ==> |b.queue| <= cfg.maxBufferSize)
            && (|b.queue| < cfg.batchSize || b.queue == [])
  {
    if ops == [] {
      assert Gone(After(cfg, ops), []);
    } else {
      EveryRun(cfg, ops[..|ops| - 1]);
      StepAccounted(cfg, After(cfg, ops[..|ops| - 1]), ops[|ops| - 1]);
      var b := After(cfg, ops);
      var gone :| Gone(b, gone);
      SubsequenceAppends(b.sent, gone, b.queue);
    }
  }

  /** The counter is zero exactly when everything accepted was sent or is queued, in order. */
  lemma NothingDroppedIff<E(!new)>(cfg: Config, ops: seq<Op<E>>)
    ensures var b := After(cfg, ops); b.dropped == 0 <==> b.sent + b.queue == b.accepted
  {
    EveryRun(cfg, ops);
    var b := After(cfg, ops);
    if b.dropped == 0 {
      SubsequenceFits(b.sent + b.queue, b.accepted);
    }
  }

  // ---------- when the buffer drops events although Splunk answers ----------

  ghost predicate Delivering<E(!new)>(ops: seq<Op<E>>) {
    forall i :: 0 <= i < |ops| ==> ops[i].available
  }

  ghost predicate NeverOverflows<E(!new)>(cfg: Config) {
    forall ops: seq<Op<E>> :: Delivering(ops) ==> After(cfg, ops).dropped == 0
  }

  lemma {:induction false} RoomForBatch<E(!new)>(cfg: Config, ops: seq<Op<E>>)
    requires Delivering(ops) && (cfg.maxBufferSize <= 0 || cfg.batchSize <= cfg.maxBufferSize)
    ensures After(cfg, ops).dropped == 0
  {
    if ops != [] {
      var n := |ops| - 1;
      RoomForBatch(cfg, ops[..n]);
      EveryRun(cfg, ops[..n]);
    }
  }

  function Emits<E>(event: E, n: nat): seq<Op<E>> {
    seq(n, i => Emit(event, true))
  }

  lemma {:induction false} EmitsFill<E(!new)>(cfg: Config, event: E, n: nat)
    requires 0 < cfg.maxBufferSize < cfg.batchSize && n <= cfg.maxBufferSize
    ensures var b := After(cfg, Emits(event, n)); |b.queue| == n && b.dropped == 0
  {
    if n > 0 {
      EmitsFill(cfg, event, n - 1);
      assert Emits(event, n)[..n - 1] == Emits(event, n - 1);
    }
  }

  /** With Splunk always answering, no run drops an event exactly when the queue has room for a batch. */
  lemma NeverOverflowsIff<E(!new)>(cfg: Config, event: E)
    ensures NeverOverflows<E>(cfg) <==> cfg.maxBufferSize <= 0 || cfg.batchSize <= cfg.maxBufferSize
  {
    if cfg.maxBufferSize <= 0 || cfg.batchSize <= cfg.maxBufferSize {
      forall ops: seq<Op<E>> | Delivering(ops)
        ensures After(cfg, ops).dropped == 0
      {
        RoomForBatch(cfg, ops);
      }
    } else {
      var n := cfg.maxBufferSize;
      EmitsFill(cfg, event, n);
      var ops := Emits(event, n + 1);
      assert ops[..n] == Emits(event, n);
      assert Delivering(ops) && After(cfg, ops).dropped == 1;
    }
  }
}
