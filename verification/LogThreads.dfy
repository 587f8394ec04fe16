/** The Splunk buffer with its two threads: the logging framework runs emits one at a time, and the timer flushes
    in between. A step is one access to the queue, the counter, the lock or Splunk. */
module LogThreads {
  import opened LogBuffer

  /** What a thread does next. A batch is in hand until it has been sent or dropped; read is the drop counter as
      the thread has read it. */
  datatype Pc<E> =
    | Idle
    | Checking(event: E)
    | Making(event: E)
    | Dropping(event: E)
    | Counting(event: E, read: nat)
    | Putting(event: E)
    | Sizing
    | Draining(batch: seq<E>)
    | Locking(batch: seq<E>)
    | Sending(batch: seq<E>)
    | Failing(batch: seq<E>)
    | Adding(batch: seq<E>, read: nat)

  /** The handler, with the history of events accepted, delivered and dropped. */
  datatype Shared<E> = Shared(queue: seq<E>, counter: nat, locked: bool, sent: seq<E>, accepted: seq<E>,
    dropped: seq<E>)

  datatype State<E> = State(shared: Shared<E>, emitter: Pc<E>, timer: Pc<E>)

  /** One step of a thread. available: Splunk answers, if this step sends. */
  function Moved<E>(cfg: Config, h: Shared<E>, pc: Pc<E>, available: bool): (Shared<E>, Pc<E>) {
    match pc
    case Idle => (h, pc)
    case Checking(event) => (h, if Full(cfg, |h.queue|) then Making(event) else Putting(event))
    case Making(event) =>
      if h.queue == [] then (h, Putting(event))
      else (h.(queue := h.queue[1..], dropped := h.dropped + h.queue[..1]), Dropping(event))
    case Dropping(event) => (h, Counting(event, h.counter))
    case Counting(event, read) => (h.(counter := read + 1), Putting(event))
    case Putting(event) =>
      if Full(cfg, |h.queue|) then (h, Idle)
      else (h.(queue := h.queue + [event], accepted := h.accepted + [event]), Sizing)
    case Sizing => (h, if |h.queue| >= cfg.batchSize then Draining([]) else Idle)
    case Draining(batch) =>
      if h.queue == [] then (h, if batch == [] then Idle else Locking(batch))
      else (h.(queue := h.queue[1..]), Draining(batch + h.queue[..1]))
    case Locking(batch) => if h.locked then (h, pc) else (h.(locked := true), Sending(batch))
    case Sending(batch) =>
      if available then (h.(sent := h.sent + batch, locked := false), Idle)
      else (h.(dropped := h.dropped + batch), Failing(batch))
    case Failing(batch) => (h, Adding(batch, h.counter))
    case Adding(batch, read) => (h.(counter := read + |batch|, locked := false), Idle)
  }

  datatype Action<E> = Arrive(event: E) | Tick | MoveEmitter(available: bool) | MoveTimer(available: bool)

  function Next<E>(cfg: Config, s: State<E>, a: Action<E>): State<E> {
    match a
    case Arrive(event) => if s.emitter.Idle? then s.(emitter := Checking(event)) else s
    case Tick => if s.timer.Idle? then s.(timer := Draining([])) else s
    case MoveEmitter(available) =>
      var (h, pc) := Moved(cfg, s.shared, s.emitter, available);
      State(h, pc, s.timer)
    case MoveTimer(available) =>
      var (h, pc) := Moved(cfg, s.shared, s.timer, available);
      State(h, s.emitter, pc)
  }

  function Start<E>(): State<E> {
    State(Shared([], 0, false, [], [], []), Idle, Idle)
  }

  function Run<E>(cfg: Config, s: State<E>, actions: seq<Action<E>>): State<E> {
    if actions == [] then s else Next(cfg, Run(cfg, s, actions[..|actions| - 1]), actions[|actions| - 1])
  }

  // ---------- nothing is lost ----------

  function Hand<E>(pc: Pc<E>): seq<E> {
    if pc.Draining? || pc.Locking? || pc.Sending? then pc.batch else []
  }

  /** Events dropped that the thread has not added to the counter yet. */
  function Uncounted<E>(pc: Pc<E>): nat {
    if pc.Dropping? || pc.Counting? then 1 else if pc.Failing? || pc.Adding? then |pc.batch| else 0
  }

  predicate UsesLock<E>(pc: Pc<E>) {
    pc.Sending? || pc.Failing? || pc.Adding?
  }

  predicate FlushesOnly<E>(pc: Pc<E>) {
    pc.Idle? || pc.Draining? || pc.Locking? || UsesLock(pc)
  }

  /** What a thread has read of the counter leaves room for what is not counted yet. */
  predicate ReadFits<E>(pc: Pc<E>, uncounted: nat, dropped: nat) {
    pc.Counting? || pc.Adding? ==> pc.read + uncounted <= dropped
  }

  function Times<E(==)>(events: seq<E>, e: E): nat {
    multiset(events)[e]
  }

  /** How often e is sent, dropped, queued, or in the hand of a thread at pc. */
  function Copies<E(==)>(h: Shared<E>, pc: Pc<E>, e: E): nat {
    Times(h.sent, e) + Times(h.dropped, e) + Times(h.queue, e) + Times(Hand(pc), e)
  }

  /** Each event has been sent, dropped, is queued or in hand as often as it was accepted. */
  ghost predicate Conserved<E(!new)>(s: State<E>) {
    forall e: E :: Times(s.shared.accepted, e) == Copies(s.shared, s.emitter, e) + Times(Hand(s.timer), e)
  }

  /** The counter never says more than was dropped, and a thread at the counter leaves it so. */
  ghost predicate Counted<E>(s: State<E>) {
    var uncounted := Uncounted(s.emitter) + Uncounted(s.timer);
    && s.shared.counter + uncounted <= |s.shared.dropped|
    && ReadFits(s.emitter, uncounted, |s.shared.dropped|) && ReadFits(s.timer, uncounted, |s.shared.dropped|)
  }

  /** One thread at most is past the lock; the timer only flushes; there is room for the event about to be put. */
  ghost predicate Placed<E>(cfg: Config, s: State<E>) {
    && (s.shared.locked <==> UsesLock(s.emitter) || UsesLock(s.timer)) && !(UsesLock(s.emitter) && UsesLock(s.timer))
    && FlushesOnly(s.timer) && (InEmit(s.emitter) ==> !Full(cfg, |s.shared.queue|))
    && (0 < cfg.maxBufferSize ==> |s.shared.queue| <= cfg.maxBufferSize)
  }

  predicate InEmit<E>(pc: Pc<E>) {
    pc.Dropping? || pc.Counting? || pc.Putting?
  }

  ghost predicate Inv<E(!new)>(cfg: Config, s: State<E>) {
    Conserved(s) && Counted(s) && Placed(cfg, s)
  }

  lemma TimesConcat<E>(a: seq<E>, b: seq<E>, e: E)
    ensures Times(a + b, e) == Times(a, e) + Times(b, e)
  {
  }

  lemma TimesFirst<E>(a: seq<E>, e: E)
    requires a != []
    ensures Times(a, e) == Times(a[..1], e) + Times(a[1..], e)
  {
    assert a == a[..1] + a[1..];
  }

  lemma TimesNone<E>(e: E)
    ensures Times([], e) == 0
  {
  }

  /** A step moves events about and adds those it accepts. */
  lemma MovesEvents<E>(cfg: Config, h: Shared<E>, pc: Pc<E>, available: bool, e: E)
    ensures var (h', pc') := Moved(cfg, h, pc, available);
            Copies(h', pc', e) + Times(h.accepted, e) == Copies(h, pc, e) + Times(h'.accepted, e)
  {
    hide Times;
    TimesNone(e);
    if h.queue != [] {
      TimesFirst(h.queue, e);
      TimesConcat(h.dropped, h.queue[..1], e);
    }
    match pc
    case Putting(event) =>
      TimesConcat(h.queue, [event], e);
      TimesConcat(h.accepted, [event], e);
    case Draining(batch) => if h.queue != [] { TimesConcat(batch, h.queue[..1], e); }
    case Sending(batch) =>
      TimesConcat(h.sent, batch, e);
      TimesConcat(h.dropped, batch, e);
    case _ =>
  }

  lemma NextConserves<E(!new)>(cfg: Config, s: State<E>, a: Action<E>)
    requires Conserved(s)
    ensures Conserved(Next(cfg, s, a))
  {
    hide Moved, Times;
    var s' := Next(cfg, s, a);
    forall e
      ensures Times(s'.shared.accepted, e) == Copies(s'.shared, s'.emitter, e) + Times(Hand(s'.timer), e)
    {
      match a
      case MoveEmitter(available) => MovesEvents(cfg, s.shared, s.emitter, available, e);
      case MoveTimer(available) => MovesEvents(cfg, s.shared, s.timer, available, e);
      case Arrive(_) =>
      case Tick =>
    }
  }

  lemma NextCounts<E>(cfg: Config, s: State<E>, a: Action<E>)
    requires Counted(s)
    ensures Counted(Next(cfg, s, a))
  {
  }

  lemma NextPlaces<E>(cfg: Config, s: State<E>, a: Action<E>)
    requires Placed(cfg, s)
    ensures Placed(cfg, Next(cfg, s, a))
  {
  }

  lemma NextKeepsInv<E(!new)>(cfg: Config, s: State<E>, a: Action<E>)
    requires Inv(cfg, s)
    ensures Inv(cfg, Next(cfg, s, a))
  {
    hide Next, Conserved, Counted, Placed;
    NextConserves(cfg, s, a);
    NextCounts(cfg, s, a);
    NextPlaces(cfg, s, a);
  }

  /** Over every interleaving each accepted event is sent, dropped, queued or in hand; the counter never says more than
      was dropped; and no emit fails to put its event. */
  lemma {:induction false} EveryInterleaving<E(!new)>(cfg: Config, actions: seq<Action<E>>)
    ensures Inv(cfg, Run(cfg, Start<E>(), actions))
  {
    if actions != [] {
      hide Next, Inv;
      EveryInterleaving(cfg, actions[..|actions| - 1]);
      NextKeepsInv(cfg, Run(cfg, Start<E>(), actions[..|actions| - 1]), actions[|actions| - 1]);
    }
  }

  // ---------- when a batch fits the queue, the counter is exact ----------

  ghost predicate Exact<E>(s: State<E>) {
    s.shared.counter + Uncounted(s.emitter) + Uncounted(s.timer) == |s.shared.dropped|
  }

  /** The queue is unbounded or has room for a batch. */
  predicate BatchFits(cfg: Config) {
    cfg.maxBufferSize <= 0 || cfg.batchSize <= cfg.maxBufferSize
  }

  predicate ReadIsCurrent<E>(pc: Pc<E>, counter: nat) {
    pc.Adding? ==> pc.read == counter
  }

  /** An emit finds room, so the counter is touched past the lock only. */
  ghost predicate Guarded<E>(cfg: Config, s: State<E>) {
    && Placed(cfg, s) && Exact(s)
    && !s.emitter.Making? && !s.emitter.Dropping? && !s.emitter.Counting?
    && ReadIsCurrent(s.emitter, s.shared.counter) && ReadIsCurrent(s.timer, s.shared.counter)
    && (!s.emitter.Sizing? && !s.emitter.Draining? ==> !Full(cfg, |s.shared.queue|))
  }

  lemma NextKeepsGuarded<E>(cfg: Config, s: State<E>, a: Action<E>)
    requires BatchFits(cfg) && Guarded(cfg, s)
    ensures Guarded(cfg, Next(cfg, s, a))
  {
  }

  lemma {:induction false} RunsGuarded<E>(cfg: Config, actions: seq<Action<E>>)
    requires BatchFits(cfg)
    ensures Guarded(cfg, Run(cfg, Start<E>(), actions))
  {
    if actions != [] {
      hide Next, Guarded;
      RunsGuarded(cfg, actions[..|actions| - 1]);
      NextKeepsGuarded(cfg, Run(cfg, Start<E>(), actions[..|actions| - 1]), actions[|actions| - 1]);
    }
  }

  // ---------- schedules ----------

  lemma {:induction false} RunConcat<E>(cfg: Config, s: State<E>, a: seq<Action<E>>, b: seq<Action<E>>)
    ensures Run(cfg, s, a + b) == Run(cfg, Run(cfg, s, a), b)
  {
    hide Next;
    if b == [] {
      assert a + b == a;
    } else {
      RunConcat(cfg, s, a, b[..|b| - 1]);
      assert (a + b)[..|a + b| - 1] == a + b[..|b| - 1];
    }
  }

  lemma RunOne<E>(cfg: Config, s: State<E>, a: Action<E>)
    ensures Run(cfg, s, [a]) == Next(cfg, s, a)
  {
    hide Next;
    assert [a][..0] == [];
  }

  function Reps<E>(e: E, n: nat): (events: seq<E>)
    ensures |events| == n
  {
    seq(n, _ => e)
  }

  lemma RunTwo<E>(cfg: Config, s: State<E>, a: Action<E>, b: Action<E>)
    ensures Run(cfg, s, [a] + [b]) == Next(cfg, Next(cfg, s, a), b)
  {
    hide Next;
    RunOne(cfg, s, a);
    RunConcat(cfg, s, [a], [b]);
    RunOne(cfg, Next(cfg, s, a), b);
  }

  /** An emit that finds room puts its event. */
  lemma Puts<E>(cfg: Config, s: State<E>, e: E) returns (actions: seq<Action<E>>)
    requires s.emitter.Idle? && !Full(cfg, |s.shared.queue|)
    ensures Run(cfg, s, actions) ==
      State(s.shared.(queue := s.shared.queue + [e], accepted := s.shared.accepted + [e]), Sizing, s.timer)
  {
    var m := MoveEmitter(true);
    actions := [Arrive(e)] + [m] + [m];
    RunTwo(cfg, s, Arrive(e), m);
    RunConcat(cfg, s, [Arrive(e)] + [m], [m]);
    RunOne(cfg, Next(cfg, Next(cfg, s, Arrive(e)), m), m);
  }

  /** Emits that fill the queue below a batch. */
  lemma {:induction false} Fills<E>(cfg: Config, s: State<E>, e: E, n: nat) returns (actions: seq<Action<E>>)
    requires s.emitter.Idle? && (n > 0 ==> |s.shared.queue| + n < cfg.batchSize)
    requires 0 < cfg.maxBufferSize ==> |s.shared.queue| + n <= cfg.maxBufferSize
    ensures Run(cfg, s, actions) ==
      s.(shared := s.shared.(queue := s.shared.queue + Reps(e, n), accepted := s.shared.accepted + Reps(e, n)))
  {
    if n == 0 {
      actions := [];
      assert s.shared.queue + Reps(e, 0) == s.shared.queue && s.shared.accepted + Reps(e, 0) == s.shared.accepted;
    } else {
      var before := Fills(cfg, s, e, n - 1);
      var s1 := Run(cfg, s, before);
      var put := Puts(cfg, s1, e);
      var s2 := Run(cfg, s1, put);
      var m := MoveEmitter(true);
      RunConcat(cfg, s, before, put);
      RunConcat(cfg, s, before + put, [m]);
      RunOne(cfg, s2, m);
      actions := before + put + [m];
      hide Run;
      assert Reps(e, n) == Reps(e, n - 1) + [e];
      assert s.shared.queue + Reps(e, n - 1) + [e] == s.shared.queue + Reps(e, n);
      assert s.shared.accepted + Reps(e, n - 1) + [e] == s.shared.accepted + Reps(e, n);
    }
  }

  /** The timer takes the whole queue in hand and comes to the lock. */
  lemma {:induction false} TimerDrains<E>(cfg: Config, s: State<E>) returns (actions: seq<Action<E>>)
    requires s.timer.Draining? && s.timer.batch + s.shared.queue != []
    ensures Run(cfg, s, actions) ==
      s.(shared := s.shared.(queue := []), timer := Locking(s.timer.batch + s.shared.queue))
    decreases |s.shared.queue|
  {
    var m := MoveTimer(true);
    var s1 := Next(cfg, s, m);
    RunOne(cfg, s, m);
    actions := [m];
    if s.shared.queue == [] {
      assert s.timer.batch + s.shared.queue == s.timer.batch;
    } else {
      assert s1.timer.batch + s1.shared.queue == s.timer.batch + s.shared.queue;
      hide Run;
      var rest := TimerDrains(cfg, s1);
      RunConcat(cfg, s, [m], rest);
      actions := [m] + rest;
    }
  }

  lemma {:induction false} EmitterDrains<E>(cfg: Config, s: State<E>) returns (actions: seq<Action<E>>)
    requires s.emitter.Draining? && s.emitter.batch + s.shared.queue != []
    ensures Run(cfg, s, actions) ==
      s.(shared := s.shared.(queue := []), emitter := Locking(s.emitter.batch + s.shared.queue))
    decreases |s.shared.queue|
  {
    var m := MoveEmitter(true);
    var s1 := Next(cfg, s, m);
    RunOne(cfg, s, m);
    actions := [m];
    if s.shared.queue == [] {
      assert s.emitter.batch + s.shared.queue == s.emitter.batch;
    } else {
      assert s1.emitter.batch + s1.shared.queue == s.emitter.batch + s.shared.queue;
      hide Run;
      var rest := EmitterDrains(cfg, s1);
      RunConcat(cfg, s, [m], rest);
      actions := [m] + rest;
    }
  }

  // ---------- otherwise an update of the counter can be lost ----------

  /** The timer has drained a full queue, could not send it, and has read the counter. */
  lemma TimerReads<E>(cfg: Config, e: E) returns (actions: seq<Action<E>>)
    requires 0 < cfg.maxBufferSize < cfg.batchSize
    ensures var batch := Reps(e, cfg.maxBufferSize);
            Run(cfg, Start<E>(), actions) ==
              State(Shared([], 0, true, [], batch, batch), Idle, Adding(batch, 0))
  {
    var n: nat, m := cfg.maxBufferSize, MoveTimer(false);
    var batch := Reps(e, n);
    var fill := Fills(cfg, Start<E>(), e, n);
    assert [] + batch == batch;
    var s1 := State(Shared(batch, 0, false, [], batch, []), Idle, Idle);
    assert Run(cfg, Start<E>(), fill) == s1;
    var s2 := Next(cfg, s1, Tick);
    RunOne(cfg, s1, Tick);
    RunConcat(cfg, Start<E>(), fill, [Tick]);
    var drain := TimerDrains(cfg, s2);
    RunConcat(cfg, Start<E>(), fill + [Tick], drain);
    var s3 := State(Shared([], 0, false, [], batch, []), Idle, Locking(batch));
    assert Run(cfg, Start<E>(), fill + [Tick] + drain) == s3;
    RunTwo(cfg, s3, m, m);
    RunConcat(cfg, s3, [m] + [m], [m]);
    var s4 := Next(cfg, Next(cfg, s3, m), m);
    RunOne(cfg, s4, m);
    actions := fill + [Tick] + drain + ([m] + [m] + [m]);
    RunConcat(cfg, Start<E>(), fill + [Tick] + drain, [m] + [m] + [m]);
  }

  /** A full queue, an emit, and a timer that has read the counter: the emit counts the event it drops, and the
      timer's update undoes that. */
  lemma Overwrites<E>(cfg: Config, s: State<E>, e: E, n: nat) returns (actions: seq<Action<E>>)
    requires s.emitter.Idle? && s.timer.Adding? && Full(cfg, |s.shared.queue|) && s.shared.queue != []
    requires s.shared.counter == 0 && s.timer.read == 0 && |s.timer.batch| == n == |s.shared.dropped|
    ensures !Exact(Run(cfg, s, actions))
  {
    var m := MoveEmitter(true);
    var s1 := Next(cfg, Next(cfg, s, Arrive(e)), m);
    assert s1 == s.(emitter := Making(e));
    var s2 := Next(cfg, Next(cfg, s1, m), m);
    assert s2.emitter == Counting(e, 0) && s2.timer == s.timer && |s2.shared.dropped| == n + 1;
    var s3 := Next(cfg, Next(cfg, s2, m), MoveTimer(true));
    assert s3.shared.counter == n && |s3.shared.dropped| == n + 1 && s3.emitter.Putting? && s3.timer.Idle?;
    hide Run, Next;
    RunTwo(cfg, s, Arrive(e), m);
    RunTwo(cfg, s1, m, m);
    RunTwo(cfg, s2, m, MoveTimer(true));
    var a, b, c := [Arrive(e)] + [m], [m] + [m], [m] + [MoveTimer(true)];
    RunConcat(cfg, s, a, b);
    RunConcat(cfg, s, a + b, c);
    actions := a + b + c;
  }

  lemma UpdateIsLost<E>(cfg: Config, e: E) returns (actions: seq<Action<E>>)
    requires 0 < cfg.maxBufferSize < cfg.batchSize
    ensures !Exact(Run(cfg, Start<E>(), actions))
  {
    var n: nat := cfg.maxBufferSize;
    var before := TimerReads(cfg, e);
    var s1 := Run(cfg, Start<E>(), before);
    var fill := Fills(cfg, s1, e, n);
    hide Run, Exact;
    var s2 := Run(cfg, s1, fill);
    assert |s2.shared.queue| == n && s2.shared.queue != [];
    var rest := Overwrites(cfg, s2, e, n);
    RunConcat(cfg, Start<E>(), before, fill);
    RunConcat(cfg, Start<E>(), before + fill, rest);
    actions := before + fill + rest;
  }

  ghost predicate AlwaysExact<E(!new)>(cfg: Config) {
    forall actions: seq<Action<E>> :: Exact(Run(cfg, Start<E>(), actions))
  }

  /** The counter is exact in every interleaving, but for what a thread is about to add, exactly when a batch fits
      the queue. */
  lemma CounterExactIff<E(!new)>(cfg: Config, e: E)
    ensures AlwaysExact<E>(cfg) <==> BatchFits(cfg)
  {
    hide Run, Exact;
    if BatchFits(cfg) {
      forall actions: seq<Action<E>>
        ensures Exact(Run(cfg, Start<E>(), actions))
      {
        RunsGuarded(cfg, actions);
      }
    } else {
      var actions := UpdateIsLost(cfg, e);
    }
  }

  // ---------- when a batch does not fit, the order is kept ----------

  /** An emit never flushes. */
  predicate TimerAlone(cfg: Config) {
    0 < cfg.maxBufferSize < cfg.batchSize
  }

  lemma {:induction false} DropsTail<E>(a: seq<E>, tail: seq<E>, b: seq<E>)
    requires Subsequence(a + tail, b)
    ensures Subsequence(a, b)
    decreases b
  {
    if tail == [] {
      assert a + tail == a;
    } else {
      var n, m := |tail| - 1, |b| - 1;
      assert (a + tail)[..|a + tail| - 1] == a + tail[..n];
      if Subsequence(a + tail, b[..m]) {
        DropsTail(a, tail, b[..m]);
      } else {
        DropsTail(a, tail[..n], b[..m]);
      }
      SubsequenceSkips(a, b[..m], [b[m]]);
      assert b == b[..m] + [b[m]];
    }
  }

  lemma {:induction false} DropsMiddle<E>(a: seq<E>, middle: seq<E>, tail: seq<E>, b: seq<E>)
    requires Subsequence(a + middle + tail, b)
    ensures Subsequence(a + tail, b)
    decreases b
  {
    if tail == [] {
      assert a + middle + tail == a + middle && a + tail == a;
      DropsTail(a, middle, b);
    } else {
      var n, m := |tail| - 1, |b| - 1;
      var longer := a + middle + tail;
      assert longer[..|longer| - 1] == a + middle + tail[..n];
      assert b == b[..m] + [b[m]];
      if Subsequence(longer, b[..m]) {
        DropsMiddle(a, middle, tail, b[..m]);
        SubsequenceSkips(a + tail, b[..m], [b[m]]);
      } else {
        DropsMiddle(a, middle, tail[..n], b[..m]);
        SubsequenceAppends(a + tail[..n], b[..m], [b[m]]);
        assert a + tail == a + tail[..n] + [b[m]];
      }
    }
  }

  /** What is sent, in the timer's hand and queued follows the order of emission; an emit holds no batch. */
  ghost predicate Ordered<E>(cfg: Config, s: State<E>) {
    && Placed(cfg, s) && !UsesLock(s.emitter) && !s.emitter.Draining? && !s.emitter.Locking?
    && Subsequence(s.shared.sent + Hand(s.timer) + s.shared.queue, s.shared.accepted)
  }

  lemma EmitterKeepsOrder<E>(cfg: Config, s: State<E>, available: bool)
    requires TimerAlone(cfg) && Ordered(cfg, s)
    ensures Ordered(cfg, Next(cfg, s, MoveEmitter(available)))
  {
    NextPlaces(cfg, s, MoveEmitter(available));
    var h, before := s.shared, s.shared.sent + Hand(s.timer);
    if s.emitter.Making? && h.queue != [] {
      assert before + h.queue == before + h.queue[..1] + h.queue[1..];
      DropsMiddle(before, h.queue[..1], h.queue[1..], h.accepted);
    }
    if s.emitter.Putting? {
      SubsequenceAppends(before + h.queue, h.accepted, [s.emitter.event]);
      assert before + (h.queue + [s.emitter.event]) == before + h.queue + [s.emitter.event];
    }
  }

  lemma TimerKeepsOrder<E>(cfg: Config, s: State<E>, available: bool)
    requires TimerAlone(cfg) && Ordered(cfg, s)
    ensures Ordered(cfg, Next(cfg, s, MoveTimer(available)))
  {
    NextPlaces(cfg, s, MoveTimer(available));
    var h := s.shared;
    if s.timer.Draining? && h.queue != [] {
      assert h.sent + (s.timer.batch + h.queue[..1]) + h.queue[1..] == h.sent + s.timer.batch + h.queue;
    }
    if s.timer.Sending? {
      assert h.sent + s.timer.batch + [] + h.queue == h.sent + s.timer.batch + h.queue;
      assert h.sent + [] + h.queue == h.sent + h.queue;
      DropsMiddle(h.sent, s.timer.batch, h.queue, h.accepted);
    }
  }

  lemma {:induction false} RunsOrdered<E>(cfg: Config, actions: seq<Action<E>>)
    requires TimerAlone(cfg)
    ensures Ordered(cfg, Run(cfg, Start<E>(), actions))
  {
    if actions != [] {
      var n := |actions| - 1;
      RunsOrdered(cfg, actions[..n]);
      var s := Run(cfg, Start<E>(), actions[..n]);
      match actions[n]
      case MoveEmitter(available) => EmitterKeepsOrder(cfg, s, available);
      case MoveTimer(available) => TimerKeepsOrder(cfg, s, available);
      case Arrive(_) =>
      case Tick =>
    }
  }

  // ---------- otherwise a batch can overtake another ----------

  /** The timer has the first event in hand, short of the lock, and the emitter is idle again. */
  lemma FirstInHand<E>(cfg: Config, a: E) returns (actions: seq<Action<E>>)
    requires BatchFits(cfg)
    ensures Run(cfg, Start<E>(), actions) == State(Shared([], 0, false, [], [a], []), Idle, Locking([a]))
  {
    var start, m, t := Start<E>(), MoveEmitter(true), MoveTimer(true);
    var put := Puts(cfg, start, a);
    assert [] + [a] == [a];
    var s1 := State(Shared([a], 0, false, [], [a], []), Sizing, Idle);
    assert Run(cfg, start, put) == s1;
    RunTwo(cfg, s1, Tick, t);
    var s2 := Next(cfg, Next(cfg, s1, Tick), t);
    assert [] + [a][..1] == [a] && [a][1..] == [];
    assert s2 == State(Shared([], 0, false, [], [a], []), Sizing, Draining([a]));
    RunTwo(cfg, s2, t, m);
    var s3 := Next(cfg, Next(cfg, s2, t), m);
    RunOne(cfg, s3, m);
    hide Run;
    RunConcat(cfg, start, put, [Tick] + [t]);
    RunConcat(cfg, start, put + ([Tick] + [t]), [t] + [m]);
    actions := put + ([Tick] + [t]) + ([t] + [m]);
    if s3.emitter.Draining? {
      RunConcat(cfg, start, actions, [m]);
      actions := actions + [m];
    }
  }

  /** Emits up to a batch, which the emitter then sends. */
  lemma BatchGoesOut<E>(cfg: Config, s: State<E>, b: E, n: nat) returns (actions: seq<Action<E>>)
    requires BatchFits(cfg) && n >= 1 && (if cfg.batchSize <= 1 then n == 1 else n == cfg.batchSize)
    requires s.emitter.Idle? && s.shared.queue == [] && !s.shared.locked
    ensures var s' := Run(cfg, s, actions);
            && s'.timer == s.timer && s'.emitter.Idle? && !s'.shared.locked
            && s'.shared.sent == s.shared.sent + Reps(b, n)
            && s'.shared.accepted == s.shared.accepted + Reps(b, n)
  {
    var m := MoveEmitter(true);
    var fill := Fills(cfg, s, b, n - 1);
    var s1 := Run(cfg, s, fill);
    assert |s1.shared.queue| == n - 1;
    var put := Puts(cfg, s1, b);
    var s2 := Run(cfg, s1, put);
    assert Reps(b, n) == Reps(b, n - 1) + [b];
    assert s2.shared.queue == Reps(b, n) by { assert [] + Reps(b, n - 1) == Reps(b, n - 1); }
    assert s2.shared.accepted == s.shared.accepted + Reps(b, n);
    var s3 := Next(cfg, s2, m);
    RunOne(cfg, s2, m);
    assert s3 == s2.(emitter := Draining([]));
    assert [] + s3.shared.queue == Reps(b, n);
    var drain := EmitterDrains(cfg, s3);
    var s4 := Run(cfg, s3, drain);
    RunTwo(cfg, s4, m, m);
    hide Run;
    RunConcat(cfg, s, fill, put);
    RunConcat(cfg, s, fill + put, [m]);
    RunConcat(cfg, s, fill + put + [m], drain);
    RunConcat(cfg, s, fill + put + [m] + drain, [m] + [m]);
    actions := fill + put + [m] + drain + ([m] + [m]);
  }

  /** The emitter's batch is sent first, then the timer's older event. */
  lemma Overtakes<E>(cfg: Config, a: E, b: E) returns (actions: seq<Action<E>>)
    requires BatchFits(cfg) && a != b
    ensures var h := Run(cfg, Start<E>(), actions).shared; !Subsequence(h.sent, h.accepted)
  {
    var start, t := Start<E>(), MoveTimer(true);
    var n: nat := if cfg.batchSize <= 1 then 1 else cfg.batchSize;
    var first := FirstInHand(cfg, a);
    var s1 := Run(cfg, start, first);
    var batch := BatchGoesOut(cfg, s1, b, n);
    var s2 := Run(cfg, s1, batch);
    RunTwo(cfg, s2, t, t);
    var h := Next(cfg, Next(cfg, s2, t), t).shared;
    assert h.sent == [] + Reps(b, n) + [a] && h.accepted == [a] + Reps(b, n);
    assert h.sent[0] == b && h.accepted[0] == a;
    if Subsequence(h.sent, h.accepted) {
      SubsequenceFits(h.sent, h.accepted);
    }
    hide Run;
    RunConcat(cfg, start, first, batch);
    RunConcat(cfg, start, first + batch, [t] + [t]);
    actions := first + batch + ([t] + [t]);
  }

  ghost predicate AlwaysOrdered<E(!new)>(cfg: Config) {
    forall actions: seq<Action<E>> ::
      Subsequence(Run(cfg, Start<E>(), actions).shared.sent, Run(cfg, Start<E>(), actions).shared.accepted)
  }

  /** In every interleaving events are sent in the order of emission exactly when no batch fits the queue: so either
      the counter is exact or the order is kept, never both. */
  lemma OrderKeptIff<E(!new)>(cfg: Config, a: E, b: E)
    requires a != b
    ensures AlwaysOrdered<E>(cfg) <==> !BatchFits(cfg)
    ensures AlwaysOrdered<E>(cfg) <==> !AlwaysExact<E>(cfg)
  {
    hide Run, Exact, Subsequence, AlwaysExact;
    CounterExactIff(cfg, a);
    if BatchFits(cfg) {
      var actions := Overtakes(cfg, a, b);
    } else {
      forall actions: seq<Action<E>>
        ensures Subsequence(Run(cfg, Start<E>(), actions).shared.sent, Run(cfg, Start<E>(), actions).shared.accepted)
      {
        RunsOrdered(cfg, actions);
        var s := Run(cfg, Start<E>(), actions);
        assert s.shared.sent + Hand(s.timer) + s.shared.queue == s.shared.sent + (Hand(s.timer) + s.shared.queue);
        DropsTail(s.shared.sent, Hand(s.timer) + s.shared.queue, s.shared.accepted);
      }
    }
  }
}
