/** Retrying a request whose database connection was lost. */
module DbRetry {
  import opened Text
  import opened Workflow

  // ---------- classifying errors ----------

  /** A database exception: isInterface for InterfaceError, otherwise OperationalError or DatabaseError. */
  datatype DbError = DbError(isInterface: bool, message: string)

  const CONNECTION_ERROR_CODES: set<int> := {3113, 3114, 1033, 12541, 12543, 3135, 12571, 28, 1012, 12170, 12514}
  const MID_COMMIT_CODES: set<int> := {3113, 3114}
  const LOST_CONNECTION_PATTERNS: seq<string> :=
    ["not connected", "connection lost", "end-of-file", "lost contact", "no listener"]

  const SAFE_METHODS: set<string> := {"GET", "HEAD", "OPTIONS"}

  predicate Contains(text: string, part: string) {
    part <= text || (text != "" && Contains(text[1..], part))
  }

  function Digit(n: int): char {
    "0123456789"[n % 10]
  }

  /** ORA- and the code in five digits. */
  function OraText(code: int): string {
    "ORA-" + [Digit(code / 10000), Digit(code / 1000), Digit(code / 100), Digit(code / 10), Digit(code)]
  }

  predicate Mentions(err: DbError, code: int) {
    Contains(err.message, OraText(code))
  }

  predicate IsConnectionError(err: DbError) {
    || err.isInterface
    || (exists code | code in CONNECTION_ERROR_CODES :: Mentions(err, code))
    || (exists i | 0 <= i < |LOST_CONNECTION_PATTERNS| :: Contains(Lower(err.message), LOST_CONNECTION_PATTERNS[i]))
  }

  /** The first mentioned code in the order in which the code set is enumerated. */
  function ExtractOraCode(err: DbError, order: seq<int>): (code: Option<int>)
    ensures code.None? <==> forall c :: c in order ==> !Mentions(err, c)
    ensures code.Some? ==> code.value in order && Mentions(err, code.value)
  {
    if order == [] then None
    else if Mentions(err, order[0]) then Some(order[0])
    else ExtractOraCode(err, order[1..])
  }

  /** inAtomic is None when the state of the connection cannot be read. */
  predicate IsMidCommitError(err: DbError, order: seq<int>, inAtomic: Option<bool>) {
    && !err.isInterface
    && var code := ExtractOraCode(err, order);
       code.Some? && code.value in MID_COMMIT_CODES && inAtomic != Some(true)
  }

  ghost predicate Enumerates(order: seq<int>, codes: set<int>) {
    (forall c :: c in order <==> c in codes) && (forall i, j :: 0 <= i < j < |order| ==> order[i] != order[j])
  }

  ghost predicate MentionsOneOf(err: DbError, codes: set<int>) {
    exists c :: c in codes && Mentions(err, c)
  }

  ghost predicate OrderIrrelevant(err: DbError, inAtomic: Option<bool>) {
    forall o, o' :: Enumerates(o, CONNECTION_ERROR_CODES) && Enumerates(o', CONNECTION_ERROR_CODES) ==>
      IsMidCommitError(err, o, inAtomic) == IsMidCommitError(err, o', inAtomic)
  }

  lemma Enumeration(codes: set<int>) returns (order: seq<int>)
    ensures Enumerates(order, codes)
    decreases codes
  {
    order := [];
    if c :| c in codes {
      var rest := Enumeration(codes - {c});
      order := [c] + rest;
    }
  }

  /** An enumeration that begins with a chosen code. */
  lemma EnumerationFrom(c: int) returns (order: seq<int>)
    requires c in CONNECTION_ERROR_CODES
    ensures Enumerates(order, CONNECTION_ERROR_CODES) && order != [] && order[0] == c
  {
    var rest := Enumeration(CONNECTION_ERROR_CODES - {c});
    order := [c] + rest;
  }

  /** With one kind of code in the message the verdict is the same in every order. */
  lemma OneKindOfCode(err: DbError, order: seq<int>, inAtomic: Option<bool>)
    requires Enumerates(order, CONNECTION_ERROR_CODES)
    requires !MentionsOneOf(err, MID_COMMIT_CODES) || !MentionsOneOf(err, CONNECTION_ERROR_CODES - MID_COMMIT_CODES)
    ensures IsMidCommitError(err, order, inAtomic) <==>
      !err.isInterface && inAtomic != Some(true) && MentionsOneOf(err, MID_COMMIT_CODES)
  {
    hide Mentions, OraText;
    assert MID_COMMIT_CODES <= CONNECTION_ERROR_CODES;
  }

  /** The code set has no order of its own. The verdict on an error depends on how it is enumerated
      exactly when the message mentions a mid-commit code beside another connection code (and the
      verdict is not settled by the exception type or the connection's state). */
  lemma OrderIrrelevantIff(err: DbError, inAtomic: Option<bool>)
    ensures OrderIrrelevant(err, inAtomic) <==>
      (err.isInterface || inAtomic == Some(true) || !MentionsOneOf(err, MID_COMMIT_CODES)
        || !MentionsOneOf(err, CONNECTION_ERROR_CODES - MID_COMMIT_CODES))
  {
    hide Mentions, OraText;
    assert MID_COMMIT_CODES <= CONNECTION_ERROR_CODES;
    if MentionsOneOf(err, MID_COMMIT_CODES) && MentionsOneOf(err, CONNECTION_ERROR_CODES - MID_COMMIT_CODES) {
      var m :| m in MID_COMMIT_CODES && Mentions(err, m);
      var c :| c in CONNECTION_ERROR_CODES - MID_COMMIT_CODES && Mentions(err, c);
      var o := EnumerationFrom(m);
      var o' := EnumerationFrom(c);
      assert ExtractOraCode(err, o) == Some(m) && ExtractOraCode(err, o') == Some(c);
    } else {
      hide IsMidCommitError;
      forall o | Enumerates(o, CONNECTION_ERROR_CODES)
        ensures IsMidCommitError(err, o, inAtomic) <==>
          !err.isInterface && inAtomic != Some(true) && MentionsOneOf(err, MID_COMMIT_CODES)
      {
        OneKindOfCode(err, o, inAtomic);
      }
    }
  }

  // ---------- the world around the middleware ----------

  type Seconds = r: real | r >= 0.0

  datatype Result = Responded | DbRaised(err: DbError) | OtherRaised

  /** One invocation of the view: committed tells whether its transaction reached the database. */
  datatype Handled = Handled(result: Result, committed: bool, inAtomic: Option<bool>, seconds: Seconds)

  /** One pass of the retry loop: its own time before the window check and between the check and the
      reconnect (logging, oversleeping, purging), and how the reconnect went. */
  datatype Pass = Pass(before: Seconds, between: Seconds, connects: bool, seconds: Seconds)

  datatype World = World(handler: nat -> Handled, pass: nat -> Pass, order: seq<int>)

  datatype Config = Config(base: real, maxAttempts: int, timeWindow: real)

  datatype Reason = MidCommit | TimeWindowExceeded | RetryExhausted

  /** BadDelay: sleeping for a negative time raises. */
  datatype Answer = Reply | Reraise | Unavailable(reason: Reason) | BadDelay

  /** One attempt, with times since the loss was noticed. */
  datatype Attempt = Attempt(checkedAt: real, slept: real, reconnectAt: real, call: Option<Handled>, doneAt: real)

  const MAX_DELAY := 5.0

  function Pow2(n: nat): real {
    if n == 0 then 1.0 else 2.0 * Pow2(n - 1)
  }

  function Min(a: real, b: real): real {
    if a <= b then a else b
  }

  function CalculateBackoff(base: real, attempt: nat): real {
    Min(base * Pow2(attempt), MAX_DELAY)
  }

  function Delay(base: real, attempt: nat): real {
    if attempt == 0 then 0.0 else CalculateBackoff(base, attempt - 1)
  }

  predicate LostConnection(h: Handled) {
    h.result.DbRaised? && IsConnectionError(h.result.err)
  }

  /** safe: the request's method only reads. */
  predicate RetrySafe(w: World, safe: bool, h: Handled)
    requires h.result.DbRaised?
  {
    safe || !IsMidCommitError(h.result.err, w.order, h.inAtomic)
  }

  predicate Retryable(w: World, safe: bool, h: Handled) {
    LostConnection(h) && RetrySafe(w, safe, h)
  }

  // ---------- what a run of the middleware is ----------

  function Calls(attempts: seq<Attempt>): (calls: seq<Handled>)
    ensures |calls| <= |attempts|
  {
    if attempts == [] then [] else
      var last := attempts[|attempts| - 1];
      Calls(attempts[..|attempts| - 1]) + if last.call.Some? then [last.call.value] else []
  }

  function Now(attempts: seq<Attempt>): real {
    if attempts == [] then 0.0 else attempts[|attempts| - 1].doneAt
  }

  /** The attempt that follows the given ones. */
  function Following(cfg: Config, w: World, before: seq<Attempt>): Attempt {
    var k := |before|;
    var pass := w.pass(k);
    var checkedAt := Now(before) + pass.before;
    var slept := Delay(cfg.base, k);
    var reconnectAt := checkedAt + slept + pass.between;
    var call := if pass.connects then Some(w.handler(1 + |Calls(before)|)) else None;
    Attempt(checkedAt, slept, reconnectAt, call,
            reconnectAt + pass.seconds + if call.Some? then call.value.seconds else 0.0)
  }

  /** Attempts the loop makes, each allowed by the window check. */
  predicate Made(cfg: Config, w: World, attempts: seq<Attempt>) {
    && (attempts == [] || |attempts| <= cfg.maxAttempts)
    && forall k :: 0 <= k < |attempts| ==>
         && attempts[k] == Following(cfg, w, attempts[..k])
         && attempts[k].checkedAt < cfg.timeWindow && attempts[k].slept >= 0.0
  }

  /** No reply yet and no reason to stop: no reconnect, or a call that may be repeated. */
  predicate GoesOn(w: World, safe: bool, attempts: seq<Attempt>) {
    forall k :: 0 <= k < |attempts| ==> attempts[k].call.None? || Retryable(w, safe, attempts[k].call.value)
  }

  /** How an answer follows from the attempts made. */
  predicate Decided(cfg: Config, w: World, safe: bool, attempts: seq<Attempt>, answer: Answer) {
    if answer.Reply? || answer.Reraise? || answer == Unavailable(MidCommit) then
      attempts != [] &&
      var last := attempts[|attempts| - 1];
      GoesOn(w, safe, attempts[..|attempts| - 1]) && last.call.Some? && Settled(w, safe, last.call.value, answer)
    else
      GoesOn(w, safe, attempts) &&
      var next := Following(cfg, w, attempts);
      if answer == Unavailable(RetryExhausted) then |attempts| >= cfg.maxAttempts
      else if answer == Unavailable(TimeWindowExceeded)
      then |attempts| < cfg.maxAttempts && next.checkedAt >= cfg.timeWindow
      else |attempts| < cfg.maxAttempts && next.checkedAt < cfg.timeWindow && next.slept < 0.0
  }

  /** A call that ends the run, and the answer it ends with. */
  predicate Settled(w: World, safe: bool, h: Handled, answer: Answer) {
    if h.result.Responded? then answer == Reply
    else if !LostConnection(h) then answer == Reraise
    else !RetrySafe(w, safe, h) && answer == Unavailable(MidCommit)
  }

  /** The whole request: a first call, and retries when its connection was lost and a retry is safe. */
  predicate IsRequest(cfg: Config, w: World, safe: bool, attempts: seq<Attempt>, answer: Answer) {
    var first := w.handler(0);
    if Retryable(w, safe, first) then Made(cfg, w, attempts) && Decided(cfg, w, safe, attempts, answer)
    else attempts == [] && Settled(w, safe, first, answer)
  }

  function AllCalls(w: World, attempts: seq<Attempt>): seq<Handled> {
    [w.handler(0)] + Calls(attempts)
  }

  /** The retry loop. */
  method HandleConnectionError(cfg: Config, w: World, safe: bool, first: Handled)
    returns (answer: Answer, attempts: seq<Attempt>)
    requires first == w.handler(0) && LostConnection(first)
    ensures IsRequest(cfg, w, safe, attempts, answer)
  {
    hide IsConnectionError, IsMidCommitError, Delay, IsRequest;
    attempts := [];
    if !RetrySafe(w, safe, first) {
      NeverRetried(cfg, w, safe);
      return Unavailable(MidCommit), attempts;
    }
    var now, calls := 0.0, 1;
    var attempt := 0;
    while attempt < cfg.maxAttempts
      invariant attempt == |attempts| && (attempt == 0 || attempt <= cfg.maxAttempts)
      invariant now == Now(attempts) && calls == 1 + |Calls(attempts)|
      invariant Made(cfg, w, attempts) && GoesOn(w, safe, attempts)
      decreases cfg.maxAttempts - attempt
    {
      hide Made, GoesOn, Now, Calls;
      var pass := w.pass(attempt);
      now := now + pass.before;
      if now >= cfg.timeWindow {
        Refuses(cfg, w, safe, attempts, Unavailable(TimeWindowExceeded));
        return Unavailable(TimeWindowExceeded), attempts;
      }
      var checkedAt := now;
      var backoff := Delay(cfg.base, attempt);
      if backoff < 0.0 {
        Refuses(cfg, w, safe, attempts, BadDelay);
        return BadDelay, attempts;
      }
      var reconnectAt := now + backoff + pass.between;
      now := reconnectAt + pass.seconds;
      ghost var earlier := attempts;
      if !pass.connects {
        attempts := attempts + [Attempt(checkedAt, backoff, reconnectAt, None, now)];
        attempt := attempt + 1;
        Appended(cfg, w, safe, earlier, attempts);
        continue;
      }
      var h := w.handler(calls);
      calls, now := calls + 1, now + h.seconds;
      attempts := attempts + [Attempt(checkedAt, backoff, reconnectAt, Some(h), now)];
      Appended(cfg, w, safe, earlier, attempts);
      if h.result.Responded? {
        Settles(cfg, w, safe, earlier, attempts, Reply);
        return Reply, attempts;
      }
      if !LostConnection(h) {
        Settles(cfg, w, safe, earlier, attempts, Reraise);
        return Reraise, attempts;
      }
      if !RetrySafe(w, safe, h) {
        Settles(cfg, w, safe, earlier, attempts, Unavailable(MidCommit));
        return Unavailable(MidCommit), attempts;
      }
      attempt := attempt + 1;
    }
    answer := Unavailable(RetryExhausted);
    Refuses(cfg, w, safe, attempts, answer);
  }

  lemma NeverRetried(cfg: Config, w: World, safe: bool)
    requires LostConnection(w.handler(0)) && !RetrySafe(w, safe, w.handler(0))
    ensures IsRequest(cfg, w, safe, [], Unavailable(MidCommit))
  {
    hide IsConnectionError, IsMidCommitError;
  }

  /** A call that settles the matter ends the run. */
  lemma Settles(cfg: Config, w: World, safe: bool, earlier: seq<Attempt>, attempts: seq<Attempt>, answer: Answer)
    requires Retryable(w, safe, w.handler(0)) && GoesOn(w, safe, earlier) && Made(cfg, w, attempts)
    requires |attempts| == |earlier| + 1 && attempts[..|earlier|] == earlier
    requires attempts[|earlier|].call.Some? && Settled(w, safe, attempts[|earlier|].call.value, answer)
    requires answer.Reply? || answer.Reraise? || answer == Unavailable(MidCommit)
    ensures IsRequest(cfg, w, safe, attempts, answer)
  {
    hide Retryable, Settled, Made, GoesOn;
  }

  /** So does a refusal to make another attempt. */
  lemma Refuses(cfg: Config, w: World, safe: bool, attempts: seq<Attempt>, answer: Answer)
    requires Retryable(w, safe, w.handler(0)) && GoesOn(w, safe, attempts) && Made(cfg, w, attempts)
    requires !answer.Reply? && !answer.Reraise? && answer != Unavailable(MidCommit)
    requires Decided(cfg, w, safe, attempts, answer)
    ensures IsRequest(cfg, w, safe, attempts, answer)
  {
    hide Retryable, Settled, Made, GoesOn, Decided;
  }

  lemma Appended(cfg: Config, w: World, safe: bool, earlier: seq<Attempt>, attempts: seq<Attempt>)
    requires Made(cfg, w, earlier) && GoesOn(w, safe, earlier) && |earlier| < cfg.maxAttempts
    requires attempts == earlier + [Following(cfg, w, earlier)]
    requires Following(cfg, w, earlier).checkedAt < cfg.timeWindow && Following(cfg, w, earlier).slept >= 0.0
    ensures attempts[..|earlier|] == earlier && Made(cfg, w, attempts)
    ensures var call := attempts[|earlier|].call;
            call.None? || Retryable(w, safe, call.value) ==> GoesOn(w, safe, attempts)
    ensures Now(attempts) == Following(cfg, w, earlier).doneAt
    ensures |Calls(attempts)| == |Calls(earlier)| + if Following(cfg, w, earlier).call.Some? then 1 else 0
  {
    hide Following, Retryable;
    forall k | 0 <= k < |earlier|
      ensures attempts[..k] == earlier[..k]
    {
    }
    assert attempts[..|earlier|] == earlier;
  }

  /** The middleware's entry point; name is the request's method. */
  method Call(cfg: Config, w: World, name: string) returns (answer: Answer, attempts: seq<Attempt>)
    ensures IsRequest(cfg, w, name == "GET" || name == "HEAD" || name == "OPTIONS", attempts, answer)
  {
    hide Made, GoesOn, Decided, IsConnectionError, IsMidCommitError;
    var first := w.handler(0);
    if first.result.Responded? {
      return Reply, [];
    }
    if !LostConnection(first) {
      return Reraise, [];
    }
    answer, attempts := HandleConnectionError(cfg, w, name in SAFE_METHODS, first);
  }

  // ---------- how often the view runs, and how often it commits ----------

  lemma {:induction false} CallsBounded(cfg: Config, w: World, safe: bool, attempts: seq<Attempt>, answer: Answer)
    requires IsRequest(cfg, w, safe, attempts, answer)
    ensures 1 <= |AllCalls(w, attempts)| <= 1 + if cfg.maxAttempts > 0 then cfg.maxAttempts else 0
  {
    hide Decided, Retryable, Settled;
  }

  function Commits(calls: seq<Handled>): nat {
    if calls == [] then 0 else Commits(calls[..|calls| - 1]) + if calls[|calls| - 1].committed then 1 else 0
  }

  /** Every call but the last was one that may be repeated. */
  lemma {:induction false} CallsGoOn(w: World, safe: bool, attempts: seq<Attempt>)
    requires GoesOn(w, safe, attempts)
    ensures forall i :: 0 <= i < |Calls(attempts)| ==> Retryable(w, safe, Calls(attempts)[i])
  {
    hide Retryable;
    if attempts != [] {
      CallsGoOn(w, safe, attempts[..|attempts| - 1]);
    }
  }

  lemma {:induction false} OnlyLastEnds(cfg: Config, w: World, safe: bool, attempts: seq<Attempt>, answer: Answer)
    requires IsRequest(cfg, w, safe, attempts, answer)
    ensures var calls := AllCalls(w, attempts);
            forall i :: 0 <= i < |calls| - 1 ==> Retryable(w, safe, calls[i])
  {
    hide Retryable, Settled, Following, Made;
    if Retryable(w, safe, w.handler(0)) {
      if answer.Reply? || answer.Reraise? || answer == Unavailable(MidCommit) {
        var n := |attempts| - 1;
        CallsGoOn(w, safe, attempts[..n]);
        assert Calls(attempts) == Calls(attempts[..n]) + [attempts[n].call.value];
      } else {
        CallsGoOn(w, safe, attempts);
      }
    }
  }

  lemma {:induction false} NoCommits(calls: seq<Handled>)
    requires forall i :: 0 <= i < |calls| ==> !calls[i].committed
    ensures Commits(calls) == 0
  {
    if calls != [] {
      NoCommits(calls[..|calls| - 1]);
    }
  }

  /** The calls that a view may end in: every invocation is one of these. */
  ghost predicate Draws(w: World, possible: iset<Handled>) {
    forall n: nat :: w.handler(n) in possible
  }

  /** A run of a write request whose view ends in the given ways. */
  ghost predicate WriteRun(possible: iset<Handled>, order: seq<int>,
                           cfg: Config, w: World, attempts: seq<Attempt>, answer: Answer)
  {
    w.order == order && Draws(w, possible) && IsRequest(cfg, w, false, attempts, answer)
  }

  ghost predicate CommitsAtMostOnce(possible: iset<Handled>, order: seq<int>) {
    forall cfg, w: World, attempts, answer :: WriteRun(possible, order, cfg, w, attempts, answer) ==>
      Commits(AllCalls(w, attempts)) <= 1
  }

  /** Every call that commits and then loses its connection is recognised. */
  ghost predicate CommittedLossesSeen(possible: iset<Handled>, order: seq<int>) {
    forall h :: h in possible && h.committed && LostConnection(h) ==>
      IsMidCommitError(h.result.err, order, h.inAtomic)
  }

  lemma AtMostOneCommit(cfg: Config, w: World, possible: iset<Handled>, attempts: seq<Attempt>, answer: Answer)
    requires Draws(w, possible) && CommittedLossesSeen(possible, w.order)
    requires IsRequest(cfg, w, false, attempts, answer)
    ensures Commits(AllCalls(w, attempts)) <= 1
  {
    hide IsRequest, LostConnection, IsMidCommitError;
    OnlyLastEnds(cfg, w, false, attempts, answer);
    CallsDrawn(w, possible, attempts, cfg, answer);
    var calls := AllCalls(w, attempts);
    var n := |calls| - 1;
    forall i | 0 <= i < n
      ensures !calls[i].committed
    {
      assert Retryable(w, false, calls[i]);
    }
    NoCommits(calls[..n]);
  }

  lemma {:induction false} FollowingDrawn(cfg: Config, w: World, possible: iset<Handled>, attempts: seq<Attempt>)
    requires Draws(w, possible)
    requires forall k :: 0 <= k < |attempts| ==> attempts[k] == Following(cfg, w, attempts[..k])
    ensures forall h :: h in Calls(attempts) ==> h in possible
  {
    hide Delay;
    if attempts != [] {
      var n := |attempts| - 1;
      forall k | 0 <= k < n
        ensures attempts[..n][..k] == attempts[..k]
      {
      }
      FollowingDrawn(cfg, w, possible, attempts[..n]);
    }
  }

  lemma CallsDrawn(w: World, possible: iset<Handled>, attempts: seq<Attempt>, cfg: Config, answer: Answer)
    requires Draws(w, possible) && IsRequest(cfg, w, false, attempts, answer)
    ensures forall h :: h in AllCalls(w, attempts) ==> h in possible
  {
    hide Decided, Settled, Following, Retryable;
    FollowingDrawn(cfg, w, possible, attempts);
  }

  /** A view that always commits and then loses its connection in an unrecognised way commits twice. */
  lemma CommitsTwice(h: Handled, order: seq<int>) returns (cfg: Config, w: World, attempts: seq<Attempt>)
    requires h.committed && LostConnection(h) && !IsMidCommitError(h.result.err, order, h.inAtomic)
    ensures w.order == order && Draws(w, iset{h}) && IsRequest(cfg, w, false, attempts, Unavailable(RetryExhausted))
    ensures Commits(AllCalls(w, attempts)) == 2
  {
    hide LostConnection, IsMidCommitError;
    cfg := Config(0.5, 1, 120.0);
    w := World(n => h, n => Pass(0.0, 0.0, true, 0.0), order);
    var only := Following(cfg, w, []);
    attempts := [only];
    assert attempts[..0] == [] && Calls([]) == [];
    assert Calls(attempts) == [h];
    var calls := AllCalls(w, attempts);
    assert calls == [h, h] && calls[..1] == [h] && [h][..0] == [];
    assert Retryable(w, false, h);
    assert Commits([h]) == 1;
  }

  /** Whatever a write request's view may do, it commits at most once over all retries exactly when
      every call that commits and loses its connection is classified as mid-commit. */
  lemma CommitsAtMostOnceIff(possible: iset<Handled>, order: seq<int>)
    ensures CommitsAtMostOnce(possible, order) <==> CommittedLossesSeen(possible, order)
  {
    hide IsRequest, IsConnectionError, IsMidCommitError, Commits, AllCalls;
    if CommittedLossesSeen(possible, order) {
      forall cfg, w: World, attempts, answer | WriteRun(possible, order, cfg, w, attempts, answer)
        ensures Commits(AllCalls(w, attempts)) <= 1
      {
        AtMostOneCommit(cfg, w, possible, attempts, answer);
      }
    } else {
      var h :| h in possible && h.committed && LostConnection(h) && !IsMidCommitError(h.result.err, order, h.inAtomic);
      var cfg, w, attempts := CommitsTwice(h, order);
      assert WriteRun(possible, order, cfg, w, attempts, Unavailable(RetryExhausted));
    }
  }

  /** An InterfaceError after a commit is never recognised. */
  lemma InterfaceErrorRepeatsCommit(h: Handled, order: seq<int>)
    requires h.committed && h.result.DbRaised? && h.result.err.isInterface
    ensures !CommitsAtMostOnce(iset{h}, order)
  {
    CommitsAtMostOnceIff(iset{h}, order);
    assert h in iset{h};
  }

  // ---------- how long it takes ----------

  function TotalSlept(attempts: seq<Attempt>): real {
    if attempts == [] then 0.0 else TotalSlept(attempts[..|attempts| - 1]) + attempts[|attempts| - 1].slept
  }

  lemma BackoffGrows(base: real, n: nat)
    requires base >= 0.0
    ensures 0.0 <= CalculateBackoff(base, n) <= CalculateBackoff(base, n + 1) <= MAX_DELAY
    ensures Pow2(n) >= 1.0
  {
    if n > 0 {
      BackoffGrows(base, n - 1);
    }
    var p := Pow2(n);
    assert base * (2.0 * p) == 2.0 * (base * p);
    assert base * p >= 0.0;
  }

  /** Delays never decrease from one attempt to the next. */
  lemma {:induction false} DelaysNeverDecrease(cfg: Config, w: World, attempts: seq<Attempt>, j: nat, k: nat)
    requires Made(cfg, w, attempts) && cfg.base >= 0.0 && j <= k < |attempts|
    ensures attempts[j].slept <= attempts[k].slept <= MAX_DELAY
    decreases k
  {
    hide CalculateBackoff, Now, Calls;
    if k > 0 {
      BackoffGrows(cfg.base, k - 1);
      if k > 1 { BackoffGrows(cfg.base, k - 2); }
      if j < k {
        DelaysNeverDecrease(cfg, w, attempts, j, k - 1);
      }
    }
  }

  lemma PrefixMade(cfg: Config, w: World, attempts: seq<Attempt>, n: nat)
    requires Made(cfg, w, attempts) && n < |attempts|
    ensures Made(cfg, w, attempts[..n]) && attempts[n].slept == Delay(cfg.base, n)
  {
    hide Delay, Now, Calls;
    assert forall k :: 0 <= k < n ==> attempts[..n][..k] == attempts[..k];
  }

  /** The sleep over n >= 1 attempts is within both the doubling and the flat bound. */
  lemma {:induction false} TotalSleepBounded(cfg: Config, w: World, attempts: seq<Attempt>)
    requires Made(cfg, w, attempts) && cfg.base >= 0.0 && attempts != []
    ensures TotalSlept(attempts) <= cfg.base * Pow2(|attempts| - 1) - cfg.base
    ensures TotalSlept(attempts) <= MAX_DELAY * (|attempts| - 1) as real
  {
    hide Made;
    var n := |attempts| - 1;
    PrefixMade(cfg, w, attempts, n);
    var earlier := attempts[..n];
    if n == 0 {
      assert TotalSlept(earlier) == 0.0 && Pow2(0) == 1.0;
    } else {
      hide Delay, Pow2;
      TotalSleepBounded(cfg, w, earlier);
      SleepStep(cfg.base, n, TotalSlept(earlier));
    }
  }

  lemma PowDoubles(base: real, n: nat)
    ensures base * Pow2(n + 1) == base * Pow2(n) + base * Pow2(n)
  {
    var p := Pow2(n);
    assert Pow2(n + 1) == 2.0 * p && base * (2.0 * p) == base * p + base * p;
  }

  lemma SleepStep(base: real, n: nat, slept: real)
    requires n > 0 && slept <= base * Pow2(n - 1) - base && slept <= MAX_DELAY * (n - 1) as real
    ensures slept + Delay(base, n) <= base * Pow2(n) - base
    ensures slept + Delay(base, n) <= MAX_DELAY * n as real
  {
    hide Pow2;
    PowDoubles(base, n - 1);
    var x := base * Pow2(n - 1);
    assert base * Pow2(n) == x + x && Delay(base, n) <= x;
    assert n as real == (n - 1) as real + 1.0;
  }

  /** No reconnect begins later than the window, the longest delay and the loop's own time after
      the check. */
  lemma ReconnectDeadline(cfg: Config, w: World, attempts: seq<Attempt>, k: nat)
    requires Made(cfg, w, attempts) && k < |attempts|
    ensures attempts[k].checkedAt <= attempts[k].reconnectAt < cfg.timeWindow + MAX_DELAY + w.pass(k).between
  {
    hide Now, Calls, Pow2, Following;
    PrefixMade(cfg, w, attempts, k);
    assert attempts[k] == Following(cfg, w, attempts[..k]);
    FollowingTimes(cfg, w, attempts[..k]);
  }

  lemma FollowingTimes(cfg: Config, w: World, before: seq<Attempt>)
    ensures var a := Following(cfg, w, before);
            a.slept <= MAX_DELAY && a.reconnectAt == a.checkedAt + a.slept + w.pass(|before|).between
  {
    hide Now, Calls, Pow2;
  }
}
