/** The shared cache of cancelled executions beside the database status. */
module CancellationCache {
  import opened Workflow
  import opened Routing

  const CANCELLATION_CACHE_TTL := 86400

  datatype Entry = Entry(value: bool, expires: int)

  type Database = map<int, Status>

  /** The query on the row: a missing row is not cancelled. */
  predicate CheckDb(db: Database, e: int) {
    e in db && db[e] == Cancelled
  }

  /** What the cache returns: nothing for an absent or expired key. */
  function Cached(cache: map<int, Entry>, clock: int, e: int): Option<bool> {
    if e in cache && clock < cache[e].expires then Some(cache[e].value) else None
  }

  /** Every entry says cancelled, and so does the database. */
  ghost predicate Truthful(cache: map<int, Entry>, db: Database) {
    forall e :: e in cache ==> cache[e].value && CheckDb(db, e)
  }

  // ---------- the two calls, undisturbed ----------

  /** Which of the calls on the cache and the database fail. */
  datatype Faults = Faults(get: bool, set_: bool, firstQuery: bool, lastQuery: bool)

  class Worker {
    var cache: map<int, Entry>
    var clock: int
    const enabled: bool

    constructor (enabled: bool)
      ensures cache == map[] && this.enabled == enabled
    {
      cache := map[];
      this.enabled := enabled;
    }

    /** None: the fallback query raised. Any answer is the database's, whatever the cache does; a cancelled execution
        that the cache does not know is put there for a day, and nothing else ever is. The row is queried again when
        the cache is off or an access before has failed. */
    method IsCancelled(db: Database, e: int, faults: Faults) returns (answer: Option<bool>)
      requires Truthful(cache, db)
      modifies this`cache
      ensures Truthful(cache, db)
      ensures answer.Some? ==> answer.value == CheckDb(db, e)
      ensures var known := enabled && !faults.get && e in old(cache) && clock < old(cache)[e].expires;
              var asked := enabled && !faults.get && !known && !faults.firstQuery;
              var cancelled := e in db && db[e] == Cancelled;
              && cache == (if asked && cancelled && !faults.set_ then old(cache)[e := Entry(true, clock + 86400)]
                           else old(cache))
              && (answer.None? <==> faults.lastQuery && !known && (asked ==> cancelled && faults.set_))
    {
      if enabled && !faults.get {
        var cached := Cached(cache, clock, e);
        if cached.Some? {
          return cached;
        }
        if !faults.firstQuery {
          var status := CheckDb(db, e);
          if !status {
            return Some(status);
          }
          if !faults.set_ {
            cache := cache[e := Entry(status, clock + CANCELLATION_CACHE_TTL)];
            return Some(status);
          }
        }
      }
      answer := if faults.lastQuery then None else Some(CheckDb(db, e));
    }

    /** Called once the database says cancelled. */
    method MarkCancelled(ghost db: Database, e: int, faults: Faults)
      requires Truthful(cache, db) && CheckDb(db, e)
      modifies this`cache
      ensures Truthful(cache, db)
      ensures cache == if enabled && !faults.set_ then old(cache)[e := Entry(true, clock + 86400)]
        else old(cache)
    {
      if enabled && !faults.set_ {
        cache := cache[e := Entry(true, clock + CANCELLATION_CACHE_TTL)];
      }
    }
  }

  // ---------- many workers, one access at a time ----------

  /** What a worker does next; each step is one access to the cache or the database. */
  datatype Pc =
    | Asking(execution: int)
    | Missed(execution: int)
    | Storing(execution: int, status: bool)
    | Querying(execution: int)
    | Answered(execution: int, answer: bool)
    | Cancelling(execution: int)
    | Marking(execution: int)
    | Ended

  datatype System = System(db: Database, cache: map<int, Entry>, clock: int, workers: map<int, Pc>)

  /** fails: the access a worker makes raises. Writes are the other changes of rows; None deletes. */
  datatype Action =
    | Move(worker: int, fails: bool)
    | Write(execution: int, status: Option<Status>)
    | Evict(execution: int)
    | Tick(seconds: nat)

  function Row(db: Database, e: int): Option<Status> {
    if e in db then Some(db[e]) else None
  }

  /** Which changes of a row the rest of the system makes. */
  type Changes = iset<(Option<Status>, Option<Status>)>

  function Worked(pc: Pc, s: System, fails: bool): (Pc, System) {
    match pc
    case Asking(e) =>
      if fails then (Querying(e), s) else
      var cached := Cached(s.cache, s.clock, e);
      (if cached.Some? then Answered(e, cached.value) else Missed(e), s)
    case Missed(e) =>
      if fails then (Querying(e), s)
      else if CheckDb(s.db, e) then (Storing(e, true), s)
      else (Answered(e, false), s)
    case Storing(e, status) =>
      if fails then (Querying(e), s)
      else (Answered(e, status), s.(cache := s.cache[e := Entry(status, s.clock + CANCELLATION_CACHE_TTL)]))
    case Querying(e) =>
      if fails then (Ended, s) else (Answered(e, CheckDb(s.db, e)), s)
    case Cancelling(e) =>
      if !fails && Row(s.db, e) in {Some(Submitted), Some(Running)}
      then (Marking(e), s.(db := s.db[e := Cancelled])) else (Ended, s)
    case Marking(e) =>
      (Ended, if fails then s else s.(cache := s.cache[e := Entry(true, s.clock + CANCELLATION_CACHE_TTL)]))
    case Answered(_, _) => (pc, s)
    case Ended => (pc, s)
  }

  ghost function Next(s: System, changes: Changes, a: Action): System {
    match a
    case Move(w, fails) =>
      if w !in s.workers then s else
      var (pc, s') := Worked(s.workers[w], s, fails);
      s'.(workers := s.workers[w := pc])
    case Write(e, status) =>
      if (Row(s.db, e), status) !in changes then s
      else if status.Some? then s.(db := s.db[e := status.value])
      else s.(db := s.db - {e})
    case Evict(e) => s.(cache := s.cache - {e})
    case Tick(seconds) => s.(clock := s.clock + seconds)
  }

  ghost function After(s: System, changes: Changes, actions: seq<Action>): System {
    if actions == [] then s else
      var n := |actions| - 1;
      Next(After(s, changes, actions[..n]), changes, actions[n])
  }

  predicate Begins(pc: Pc) {
    pc.Asking? || pc.Querying? || pc.Cancelling?
  }

  ghost predicate Initial(s: System) {
    s.cache == map[] && forall w :: w in s.workers ==> Begins(s.workers[w])
  }

  /** Nothing makes a cancelled execution anything else, and no row of one is deleted. */
  ghost predicate Absorbing(changes: Changes) {
    forall c :: c in changes && c.0 == Some(Cancelled) ==> c.1 == Some(Cancelled)
  }

  /** A worker about to put something in the cache has seen the execution cancelled. */
  predicate Backed(db: Database, pc: Pc) {
    && (pc.Storing? ==> pc.status && CheckDb(db, pc.execution))
    && (pc.Marking? ==> CheckDb(db, pc.execution))
  }

  ghost predicate Inv(s: System) {
    Truthful(s.cache, s.db) && forall w :: w in s.workers ==> Backed(s.db, s.workers[w])
  }

  /** The database keeps what is cancelled. */
  lemma CancelledStays(s: System, changes: Changes, a: Action, e: int)
    requires Absorbing(changes) && CheckDb(s.db, e)
    ensures CheckDb(Next(s, changes, a).db, e)
  {
    if a.Write? && a.execution == e {
      assert (Row(s.db, e), a.status) in changes ==> a.status == Some(Cancelled);
    }
  }

  lemma WorkKeepsInv(pc: Pc, s: System, fails: bool)
    requires Truthful(s.cache, s.db) && Backed(s.db, pc)
    ensures var (pc', s') := Worked(pc, s, fails);
            Truthful(s'.cache, s'.db) && Backed(s'.db, pc')
  {
  }

  lemma NextKeepsInv(s: System, changes: Changes, a: Action)
    requires Inv(s) && Absorbing(changes)
    ensures Inv(Next(s, changes, a))
  {
    var s' := Next(s, changes, a);
    if a.Move? && a.worker in s.workers {
      WorkKeepsInv(s.workers[a.worker], s, a.fails);
    }
    forall e | CheckDb(s.db, e)
      ensures CheckDb(s'.db, e)
    {
      CancelledStays(s, changes, a, e);
    }
    hide CheckDb, Cached;
  }

  lemma {:induction false} AfterKeepsInv(s: System, changes: Changes, actions: seq<Action>)
    requires Initial(s) && Absorbing(changes)
    ensures Inv(After(s, changes, actions))
  {
    if actions != [] {
      hide Next, Inv;
      var n := |actions| - 1;
      AfterKeepsInv(s, changes, actions[..n]);
      NextKeepsInv(After(s, changes, actions[..n]), changes, actions[n]);
    }
  }

  /** The answer a worker gives in step a, if it gives one, is the database's at that moment. */
  ghost predicate AnswersRight(s: System, changes: Changes, a: Action) {
    a.Move? && a.worker in s.workers && !s.workers[a.worker].Answered? ==>
      var s' := Next(s, changes, a);
      var pc := s'.workers[a.worker];
      pc.Answered? ==> pc.answer == CheckDb(s'.db, pc.execution)
  }

  ghost predicate AlwaysRight(changes: Changes) {
    forall s, actions, a :: Initial(s) ==> AnswersRight(After(s, changes, actions), changes, a)
  }

  lemma InvAnswersRight(s: System, changes: Changes, a: Action)
    requires Inv(s)
    ensures AnswersRight(s, changes, a)
  {
  }

  /** A cancelled execution, checked (which caches True), then given another status, then checked again. */
  lemma StaleAnswer(to: Option<Status>, changes: Changes) returns (s: System, actions: seq<Action>, a: Action)
    requires (Some(Cancelled), to) in changes && to != Some(Cancelled)
    ensures Initial(s) && !AnswersRight(After(s, changes, actions), changes, a)
  {
    s := System(map[1 := Cancelled], map[], 0, map[1 := Asking(1), 2 := Asking(1)]);
    var ask := Move(1, false);
    actions := [ask, ask, ask, Write(1, to)];
    a := Move(2, false);
    assert actions[..3][..2] == actions[..2] && actions[..2][..1] == actions[..1] && actions[..1] == [ask];
    assert [ask][..0] == [] && After(s, changes, [ask][..0]) == s;
    var s1 := After(s, changes, actions[..1]);
    assert s1 == Next(s, changes, ask) && s1.workers[1] == Missed(1);
    var s2 := After(s, changes, actions[..2]);
    assert s2 == Next(s1, changes, ask) && s2.workers[1] == Storing(1, true);
    var cached := After(s, changes, actions[..3]);
    assert cached == Next(s2, changes, ask) && Cached(cached.cache, 0, 1) == Some(true);
    var written := After(s, changes, actions);
    assert written == Next(cached, changes, Write(1, to)) && written.cache == cached.cache;
    assert !CheckDb(written.db, 1);
  }

  /** In every reachable state, through evictions, expiries, failed cache writes and exceptions, every
      answer equals the database's, exactly when the rest of the system never takes an execution out of
      CANCELLED. */
  lemma AlwaysRightIff(changes: Changes)
    ensures AlwaysRight(changes) <==> Absorbing(changes)
  {
    if Absorbing(changes) {
      hide Next, Inv;
      forall s, actions, a | Initial(s)
        ensures AnswersRight(After(s, changes, actions), changes, a)
      {
        AfterKeepsInv(s, changes, actions);
        InvAnswersRight(After(s, changes, actions), changes, a);
      }
    } else {
      var c :| c in changes && c.0 == Some(Cancelled) && c.1 != Some(Cancelled);
      assert (Some(Cancelled), c.1) in changes;
      hide Next, AnswersRight;
      var s, actions, a := StaleAnswer(c.1, changes);
    }
  }

  /** False is never cached, whatever else happens to the rows. */
  ghost predicate OnlyTrue(s: System) {
    && (forall e :: e in s.cache ==> s.cache[e].value)
    && (forall w :: w in s.workers && s.workers[w].Storing? ==> s.workers[w].status)
  }

  lemma {:induction false} FalseNeverCached(s: System, changes: Changes, actions: seq<Action>)
    requires Initial(s)
    ensures OnlyTrue(After(s, changes, actions))
  {
    if actions != [] {
      var n := |actions| - 1;
      FalseNeverCached(s, changes, actions[..n]);
      NextKeepsOnlyTrue(After(s, changes, actions[..n]), changes, actions[n]);
    }
  }

  lemma NextKeepsOnlyTrue(s: System, changes: Changes, a: Action)
    requires OnlyTrue(s)
    ensures OnlyTrue(Next(s, changes, a))
  {
    hide CheckDb, Cached;
  }

  lemma {:induction false} CancelledForEver(s: System, changes: Changes, actions: seq<Action>, k: nat, e: int)
    requires Absorbing(changes) && k <= |actions| && CheckDb(After(s, changes, actions[..k]).db, e)
    ensures CheckDb(After(s, changes, actions).db, e)
    decreases |actions|
  {
    hide Next, CheckDb;
    if k < |actions| {
      var n := |actions| - 1;
      assert actions[..n][..k] == actions[..k];
      CancelledForEver(s, changes, actions[..n], k, e);
      CancelledStays(After(s, changes, actions[..n]), changes, actions[n], e);
    } else {
      assert actions[..k] == actions;
    }
  }

  /** Once the database says cancelled, every check answered later says so too, even if the mark was
      never written to the cache. */
  lemma NoWorkerMissesCancel(s: System, changes: Changes, actions: seq<Action>, k: nat, a: Action)
    requires Initial(s) && Absorbing(changes) && k <= |actions|
    requires var t := After(s, changes, actions);
             a.Move? && a.worker in t.workers && !t.workers[a.worker].Answered?
    ensures var t' := Next(After(s, changes, actions), changes, a);
            var pc := t'.workers[a.worker];
            pc.Answered? && CheckDb(After(s, changes, actions[..k]).db, pc.execution) ==> pc.answer
  {
    var t := After(s, changes, actions);
    var pc := Next(t, changes, a).workers[a.worker];
    AfterKeepsInv(s, changes, actions);
    InvAnswersRight(t, changes, a);
    if pc.Answered? && CheckDb(After(s, changes, actions[..k]).db, pc.execution) {
      hide Next, CheckDb, Inv;
      CancelledForEver(s, changes, actions, k, pc.execution);
      CancelledStays(t, changes, a, pc.execution);
    }
  }

  // ---------- what the mark is worth ----------

  /** A cancellation changes a row that is SUBMITTED or RUNNING, and only then marks the cache. */
  lemma CancelsThenMarks(s: System, changes: Changes, w: int, e: int, fails: bool)
    requires w in s.workers && s.workers[w] == Cancelling(e)
    ensures var s' := Next(s, changes, Move(w, fails));
            && s'.cache == s.cache && w in s'.workers
            && if !fails && e in s.db && (s.db[e] == Submitted || s.db[e] == Running)
               then s'.db == s.db[e := Cancelled] && s'.workers[w] == Marking(e)
               else s'.db == s.db && s'.workers[w] == Ended
  {
  }

  function Ticked(actions: seq<Action>): nat {
    if actions == [] then 0 else
      var last := actions[|actions| - 1];
      Ticked(actions[..|actions| - 1]) + if last.Tick? then last.seconds else 0
  }

  /** The cache answers for the execution until then at least. */
  ghost predicate Serves(s: System, e: int, until: int) {
    OnlyTrue(s) && e in s.cache && s.cache[e].expires >= until
  }

  lemma NextServes(s: System, changes: Changes, a: Action, e: int, until: int)
    requires Serves(s, e, until) && a != Evict(e) && until <= s.clock + 86400
    ensures Serves(Next(s, changes, a), e, until)
    ensures Next(s, changes, a).clock == s.clock + if a.Tick? then a.seconds else 0
  {
    hide CheckDb, Cached;
  }

  lemma {:induction false} ServesOn(s: System, changes: Changes, actions: seq<Action>, e: int, until: int)
    requires Serves(s, e, until) && Evict(e) !in actions && until <= s.clock + 86400
    ensures Serves(After(s, changes, actions), e, until)
    ensures After(s, changes, actions).clock == s.clock + Ticked(actions)
  {
    if actions != [] {
      hide Next, Serves;
      var n := |actions| - 1;
      ServesOn(s, changes, actions[..n], e, until);
      NextServes(After(s, changes, actions[..n]), changes, actions[n], e, until);
    }
  }

  /** For a day after a mark that succeeds, unless the entry is evicted, whoever asks is told at once that the
      execution is cancelled, whatever happens in between and without a look at the database. */
  lemma MarkServesForADay(s: System, changes: Changes, v: int, e: int, actions: seq<Action>, w: int)
    requires OnlyTrue(s) && v in s.workers && s.workers[v] == Marking(e)
    requires Evict(e) !in actions && Ticked(actions) < 86400
    requires var later := After(Next(s, changes, Move(v, false)), changes, actions);
             w in later.workers && later.workers[w] == Asking(e)
    ensures var later := After(Next(s, changes, Move(v, false)), changes, actions);
            Next(later, changes, Move(w, false)).workers[w] == Answered(e, true)
  {
    hide After;
    var s1 := Next(s, changes, Move(v, false));
    ServesOn(s1, changes, actions, e, s.clock + 86400);
  }
}
