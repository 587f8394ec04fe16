/** What the retry middleware recognises in an error's text, and what it answers, said without its own tests. */
module DbAnswers {
  import opened Text
  import opened Workflow
  import opened DbRetry

  /** The text holds the part. */
  ghost predicate Says(text: string, part: string) {
    exists i :: SaysAt(text, part, i)
  }

  predicate SaysAt(text: string, part: string, i: int) {
    0 <= i <= |text| - |part| && text[i..i + |part|] == part
  }

  lemma SaysFirst(text: string, part: string)
    ensures SaysAt(text, part, 0) <==> part <= text
  {
  }

  lemma {:induction false} ContainsIff(text: string, part: string)
    ensures Contains(text, part) <==> Says(text, part)
  {
    if part <= text {
      assert SaysAt(text, part, 0);
    } else if text != "" {
      ContainsIff(text[1..], part);
      if i :| SaysAt(text[1..], part, i) {
        assert text[1..][i..i + |part|] == text[i + 1..i + 1 + |part|];
        assert SaysAt(text, part, i + 1);
      }
      if i :| SaysAt(text, part, i) {
        SaysFirst(text, part);
        assert text[1..][i - 1..i - 1 + |part|] == text[i..i + |part|];
        assert SaysAt(text[1..], part, i - 1);
      }
    }
  }

  /** The texts of the codes that may stand for a failed commit, and of the other codes of a lost connection. */
  const MID_COMMIT_TEXTS: set<string> := {"ORA-03113", "ORA-03114"}
  const OTHER_TEXTS: set<string> :=
    {"ORA-01033", "ORA-12541", "ORA-12543", "ORA-03135", "ORA-12571", "ORA-00028", "ORA-01012", "ORA-12170",
     "ORA-12514"}

  ghost predicate SaysOneOf(text: string, parts: set<string>) {
    exists part :: part in parts && Says(text, part)
  }

  lemma FourDigitTexts()
    ensures OraText(3113) == "ORA-03113" && OraText(3114) == "ORA-03114" && OraText(1033) == "ORA-01033"
    ensures OraText(3135) == "ORA-03135" && OraText(28) == "ORA-00028" && OraText(1012) == "ORA-01012"
  {
  }

  lemma FiveDigitTexts()
    ensures OraText(12541) == "ORA-12541" && OraText(12543) == "ORA-12543" && OraText(12571) == "ORA-12571"
    ensures OraText(12170) == "ORA-12170" && OraText(12514) == "ORA-12514"
  {
  }

  /** A code is found in a message exactly when its five-digit text stands in it. */
  lemma MentionsIff(err: DbError)
    ensures Mentions(err, 3113) <==> Says(err.message, "ORA-03113")
    ensures Mentions(err, 3114) <==> Says(err.message, "ORA-03114")
    ensures Mentions(err, 1033) <==> Says(err.message, "ORA-01033")
    ensures Mentions(err, 12541) <==> Says(err.message, "ORA-12541")
    ensures Mentions(err, 12543) <==> Says(err.message, "ORA-12543")
    ensures Mentions(err, 3135) <==> Says(err.message, "ORA-03135")
    ensures Mentions(err, 12571) <==> Says(err.message, "ORA-12571")
    ensures Mentions(err, 28) <==> Says(err.message, "ORA-00028")
    ensures Mentions(err, 1012) <==> Says(err.message, "ORA-01012")
    ensures Mentions(err, 12170) <==> Says(err.message, "ORA-12170")
    ensures Mentions(err, 12514) <==> Says(err.message, "ORA-12514")
  {
    hide Contains, Says, OraText;
    FourDigitTexts();
    FiveDigitTexts();
    forall part
      ensures Contains(err.message, part) <==> Says(err.message, part)
    {
      ContainsIff(err.message, part);
    }
  }

  lemma CodesIff(err: DbError)
    ensures MentionsOneOf(err, MID_COMMIT_CODES) <==> SaysOneOf(err.message, MID_COMMIT_TEXTS)
    ensures MentionsOneOf(err, CONNECTION_ERROR_CODES - MID_COMMIT_CODES) <==> SaysOneOf(err.message, OTHER_TEXTS)
    ensures MentionsOneOf(err, CONNECTION_ERROR_CODES) <==>
      SaysOneOf(err.message, MID_COMMIT_TEXTS) || SaysOneOf(err.message, OTHER_TEXTS)
  {
    hide Mentions, Says;
    MentionsIff(err);
  }

  /** A lost connection is an InterfaceError, or an error whose message says one of the eleven codes or, in any case of
      letters, one of five phrases. */
  lemma ConnectionErrorIff(err: DbError)
    ensures IsConnectionError(err) <==>
      || err.isInterface || SaysOneOf(err.message, MID_COMMIT_TEXTS) || SaysOneOf(err.message, OTHER_TEXTS)
      || Says(Lower(err.message), "not connected") || Says(Lower(err.message), "connection lost")
      || Says(Lower(err.message), "end-of-file") || Says(Lower(err.message), "lost contact")
      || Says(Lower(err.message), "no listener")
  {
    hide Mentions, Says, SaysOneOf, Contains, Lower, CONNECTION_ERROR_CODES;
    CodesIff(err);
    var lower := Lower(err.message);
    forall part
      ensures Contains(lower, part) <==> Says(lower, part)
    {
      ContainsIff(lower, part);
    }
    assert LOST_CONNECTION_PATTERNS[0] == "not connected" && LOST_CONNECTION_PATTERNS[1] == "connection lost"
      && LOST_CONNECTION_PATTERNS[2] == "end-of-file" && LOST_CONNECTION_PATTERNS[3] == "lost contact"
      && LOST_CONNECTION_PATTERNS[4] == "no listener";
  }

  /** Whether a commit may have failed, when the message does not say codes of both kinds. */
  lemma MidCommitIff(err: DbError, order: seq<int>, inAtomic: Option<bool>)
    requires Enumerates(order, CONNECTION_ERROR_CODES)
    requires !SaysOneOf(err.message, MID_COMMIT_TEXTS) || !SaysOneOf(err.message, OTHER_TEXTS)
    ensures IsMidCommitError(err, order, inAtomic) <==>
      !err.isInterface && SaysOneOf(err.message, MID_COMMIT_TEXTS) && inAtomic != Some(true)
  {
    hide SaysOneOf, IsMidCommitError, Enumerates;
    CodesIff(err);
    OneKindOfCode(err, order, inAtomic);
  }

  /** A first call that raises a database error: a write whose error says ORA-03113 or ORA-03114, and no other code,
      outside an atomic block, is never called again and answered as uncertain; nothing else is answered so at once. */
  lemma FirstErrorAnswered(cfg: Config, w: World, safe: bool, attempts: seq<Attempt>, answer: Answer)
    requires IsRequest(cfg, w, safe, attempts, answer) && Enumerates(w.order, CONNECTION_ERROR_CODES)
    requires w.handler(0).result.DbRaised?
    requires var text := w.handler(0).result.err.message;
             !SaysOneOf(text, MID_COMMIT_TEXTS) || !SaysOneOf(text, OTHER_TEXTS)
    ensures attempts == [] && answer == Unavailable(MidCommit) <==>
      var err := w.handler(0).result.err;
      !safe && !err.isInterface && SaysOneOf(err.message, MID_COMMIT_TEXTS) && w.handler(0).inAtomic != Some(true)
  {
    hide SaysOneOf, IsConnectionError, IsMidCommitError, Enumerates, Made, GoesOn, Following;
    var first := w.handler(0);
    ConnectionErrorIff(first.result.err);
    MidCommitIff(first.result.err, w.order, first.inAtomic);
  }

  // ---------- the attempts ----------

  /** The calls are the view's invocations, one after another. */
  lemma {:induction false} CallsInTurn(cfg: Config, w: World, attempts: seq<Attempt>)
    requires Made(cfg, w, attempts)
    ensures forall i :: 0 <= i < |AllCalls(w, attempts)| ==> AllCalls(w, attempts)[i] == w.handler(i)
  {
    hide Delay, Now;
    if attempts != [] {
      var n := |attempts| - 1;
      PrefixMade(cfg, w, attempts, n);
      CallsInTurn(cfg, w, attempts[..n]);
      assert attempts[n] == Following(cfg, w, attempts[..n]);
    }
  }

  /** When attempt k happens: after the one before it, its own delays in between, and within the window. */
  lemma AttemptTimes(cfg: Config, w: World, attempts: seq<Attempt>, k: nat)
    requires Made(cfg, w, attempts) && k < |attempts|
    ensures var a, pass := attempts[k], w.pass(k);
            && a.checkedAt == pass.before + (if k == 0 then 0.0 else attempts[k - 1].doneAt)
            && a.checkedAt < cfg.timeWindow && a.reconnectAt == a.checkedAt + a.slept + pass.between
            && (a.call.Some? <==> pass.connects)
            && a.doneAt == a.reconnectAt + pass.seconds + if a.call.Some? then a.call.value.seconds else 0.0
  {
    hide Delay, Calls;
    assert attempts[k] == Following(cfg, w, attempts[..k]);
  }

  /** The first attempt does not sleep, the second sleeps the base, every other twice the one before; none more than
      five seconds. */
  lemma Sleeps(cfg: Config, w: World, attempts: seq<Attempt>, k: nat)
    requires Made(cfg, w, attempts) && k < |attempts|
    ensures attempts[k].slept ==
            if k == 0 then 0.0 else Min(if k == 1 then cfg.base else 2.0 * attempts[k - 1].slept, 5.0)
  {
    hide Made, Pow2;
    PrefixMade(cfg, w, attempts, k);
    if k == 1 {
      assert Pow2(0) == 1.0 by { PowZero(); }
    } else if k > 1 {
      PrefixMade(cfg, w, attempts, k - 1);
      DelayDoubles(cfg.base, k - 1);
    }
  }

  lemma DelayDoubles(base: real, k: nat)
    requires k > 0
    ensures Delay(base, k + 1) == Min(2.0 * Delay(base, k), 5.0)
  {
    hide Pow2;
    PowDoubles(base, k - 1);
    var x := base * Pow2(k - 1);
    assert Delay(base, k) == Min(x, 5.0);
    assert base * Pow2(k) == x + x;
    assert Delay(base, k + 1) == Min(x + x, 5.0);
  }

  lemma PowZero()
    ensures Pow2(0) == 1.0
  {
  }

  // ---------- the answer ----------

  /** The last invocation of the view. */
  function LastCall(w: World, attempts: seq<Attempt>): Handled {
    AllCalls(w, attempts)[|AllCalls(w, attempts)| - 1]
  }

  /** What the client is told, and when the middleware gives up. */
  lemma AnswerTells(cfg: Config, w: World, safe: bool, attempts: seq<Attempt>, answer: Answer)
    requires IsRequest(cfg, w, safe, attempts, answer)
    ensures var last := LastCall(w, attempts);
            var lost := last.result.DbRaised? && IsConnectionError(last.result.err);
            var unsafe := lost && !safe && IsMidCommitError(last.result.err, w.order, last.inAtomic);
            var due := w.pass(|attempts|).before + if attempts == [] then 0.0 else attempts[|attempts| - 1].doneAt;
            && (answer == Reply <==> last.result.Responded?)
            && (answer == Reraise <==> !last.result.Responded? && !lost)
            && (answer == Unavailable(MidCommit) <==> unsafe)
            && (lost && !unsafe ==>
                answer == if |attempts| >= cfg.maxAttempts then Unavailable(RetryExhausted)
                          else if due >= cfg.timeWindow then Unavailable(TimeWindowExceeded) else BadDelay)
  {
    hide IsConnectionError, IsMidCommitError, Delay, Made;
    if Retryable(w, safe, w.handler(0)) {
      if answer.Reply? || answer.Reraise? || answer == Unavailable(MidCommit) {
        var n := |attempts| - 1;
        assert Calls(attempts) == Calls(attempts[..n]) + [attempts[n].call.value];
      } else {
        CallsGoOn(w, safe, attempts);
        assert Following(cfg, w, attempts).checkedAt ==
          w.pass(|attempts|).before + if attempts == [] then 0.0 else attempts[|attempts| - 1].doneAt;
        assert answer.BadDelay? || answer.reason.TimeWindowExceeded? || answer.reason.RetryExhausted?;
      }
    }
  }

  /** A negative base is refused when the second attempt would sleep. */
  lemma BadDelayOnlyThen(cfg: Config, w: World, safe: bool, attempts: seq<Attempt>, answer: Answer)
    requires IsRequest(cfg, w, safe, attempts, answer) && answer == BadDelay
    ensures cfg.base < 0.0 && |attempts| >= 1
  {
    hide Made, GoesOn, Retryable, Pow2, Calls, Now;
    var k := |attempts|;
    assert Delay(cfg.base, k) < 0.0;
    if cfg.base >= 0.0 && k > 0 {
      BackoffGrows(cfg.base, k - 1);
    }
  }
}
