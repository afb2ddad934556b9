/** What one call of the listener leaves behind, in terms of the record, the window and the engine. */
module CallOutcome {
  import opened Domain
  import opened RedisWindow
  import opened RuleEngine
  import opened Consumer
  import opened Convergence
  import opened Listener
  import opened Provenance

  /** The window the engine is given: none for a live event that is too old, a degraded one after a Redis
      failure, and the answer of the window store otherwise. */
  ghost function WindowMet(s: Store, stack: Stack, m: Message, env: Environment): WindowResult {
    if IsTooLate(stack.window, m) then TooLate
    else if env.redisFailsAt.Some? then RedisUnavailable
    else Answer(s.redis, stack.window, m)
  }

  predicate IsDltOf(row: DltRow, src: Source, m: Message, f: Failure) {
    && row.src == src && row.payload == m && row.eventId == m.eventId && row.userId == m.userId && row.traceId == m.traceId
    && row.errorType == f.errorType && TellsError(row.errorMessage, f)
  }

  ghost predicate OneDltMore(before: seq<DltRow>, after: seq<DltRow>, src: Source, m: Message, f: Failure) {
    && (forall i :: 0 <= i < |before| ==> before[i].src != src)
    && |after| == |before| + 1 && after[..|before|] == before && IsDltOf(after[|before|], src, m, f)
  }

  // ----- From the verdict on -----

  /** What `n` has over `s` once the engine has answered `verdict`. */
  ghost predicate Leaves(s: Store, n: Store, src: Source, m: Message, verdict: Verdict) {
    && (n.results == s.results || (verdict.Evaluated? && OneResultMore(s.results, n.results, m, verdict.e)))
    && (n.dltRows == s.dltRows || (verdict.Thrown? && OneDltMore(s.dltRows, n.dltRows, src, m, verdict.f)))
  }

  lemma AckLeft(s: Store, stack: Stack, src: Source, m: Message, engine: Engine, env: Environment)
    ensures
      var (n, acknowledged) := Finish(s, stack, src, m, Ack, engine, env);
      n.results == s.results && n.dltRows == s.dltRows && (acknowledged <==> !env.throws(Ack))
  {
  }

  lemma InsertLeft(s: Store, stack: Stack, src: Source, m: Message, e: EngineResult, engine: Engine, env: Environment)
    requires !HasResult(s.results, m.eventId)
    ensures Leaves(s, Finish(s, stack, src, m, ResultInsert(e), engine, env).0, src, m, Evaluated(e))
  {
    AckLeft(s.(results := InsertResult(s.results, ResultRowFor(m, e))), stack, src, m, engine, env);
  }

  lemma ResultLeft(s: Store, stack: Stack, src: Source, m: Message, e: EngineResult, engine: Engine, env: Environment)
    ensures Leaves(s, Finish(s, stack, src, m, ResultCheck(e), engine, env).0, src, m, Evaluated(e))
  {
    if HasResult(s.results, m.eventId) {
      AckLeft(s, stack, src, m, engine, env);
    } else {
      InsertLeft(s, stack, src, m, e, engine, env);
    }
  }

  lemma PublishLeft(s: Store, stack: Stack, src: Source, m: Message, row: DltRow, engine: Engine, env: Environment)
    ensures
      var n := Finish(s, stack, src, m, DltPublish(row), engine, env).0;
      n.results == s.results && n.dltRows == s.dltRows
  {
    AckLeft(s.(dltTopic := s.dltTopic + [Envelope(row)]), stack, src, m, engine, env);
  }

  lemma DltInsertLeft(s: Store, stack: Stack, src: Source, m: Message, f: Failure, engine: Engine, env: Environment)
    requires !HasDlt(s.dltRows, src)
    ensures Leaves(s, Finish(s, stack, src, m, DltInsert(f), engine, env).0, src, m, Thrown(f))
  {
    ErrorTold(f);
    var (n, pc) := Proceed(s, stack, src, m, DltInsert(f));
    PublishLeft(n, stack, src, m, pc.row, engine, env);
  }

  lemma FailureLeft(s: Store, stack: Stack, src: Source, m: Message, f: Failure, engine: Engine, env: Environment)
    ensures Leaves(s, Finish(s, stack, src, m, DltFind(f), engine, env).0, src, m, Thrown(f))
  {
    if HasDlt(s.dltRows, src) {
      PublishLeft(s, stack, src, m, DltOf(s.dltRows, src), engine, env);
    } else {
      DltInsertLeft(s, stack, src, m, f, engine, env);
    }
  }

  lemma VerdictLeft(s: Store, stack: Stack, src: Source, m: Message, w: WindowResult, engine: Engine, env: Environment)
    ensures Leaves(s, Finish(s, stack, src, m, Rules(w), engine, env).0, src, m, engine(m, w))
  {
    match engine(m, w)
    case Evaluated(e) => ResultLeft(s, stack, src, m, e, engine, env);
    case Thrown(f) => FailureLeft(s, stack, src, m, f, engine, env);
  }

  // ----- From the start -----

  lemma PrecheckLeft(s: Store, stack: Stack, src: Source, m: Message, engine: Engine, env: Environment)
    ensures
      Leaves(s, Finish(s, stack, src, m, Precheck, engine, env).0, src, m, engine(m, WindowMet(s, stack, m, env)))
  {
    if IsTooLate(stack.window, m) {
      VerdictLeft(s, stack, src, m, TooLate, engine, env);
    } else {
      var done := AfterCommands(s, stack, m, CommandsSent(env));
      RedisPhase(s, stack, src, m, engine, env);
      VerdictLeft(done, stack, src, m, StoreAnswer(done, stack, m, env), engine, env);
    }
  }

  /** A call adds a result only of what the engine answered for its record and the window it met, and a
      DLT row only of what the engine threw; neither replaces an earlier row. */
  lemma CallLeaves(s: Store, stack: Stack, src: Source, m: Message, engine: Engine, env: Environment)
    ensures
      Leaves(s, Finish(s, stack, src, m, LogCheck, engine, env).0, src, m, engine(m, WindowMet(s, stack, m, env)))
  {
    PrecheckLeft(s, stack, src, m, engine, env);
    PrecheckLeft(s.(logs := InsertLog(s.logs, LogRowFor(stack, src, m))), stack, src, m, engine, env);
  }

  // ----- A call with nothing in its way -----

  predicate Undisturbed(env: Environment) { env.redisFailsAt.None? && env.send == Sent }

  lemma ResultSettlesCall(s: Store, stack: Stack, src: Source, m: Message, e: EngineResult, engine: Engine, env: Environment)
    requires (forall pc :: !env.throws(pc)) && !HasResult(s.results, m.eventId)
    ensures Finish(s, stack, src, m, ResultCheck(e), engine, env) ==
      (s.(results := s.results + [ResultRowFor(m, e)], acked := s.acked + {src}), true)
  {
    var n := s.(results := s.results + [ResultRowFor(m, e)]);
    assert Finish(s, stack, src, m, ResultInsert(e), engine, env) == Finish(n, stack, src, m, Ack, engine, env);
  }

  lemma PublishSettles(s: Store, stack: Stack, src: Source, m: Message, row: DltRow, engine: Engine, env: Environment)
    requires Undisturbed(env) && (forall pc :: !env.throws(pc))
    ensures Finish(s, stack, src, m, DltPublish(row), engine, env) ==
      (s.(dltTopic := s.dltTopic + [Envelope(row)], acked := s.acked + {src}), true)
  {
    var sent := s.(dltTopic := s.dltTopic + [Envelope(row)]);
    assert Finish(sent, stack, src, m, Ack, engine, env) == (sent.(acked := sent.acked + {src}), true);
  }

  /** The row that is published is the one of the record, old or new. */
  lemma RowToPublish(
    s: Store, rows: seq<DltRow>, stack: Stack, src: Source, m: Message, f: Failure, engine: Engine, env: Environment)
    requires (forall pc :: !env.throws(pc)) && rows == DltRowsAfter(s, src, m, Thrown(f))
    ensures Finish(s, stack, src, m, DltFind(f), engine, env) ==
            Finish(s.(dltRows := rows), stack, src, m, DltPublish(DltOf(rows, src)), engine, env)
  {
    if HasDlt(s.dltRows, src) {
      assert rows == s.dltRows;
    } else {
      assert Proceed(s, stack, src, m, DltFind(f)) == (s, DltInsert(f));
      assert Proceed(s, stack, src, m, DltInsert(f)) == (s.(dltRows := rows), DltPublish(DltOf(rows, src)));
    }
  }

  lemma FailureSettlesCall(s: Store, stack: Stack, src: Source, m: Message, f: Failure, engine: Engine, env: Environment)
    requires Undisturbed(env) && (forall pc :: !env.throws(pc))
    ensures
      var rows := DltRowsAfter(s, src, m, Thrown(f));
      Finish(s, stack, src, m, DltFind(f), engine, env) ==
        (s.(dltRows := rows, dltTopic := s.dltTopic + [Envelope(DltOf(rows, src))], acked := s.acked + {src}), true)
  {
    var rows := DltRowsAfter(s, src, m, Thrown(f));
    RowToPublish(s, rows, stack, src, m, f, engine, env);
    PublishSettles(s.(dltRows := rows), stack, src, m, DltOf(rows, src), engine, env);
  }

  lemma VerdictSettles(
    base: Store, s: Store, stack: Stack, src: Source, m: Message, w: WindowResult, engine: Engine, env: Environment)
    requires Undisturbed(env) && (forall pc :: !env.throws(pc))
    requires s == base.(logs := InsertLog(base.logs, LogRowFor(stack, src, m)), redis := Apply(base.redis, stack.window, m))
    requires !HasResult(base.results, m.eventId) && w == Answer(base.redis, stack.window, m)
    ensures Finish(s, stack, src, m, Rules(w), engine, env) == (Settle(base, stack, src, m, engine), true)
  {
    match engine(m, w)
    case Evaluated(e) => ResultSettlesCall(s, stack, src, m, e, engine, env);
    case Thrown(f) => FailureSettlesCall(s, stack, src, m, f, engine, env);
  }

  /** Without exception, Redis failure or failed send a call acknowledges, and leaves the stores of the
      crash-free handling of its record. */
  lemma CleanCallSettles(s: Store, stack: Stack, src: Source, m: Message, engine: Engine, env: Environment)
    requires Undisturbed(env) && (forall pc :: !env.throws(pc))
    ensures Finish(s, stack, src, m, LogCheck, engine, env) == (Settle(s, stack, src, m, engine), true)
  {
    var logged := s.(logs := InsertLog(s.logs, LogRowFor(stack, src, m)));
    assert Finish(s, stack, src, m, LogCheck, engine, env) == Finish(logged, stack, src, m, Precheck, engine, env);
    if !HasResult(s.results, m.eventId) {
      RedisPhase(logged, stack, src, m, engine, env);
      VerdictSettles(s, logged.(redis := Apply(s.redis, stack.window, m)), stack, src, m,
                     Answer(s.redis, stack.window, m), engine, env);
    }
  }
}
