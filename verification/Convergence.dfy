/** Redelivery after any number of crashes, at any step, ends where the crash-free run ends. */
module Convergence {
  import opened Domain
  import opened RedisWindow
  import opened RuleEngine
  import opened PartialFailure
  import opened Consumer
  import opened AckSafety
  import opened Projection

  type Engine = (Message, WindowResult) -> Verdict

  // ----- The crash-free run -----

  function ErrorRow(src: Source, m: Message, verdict: Verdict): DltRow
    requires verdict.Thrown?
  {
    DltRowFor(src, m, verdict.f)
  }

  ghost function DltRowsAfter(s: Store, src: Source, m: Message, verdict: Verdict): (rows: seq<DltRow>)
    requires verdict.Thrown?
    ensures HasDlt(rows, src)
  {
    var rows := InsertDlt(s.dltRows, ErrorRow(src, m, verdict));
    assert HasDlt(rows, src) by { if !HasDlt(s.dltRows, src) { assert rows[|s.dltRows|].src == src; } }
    rows
  }

  ghost function VerdictOn(s: Store, stack: Stack, m: Message, engine: Engine): Verdict {
    engine(m, Answer(s.redis, stack.window, m))
  }

  /** One record handled from start to acknowledgement with nothing going wrong. */
  ghost function Settle(s: Store, stack: Stack, src: Source, m: Message, engine: Engine): Store {
    var logs, acked := InsertLog(s.logs, LogRowFor(stack, src, m)), s.acked + {src};
    if HasResult(s.results, m.eventId) then s.(logs := logs, acked := acked)
    else
      var redis := Apply(s.redis, stack.window, m);
      match VerdictOn(s, stack, m, engine)
      case Evaluated(e) =>
        s.(logs := logs, redis := redis, results := s.results + [ResultRowFor(m, e)], acked := acked)
      case Thrown(f) =>
        var rows := DltRowsAfter(s, src, m, Thrown(f));
        s.(logs := logs, redis := redis, dltRows := rows,
           dltTopic := s.dltTopic + [Envelope(DltOf(rows, src))], acked := acked)
  }

  /** The stores after the records of a partition, one after the other. */
  ghost function CrashFree(stack: Stack, tp: TopicPartition, log: seq<Message>, engine: Engine): Store {
    if log == [] then INITIAL.store
    else Settle(CrashFree(stack, tp, log[..|log| - 1], engine), stack, Source(tp, |log| - 1), log[|log| - 1], engine)
  }

  /** Equal in tables, Redis and acknowledgements; the DLT topic may repeat an envelope. */
  ghost predicate Converged(a: Store, b: Store) {
    && a.logs == b.logs && a.results == b.results && a.dltRows == b.dltRows
    && a.redis == b.redis && a.acked == b.acked
    && Envelopes(a) == Envelopes(b)
  }

  function Elements<T>(s: seq<T>): set<T> { set e | e in s }

  function Envelopes(s: Store): set<Envelope> { Elements(s.dltTopic) }

  lemma ElementsSnoc<T>(s: seq<T>, e: T)
    ensures Elements(s + [e]) == Elements(s) + {e}
  {
  }

  lemma AddTwice<T>(a: set<T>, e: T)
    ensures a + {e} + {e} == a + {e}
  {
  }

  lemma AddNothing<T>(a: set<T>)
    ensures a + {} == a
  {
  }

  // ----- Half-done records -----

  /** How far the attempts on one record have got, all together. */
  datatype Progress = Progress(logged: bool, commands: nat, settled: bool, sent: bool)

  const NOTHING := Progress(false, 0, false, false)

  ghost predicate Coherent(base: Store, stack: Stack, m: Message, verdict: Verdict, g: Progress) {
    && g.commands <= COMMANDS
    && (g.commands > 0 || g.settled ==> g.logged && !HasResult(base.results, m.eventId))
    && (IsTooLate(stack.window, m) ==> g.commands == 0)
    && (g.settled ==> IsTooLate(stack.window, m) || g.commands == COMMANDS)
    && (g.sent ==> g.settled && verdict.Thrown?)
  }

  /** `s` is `base` plus the progress on the record, whose verdict is `verdict`. */
  ghost predicate Between(base: Store, s: Store, stack: Stack, src: Source, m: Message, verdict: Verdict, g: Progress) {
    && s.logs == (if g.logged then InsertLog(base.logs, LogRowFor(stack, src, m)) else base.logs)
    && s.redis == Prefix(base.redis, stack.window, m, g.commands)
    && s.results == (if g.settled && verdict.Evaluated? then base.results + [ResultRowFor(m, verdict.e)] else base.results)
    && s.dltRows == (if g.settled && verdict.Thrown? then DltRowsAfter(base, src, m, verdict) else base.dltRows)
    && s.acked == base.acked
    && Envelopes(s) == Envelopes(base) +
         if g.sent && verdict.Thrown? then {Envelope(DltOf(DltRowsAfter(base, src, m, verdict), src))} else {}
  }

  /** What an attempt that is about to do `pc` has established. Once a Redis access of it has failed, its
      verdict is worth nothing. */
  ghost predicate At(
    base: Store, stack: Stack, src: Source, m: Message, verdict: Verdict, g: Progress, pc: Pc, failed: bool)
  {
    var undecided := g.logged && !HasResult(base.results, m.eventId);
    var open := undecided && (verdict.Evaluated? ==> !g.settled);
    var counted := IsTooLate(stack.window, m) || g.commands == COMMANDS;
    match pc
    case LogCheck => true
    case LogInsert => true
    case Precheck => g.logged
    case Command(k) => open && !IsTooLate(stack.window, m) && k < COMMANDS && k <= g.commands
    case ReadWindow => open && !IsTooLate(stack.window, m) && g.commands == COMMANDS
    case Rules(w) => open && (failed || (counted && w == Answer(base.redis, stack.window, m)))
    case ResultCheck(e) => open && (failed || (counted && verdict == Evaluated(e)))
    case ResultInsert(e) => open && (failed || (counted && verdict == Evaluated(e)))
    case DltFind(f) => open && (failed || (counted && verdict == Thrown(f)))
    case DltInsert(f) => open && (failed || (counted && verdict == Thrown(f)))
    case DltPublish(row) =>
      g.settled && verdict.Thrown? && row == DltOf(DltRowsAfter(base, src, m, verdict), src)
    case Ack => g.logged && (HasResult(base.results, m.eventId) || (g.settled && (verdict.Thrown? ==> g.sent)))
  }

  /** `s` lies between `base` and the settled record, and an attempt has reached `pc`. */
  ghost predicate Reached(
    base: Store, s: Store, stack: Stack, src: Source, m: Message, verdict: Verdict, g: Progress, pc: Pc, failed: bool)
  {
    && Coherent(base, stack, m, verdict, g) && Between(base, s, stack, src, m, verdict, g)
    && At(base, stack, src, m, verdict, g, pc, failed)
  }

  ghost predicate StepReaches(
    base: Store, s: Store, stack: Stack, src: Source, m: Message, verdict: Verdict, g: Progress, pc: Pc, failed: bool)
    requires !pc.Rules?
  {
    var (s', pc') := Proceed(s, stack, src, m, pc);
    Reached(base, s', stack, src, m, verdict, Advance(s, src, g, pc), pc', failed)
  }

  ghost function Advance(s: Store, src: Source, g: Progress, pc: Pc): Progress {
    match pc
    case LogCheck => g.(logged := g.logged || HasLog(s.logs, src))
    case LogInsert => g.(logged := true)
    case Command(k) => g.(commands := if g.commands < k + 1 then k + 1 else g.commands)
    case ResultInsert(_) => g.(settled := true)
    case DltFind(_) => g.(settled := g.settled || HasDlt(s.dltRows, src))
    case DltInsert(_) => g.(settled := true)
    case DltPublish(_) => g.(sent := true)
    case _ => g
  }

  lemma LogCheckReaches(
    base: Store, s: Store, stack: Stack, src: Source, m: Message, verdict: Verdict, g: Progress, failed: bool)
    requires Reached(base, s, stack, src, m, verdict, g, LogCheck, failed)
    ensures StepReaches(base, s, stack, src, m, verdict, g, LogCheck, failed)
  {
  }

  lemma LogInsertReaches(
    base: Store, s: Store, stack: Stack, src: Source, m: Message, verdict: Verdict, g: Progress, failed: bool)
    requires Reached(base, s, stack, src, m, verdict, g, LogInsert, failed)
    ensures StepReaches(base, s, stack, src, m, verdict, g, LogInsert, failed)
  {
    if g.logged { InsertedIsThere(base.logs, LogRowFor(stack, src, m)); }
  }

  lemma InsertedIsThere(rows: seq<LogRow>, row: LogRow)
    ensures HasLog(InsertLog(rows, row), row.src)
  {
    if !HasLog(rows, row.src) { assert InsertLog(rows, row)[|rows|].src == row.src; }
  }

  lemma PrecheckReaches(
    base: Store, s: Store, stack: Stack, src: Source, m: Message, verdict: Verdict, g: Progress, failed: bool)
    requires Reached(base, s, stack, src, m, verdict, g, Precheck, failed)
    ensures StepReaches(base, s, stack, src, m, verdict, g, Precheck, failed)
  {
    if g.settled && verdict.Evaluated? {
      assert s.results[|base.results|].eventId == m.eventId;
    }
  }

  lemma CommandReaches(
    base: Store, s: Store, stack: Stack, src: Source, m: Message, verdict: Verdict, g: Progress, failed: bool, k: nat)
    requires Reached(base, s, stack, src, m, verdict, g, Pc.Command(k), failed)
    requires stack.window.window >= 0
    ensures StepReaches(base, s, stack, src, m, verdict, g, Pc.Command(k), failed)
  {
    if k < g.commands { Redo(base.redis, stack.window, m, k, g.commands); }
  }

  lemma ReadReaches(
    base: Store, s: Store, stack: Stack, src: Source, m: Message, verdict: Verdict, g: Progress, failed: bool)
    requires Reached(base, s, stack, src, m, verdict, g, ReadWindow, failed)
    ensures StepReaches(base, s, stack, src, m, verdict, g, ReadWindow, failed)
  {
  }

  lemma ResultCheckReaches(
    base: Store, s: Store, stack: Stack, src: Source, m: Message, verdict: Verdict, g: Progress, failed: bool, e: EngineResult)
    requires Reached(base, s, stack, src, m, verdict, g, ResultCheck(e), failed)
    ensures StepReaches(base, s, stack, src, m, verdict, g, ResultCheck(e), failed)
  {
  }

  lemma ResultInsertReaches(
    base: Store, s: Store, stack: Stack, src: Source, m: Message, verdict: Verdict, g: Progress, failed: bool, e: EngineResult)
    requires Reached(base, s, stack, src, m, verdict, g, ResultInsert(e), failed)
    requires !failed
    ensures StepReaches(base, s, stack, src, m, verdict, g, ResultInsert(e), failed)
  {
  }

  lemma DltFindReaches(
    base: Store, s: Store, stack: Stack, src: Source, m: Message, verdict: Verdict, g: Progress, failed: bool, f: Failure)
    requires Reached(base, s, stack, src, m, verdict, g, DltFind(f), failed)
    requires !HasDlt(base.dltRows, src)
    ensures StepReaches(base, s, stack, src, m, verdict, g, DltFind(f), failed)
  {
  }

  lemma DltInsertReaches(
    base: Store, s: Store, stack: Stack, src: Source, m: Message, verdict: Verdict, g: Progress, failed: bool, f: Failure)
    requires Reached(base, s, stack, src, m, verdict, g, DltInsert(f), failed)
    requires !failed
    ensures StepReaches(base, s, stack, src, m, verdict, g, DltInsert(f), failed)
  {
  }

  lemma DltPublishReaches(
    base: Store, s: Store, stack: Stack, src: Source, m: Message, verdict: Verdict, g: Progress, failed: bool, row: DltRow)
    requires Reached(base, s, stack, src, m, verdict, g, DltPublish(row), failed)
    ensures StepReaches(base, s, stack, src, m, verdict, g, DltPublish(row), failed)
  {
    ElementsSnoc(s.dltTopic, Envelope(row));
    AddTwice(Envelopes(base), Envelope(row));
    AddNothing(Envelopes(base));
  }

  /** Every access of an attempt leads on, but for an insert of what a failed Redis access led to. */
  lemma AccessReaches(
    base: Store, s: Store, stack: Stack, src: Source, m: Message, verdict: Verdict, g: Progress, failed: bool, pc: Pc)
    requires Reached(base, s, stack, src, m, verdict, g, pc, failed)
    requires stack.window.window >= 0 && !HasDlt(base.dltRows, src)
    requires !pc.Rules? && pc != Ack && (failed ==> !pc.ResultInsert? && !pc.DltInsert?)
    ensures StepReaches(base, s, stack, src, m, verdict, g, pc, failed)
  {
    match pc
    case LogCheck => LogCheckReaches(base, s, stack, src, m, verdict, g, failed);
    case LogInsert => LogInsertReaches(base, s, stack, src, m, verdict, g, failed);
    case Precheck => PrecheckReaches(base, s, stack, src, m, verdict, g, failed);
    case Command(k) => CommandReaches(base, s, stack, src, m, verdict, g, failed, k);
    case ReadWindow => ReadReaches(base, s, stack, src, m, verdict, g, failed);
    case ResultCheck(e) => ResultCheckReaches(base, s, stack, src, m, verdict, g, failed, e);
    case ResultInsert(e) => ResultInsertReaches(base, s, stack, src, m, verdict, g, failed, e);
    case DltFind(f) => DltFindReaches(base, s, stack, src, m, verdict, g, failed, f);
    case DltInsert(f) => DltInsertReaches(base, s, stack, src, m, verdict, g, failed, f);
    case DltPublish(row) => DltPublishReaches(base, s, stack, src, m, verdict, g, failed, row);
  }

  lemma SettledEnvelopes(base: Store, stack: Stack, src: Source, m: Message, engine: Engine)
    ensures
      var verdict := VerdictOn(base, stack, m, engine);
      Envelopes(Settle(base, stack, src, m, engine)) ==
        Envelopes(base) + if !HasResult(base.results, m.eventId) && verdict.Thrown?
                          then {Envelope(DltOf(DltRowsAfter(base, src, m, verdict), src))} else {}
  {
    var verdict := VerdictOn(base, stack, m, engine);
    if !HasResult(base.results, m.eventId) && verdict.Thrown? {
      ElementsSnoc(base.dltTopic, Envelope(DltOf(DltRowsAfter(base, src, m, verdict), src)));
    } else {
      AddNothing(Envelopes(base));
    }
  }

  lemma AckOfKnownResult(
    base: Store, s: Store, stack: Stack, src: Source, m: Message, engine: Engine, g: Progress, failed: bool)
    requires Reached(base, s, stack, src, m, VerdictOn(base, stack, m, engine), g, Ack, failed) && HasResult(base.results, m.eventId)
    ensures Converged(Proceed(s, stack, src, m, Ack).0, Settle(base, stack, src, m, engine))
  {
    SettledEnvelopes(base, stack, src, m, engine);
  }

  /** All there is to do for a record without a result has been done when it is acknowledged. */
  ghost predicate FullyHandled(stack: Stack, m: Message, verdict: Verdict, g: Progress) {
    && g.logged && g.settled && (verdict.Thrown? ==> g.sent)
    && g.commands == if IsTooLate(stack.window, m) then 0 else COMMANDS
  }

  lemma AckIsLast(base: Store, stack: Stack, src: Source, m: Message, verdict: Verdict, g: Progress, failed: bool)
    requires Coherent(base, stack, m, verdict, g) && At(base, stack, src, m, verdict, g, Ack, failed)
    requires !HasResult(base.results, m.eventId)
    ensures FullyHandled(stack, m, verdict, g)
  {
  }

  /** What handling a record with a result comes to. */
  ghost predicate SettledAsResult(base: Store, t: Store, stack: Stack, src: Source, m: Message, verdict: Verdict)
    requires verdict.Evaluated?
  {
    && t.logs == InsertLog(base.logs, LogRowFor(stack, src, m))
    && t.results == base.results + [ResultRowFor(m, verdict.e)] && t.dltRows == base.dltRows
    && t.redis == Prefix(base.redis, stack.window, m, if IsTooLate(stack.window, m) then 0 else COMMANDS)
    && t.acked == base.acked + {src} && Envelopes(t) == Envelopes(base)
  }

  lemma ResultSettles(base: Store, stack: Stack, src: Source, m: Message, engine: Engine)
    requires !HasResult(base.results, m.eventId) && VerdictOn(base, stack, m, engine).Evaluated?
    ensures SettledAsResult(base, Settle(base, stack, src, m, engine), stack, src, m, VerdictOn(base, stack, m, engine))
  {
  }

  lemma AckOfResult(base: Store, s: Store, stack: Stack, src: Source, m: Message, verdict: Verdict, g: Progress)
    requires Between(base, s, stack, src, m, verdict, g) && FullyHandled(stack, m, verdict, g) && verdict.Evaluated?
    ensures SettledAsResult(base, Proceed(s, stack, src, m, Ack).0, stack, src, m, verdict)
  {
    AddNothing(Envelopes(base));
  }

  /** What handling a record that fails comes to. */
  ghost predicate SettledAsFailure(base: Store, t: Store, stack: Stack, src: Source, m: Message, verdict: Verdict)
    requires verdict.Thrown?
  {
    var rows := DltRowsAfter(base, src, m, verdict);
    && t.logs == InsertLog(base.logs, LogRowFor(stack, src, m)) && t.results == base.results && t.dltRows == rows
    && t.redis == Prefix(base.redis, stack.window, m, if IsTooLate(stack.window, m) then 0 else COMMANDS)
    && t.acked == base.acked + {src} && Envelopes(t) == Envelopes(base) + {Envelope(DltOf(rows, src))}
  }

  lemma FailureSettles(base: Store, stack: Stack, src: Source, m: Message, engine: Engine)
    requires !HasResult(base.results, m.eventId) && VerdictOn(base, stack, m, engine).Thrown?
    ensures SettledAsFailure(base, Settle(base, stack, src, m, engine), stack, src, m, VerdictOn(base, stack, m, engine))
  {
    SettledEnvelopes(base, stack, src, m, engine);
  }

  lemma AckOfFailure(base: Store, s: Store, stack: Stack, src: Source, m: Message, verdict: Verdict, g: Progress)
    requires Between(base, s, stack, src, m, verdict, g) && FullyHandled(stack, m, verdict, g) && verdict.Thrown?
    ensures SettledAsFailure(base, Proceed(s, stack, src, m, Ack).0, stack, src, m, verdict)
  {
  }

  /** The acknowledged record is settled as without crashes. */
  lemma AckSettles(
    base: Store, s: Store, stack: Stack, src: Source, m: Message, engine: Engine, g: Progress, failed: bool)
    requires Reached(base, s, stack, src, m, VerdictOn(base, stack, m, engine), g, Ack, failed)
    ensures Converged(Proceed(s, stack, src, m, Ack).0, Settle(base, stack, src, m, engine))
  {
    var verdict := VerdictOn(base, stack, m, engine);
    if HasResult(base.results, m.eventId) {
      AckOfKnownResult(base, s, stack, src, m, engine, g, failed);
    } else {
      AckIsLast(base, stack, src, m, verdict, g, failed);
      if verdict.Evaluated? {
        AckOfResult(base, s, stack, src, m, verdict, g);
        ResultSettles(base, stack, src, m, engine);
      } else {
        AckOfFailure(base, s, stack, src, m, verdict, g);
        FailureSettles(base, stack, src, m, engine);
      }
    }
  }

  // ----- Disciplined runs -----

  /** Partitions are processed one record at a time: the next record is handed out only after the one
      before it was acknowledged, an unacknowledged one is handed out again; the engine is a function; a
      delivery one of whose Redis accesses failed does not live to insert its degraded result or its
      DLT row. */
  ghost predicate Disciplined(sys: System, engine: Engine, a: Action) {
    match a
    case Deliver(w, offset) =>
      && (forall v :: v in sys.tasks ==> v.tp != w.tp)
      && (forall o: nat :: o < offset ==> Source(w.tp, o) in sys.store.acked)
      && Source(w.tp, offset) !in sys.store.acked
    case Decide(w, verdict) =>
      w in sys.tasks && sys.tasks[w].pc.Rules? ==> verdict == engine(sys.tasks[w].m, sys.tasks[w].pc.w)
    case Step(w) =>
      w in sys.tasks && sys.tasks[w].redisFailed ==> !sys.tasks[w].pc.ResultInsert? && !sys.tasks[w].pc.DltInsert?
    case _ => true
  }

  ghost predicate DisciplinedRun(sys: System, stacks: string -> Stack, engine: Engine, acts: seq<Action>) {
    acts != [] ==>
      && DisciplinedRun(sys, stacks, engine, acts[..|acts| - 1])
      && Disciplined(Run(sys, stacks, acts[..|acts| - 1]), engine, acts[|acts| - 1])
  }

  /** Only the actions of the region are disciplined; the others do what they like. */
  ghost predicate DisciplinedIn(sys: System, stacks: string -> Stack, engine: Engine, g: Region, acts: seq<Action>) {
    acts != [] ==>
      && DisciplinedIn(sys, stacks, engine, g, acts[..|acts| - 1])
      && (g.owns(Home(acts[|acts| - 1])) ==> Disciplined(Run(sys, stacks, acts[..|acts| - 1]), engine, acts[|acts| - 1]))
  }

  function Offsets(tp: TopicPartition, n: nat): set<Source> { set o | 0 <= o < n :: Source(tp, o) }

  /** The state of a single partition: `n` records are settled, `g` is the progress on the next. */
  ghost predicate OnTrack(sys: System, tp: TopicPartition, stack: Stack, engine: Engine, n: nat, g: Progress) {
    var log := LogOf(sys, tp);
    && n <= |log|
    && (n == |log| ==> g == NOTHING && sys.tasks == map[] && Converged(sys.store, CrashFree(stack, tp, log, engine)))
    && (n < |log| ==>
          var base := CrashFree(stack, tp, log[..n], engine);
          OnRecord(sys, stack, VerdictOn(base, stack, log[n], engine), base, Source(tp, n), log[n], g))
    && sys.store.acked == Offsets(tp, n)
    && (forall v, w :: v in sys.tasks && w in sys.tasks ==> v == w)
  }

  ghost predicate OnRecord(
    sys: System, stack: Stack, verdict: Verdict, base: Store, src: Source, m: Message, g: Progress)
  {
    && Coherent(base, stack, m, verdict, g) && Between(base, sys.store, stack, src, m, verdict, g)
    && forall w :: w in sys.tasks ==>
         && w.tp == src.tp && sys.tasks[w].src == src && sys.tasks[w].m == m
         && At(base, stack, src, m, verdict, g, sys.tasks[w].pc, sys.tasks[w].redisFailed)
  }

  /** The crash-free run has written no DLT row for a record still to come. */
  lemma {:induction false} NoRowYet(stack: Stack, tp: TopicPartition, log: seq<Message>, engine: Engine, offset: nat)
    requires offset >= |log|
    ensures !HasDlt(CrashFree(stack, tp, log, engine).dltRows, Source(tp, offset))
    decreases |log|
  {
    if log == [] {
    } else {
      NoRowYet(stack, tp, log[..|log| - 1], engine, offset);
      NoOtherRow(CrashFree(stack, tp, log[..|log| - 1], engine), stack, Source(tp, |log| - 1), log[|log| - 1], engine, Source(tp, offset));
    }
  }

  lemma NoOtherRow(s: Store, stack: Stack, src: Source, m: Message, engine: Engine, other: Source)
    requires other != src && !HasDlt(s.dltRows, other)
    ensures !HasDlt(Settle(s, stack, src, m, engine).dltRows, other)
  {
  }

  lemma FreshRecord(base: Store, s: Store, stack: Stack, src: Source, m: Message, verdict: Verdict)
    requires Converged(s, base)
    ensures Coherent(base, stack, m, verdict, NOTHING)
    ensures Between(base, s, stack, src, m, verdict, NOTHING)
  {
    assert Prefix(base.redis, stack.window, m, 0) == base.redis;
  }

  lemma NextOffset(tp: TopicPartition, n: nat, offset: nat)
    requires forall o: nat :: o < offset ==> Source(tp, o) in Offsets(tp, n)
    requires Source(tp, offset) !in Offsets(tp, n)
    ensures offset == n
  {
    assert Source(tp, n) !in Offsets(tp, n);
    assert offset <= n;
  }

  lemma MoreOffsets(tp: TopicPartition, n: nat)
    ensures Offsets(tp, n + 1) == Offsets(tp, n) + {Source(tp, n)}
  {
    forall src | src in Offsets(tp, n + 1) ensures src in Offsets(tp, n) + {Source(tp, n)} {
      if src.offset < n { assert src in Offsets(tp, n); }
    }
  }

  ghost predicate Alone(sys: System, w: Worker) { forall v :: v in sys.tasks ==> v == w }

  lemma StepOnRecord(
    sys: System, stacks: string -> Stack, verdict: Verdict, engine: Engine, base: Store, src: Source, m: Message,
    g: Progress, w: Worker)
    returns (g': Progress)
    requires OnRecord(sys, stacks(src.tp.topic), verdict, base, src, m, g) && stacks(src.tp.topic).window.window >= 0
    requires w in sys.tasks && Alone(sys, w) && !sys.tasks[w].pc.Rules? && sys.tasks[w].pc != Ack
    requires Disciplined(sys, engine, Action.Step(w)) && !HasDlt(base.dltRows, src)
    ensures OnRecord(Act(sys, stacks, Action.Step(w)), stacks(src.tp.topic), verdict, base, src, m, g')
  {
    var stack, t := stacks(src.tp.topic), sys.tasks[w];
    g' := Advance(sys.store, src, g, t.pc);
    AccessReaches(base, sys.store, stack, src, m, verdict, g, t.redisFailed, t.pc);
  }

  lemma AckOnRecord(
    sys: System, stacks: string -> Stack, engine: Engine, base: Store, src: Source, m: Message, g: Progress, w: Worker)
    requires OnRecord(sys, stacks(src.tp.topic), VerdictOn(base, stacks(src.tp.topic), m, engine), base, src, m, g)
    requires w in sys.tasks && Alone(sys, w) && sys.tasks[w].pc == Ack
    ensures
      var next := Act(sys, stacks, Action.Step(w));
      next.tasks == map[] && Converged(next.store, Settle(base, stacks(src.tp.topic), src, m, engine))
  {
    AckSettles(base, sys.store, stacks(src.tp.topic), src, m, engine, g, sys.tasks[w].redisFailed);
    NoneLeft(sys, w);
  }

  lemma NoneLeft(sys: System, w: Worker)
    requires Alone(sys, w)
    ensures sys.tasks - {w} == map[]
  {
  }

  /** A DLT send that failed after it was written is progress; the attempt is over either way. */
  lemma WrittenOnRecord(
    sys: System, stack: Stack, verdict: Verdict, base: Store, src: Source, m: Message, g: Progress, row: DltRow, n: System)
    requires Coherent(base, stack, m, verdict, g) && Between(base, sys.store, stack, src, m, verdict, g)
    requires At(base, stack, src, m, verdict, g, DltPublish(row), false)
    requires n.store == sys.store.(dltTopic := sys.store.dltTopic + [Envelope(row)]) && n.tasks == map[]
    ensures OnRecord(n, stack, verdict, base, src, m, g.(sent := true))
  {
    ElementsSnoc(sys.store.dltTopic, Envelope(row));
    AddTwice(Envelopes(base), Envelope(row));
    AddNothing(Envelopes(base));
  }

  lemma PublishFailsOnRecord(
    sys: System, stacks: string -> Stack, verdict: Verdict, base: Store, src: Source, m: Message, g: Progress, a: Action)
    returns (g': Progress)
    requires OnRecord(sys, stacks(src.tp.topic), verdict, base, src, m, g)
    requires a.PublishFails? && a.w in sys.tasks && Alone(sys, a.w) && sys.tasks[a.w].pc.DltPublish?
    ensures Act(sys, stacks, a).tasks == map[]
    ensures OnRecord(Act(sys, stacks, a), stacks(src.tp.topic), verdict, base, src, m, g')
  {
    NoneLeft(sys, a.w);
    assert At(base, stacks(src.tp.topic), src, m, verdict, g, sys.tasks[a.w].pc, sys.tasks[a.w].redisFailed);
    if a.written {
      g' := g.(sent := true);
      WrittenOnRecord(sys, stacks(src.tp.topic), verdict, base, src, m, g, sys.tasks[a.w].pc.row, Act(sys, stacks, a));
    } else {
      g' := g;
      assert sys.store.dltTopic + [] == sys.store.dltTopic;
    }
  }

  /** A settled record moves the partition to the next one. */
  lemma SettledMovesOn(
    sys: System, next: System, tp: TopicPartition, stack: Stack, engine: Engine, n: nat)
    requires n < |LogOf(sys, tp)| && next.topics == sys.topics && next.tasks == map[]
    requires Converged(next.store, Settle(CrashFree(stack, tp, LogOf(sys, tp)[..n], engine), stack, Source(tp, n), LogOf(sys, tp)[n], engine))
    requires next.store.acked == Offsets(tp, n) + {Source(tp, n)}
    ensures OnTrack(next, tp, stack, engine, n + 1, NOTHING)
  {
    var log := LogOf(sys, tp);
    MoreOffsets(tp, n);
    assert log[..n + 1][..n] == log[..n];
    assert Converged(next.store, CrashFree(stack, tp, log[..n + 1], engine));
    if n + 1 < |log| {
      var base := CrashFree(stack, tp, log[..n + 1], engine);
      FreshRecord(base, next.store, stack, Source(tp, n + 1), log[n + 1], VerdictOn(base, stack, log[n + 1], engine));
    } else {
      assert log[..n + 1] == log;
    }
  }

  lemma StepOnTrack(
    sys: System, stacks: string -> Stack, tp: TopicPartition, engine: Engine, n: nat, g: Progress, w: Worker)
    returns (n': nat, g': Progress)
    requires OnTrack(sys, tp, stacks(tp.topic), engine, n, g) && stacks(tp.topic).window.window >= 0
    requires w in sys.tasks && !sys.tasks[w].pc.Rules? && w.tp == tp
    requires Disciplined(sys, engine, Action.Step(w))
    ensures OnTrack(Act(sys, stacks, Action.Step(w)), tp, stacks(tp.topic), engine, n', g')
  {
    var log, next := LogOf(sys, tp), Act(sys, stacks, Action.Step(w));
    var base := CrashFree(stacks(tp.topic), tp, log[..n], engine);
    assert Alone(sys, w);
    if sys.tasks[w].pc == Ack {
      AckOnRecord(sys, stacks, engine, base, Source(tp, n), log[n], g, w);
      SettledMovesOn(sys, next, tp, stacks(tp.topic), engine, n);
      n', g' := n + 1, NOTHING;
    } else {
      n' := n;
      NoRowYet(stacks(tp.topic), tp, log[..n], engine, n);
      var verdict := VerdictOn(base, stacks(tp.topic), log[n], engine);
      g' := StepOnRecord(sys, stacks, verdict, engine, base, Source(tp, n), log[n], g, w);
      StepKeepsAcks(sys, stacks, w);
    }
  }

  lemma StepKeepsAcks(sys: System, stacks: string -> Stack, w: Worker)
    requires w in sys.tasks && !sys.tasks[w].pc.Rules? && sys.tasks[w].pc != Ack
    ensures
      var next := Act(sys, stacks, Action.Step(w));
      next.store.acked == sys.store.acked && next.tasks.Keys == sys.tasks.Keys && next.topics == sys.topics
  {
  }

  lemma ProduceOnTrack(
    sys: System, stacks: string -> Stack, tp: TopicPartition, engine: Engine, n: nat, g: Progress, m: Message)
    requires OnTrack(sys, tp, stacks(tp.topic), engine, n, g)
    ensures OnTrack(Act(sys, stacks, Produce(tp, m)), tp, stacks(tp.topic), engine, n, g)
  {
    var log, longer := LogOf(sys, tp), LogOf(Act(sys, stacks, Produce(tp, m)), tp);
    assert longer[..n] == log[..n];
    if n == |log| {
      assert longer[..n] == log;
      var base := CrashFree(stacks(tp.topic), tp, log, engine);
      FreshRecord(base, sys.store, stacks(tp.topic), Source(tp, n), m, VerdictOn(base, stacks(tp.topic), m, engine));
    } else {
      assert longer[n] == log[n];
    }
  }

  lemma DeliverOnTrack(
    sys: System, stacks: string -> Stack, tp: TopicPartition, engine: Engine, n: nat, g: Progress, w: Worker, offset: nat)
    requires OnTrack(sys, tp, stacks(tp.topic), engine, n, g)
    requires w.tp == tp && Disciplined(sys, engine, Deliver(w, offset))
    ensures OnTrack(Act(sys, stacks, Deliver(w, offset)), tp, stacks(tp.topic), engine, n, g)
  {
    var log, next := LogOf(sys, tp), Act(sys, stacks, Deliver(w, offset));
    if w !in sys.tasks && offset < |log| {
      NextOffset(tp, n, offset);
      var base := CrashFree(stacks(tp.topic), tp, log[..n], engine);
      var verdict := VerdictOn(base, stacks(tp.topic), log[n], engine);
      assert OnRecord(sys, stacks(tp.topic), verdict, base, Source(tp, n), log[n], g);
      assert forall v :: v in sys.tasks ==> v.tp == tp;
      assert sys.tasks == map[];
      assert OnRecord(next, stacks(tp.topic), verdict, base, Source(tp, n), log[n], g);
    }
  }

  lemma DecideOnRecord(
    sys: System, stacks: string -> Stack, engine: Engine, base: Store, src: Source, m: Message, g: Progress,
    w: Worker, decided: Verdict)
    requires OnRecord(sys, stacks(src.tp.topic), VerdictOn(base, stacks(src.tp.topic), m, engine), base, src, m, g)
    requires Disciplined(sys, engine, Decide(w, decided))
    ensures OnRecord(Act(sys, stacks, Decide(w, decided)), stacks(src.tp.topic),
                     VerdictOn(base, stacks(src.tp.topic), m, engine), base, src, m, g)
  {
    if w in sys.tasks && sys.tasks[w].pc.Rules? {
      DecidedAt(base, stacks(src.tp.topic), src, m, engine, g, sys.tasks[w].pc.w, sys.tasks[w].redisFailed);
    }
  }

  lemma DecidedAt(
    base: Store, stack: Stack, src: Source, m: Message, engine: Engine, g: Progress, w: WindowResult, failed: bool)
    requires At(base, stack, src, m, VerdictOn(base, stack, m, engine), g, Rules(w), failed)
    ensures
      var next := if engine(m, w).Evaluated? then ResultCheck(engine(m, w).e) else DltFind(engine(m, w).f);
      At(base, stack, src, m, VerdictOn(base, stack, m, engine), g, next, failed)
  {
  }

  lemma FailedAt(base: Store, stack: Stack, src: Source, m: Message, verdict: Verdict, g: Progress, pc: Pc, failed: bool)
    requires At(base, stack, src, m, verdict, g, pc, failed) && (pc.Command? || pc.ReadWindow?)
    ensures At(base, stack, src, m, verdict, g, Rules(RedisUnavailable), true)
  {
  }

  /** A failed Redis access leaves the stores alone and spoils the verdict. */
  lemma RedisFailsOnRecord(
    sys: System, stacks: string -> Stack, verdict: Verdict, base: Store, src: Source, m: Message, g: Progress, w: Worker)
    requires OnRecord(sys, stacks(src.tp.topic), verdict, base, src, m, g)
    ensures OnRecord(Act(sys, stacks, RedisFails(w)), stacks(src.tp.topic), verdict, base, src, m, g)
  {
    if w in sys.tasks && (sys.tasks[w].pc.Command? || sys.tasks[w].pc.ReadWindow?) {
      FailedAt(base, stacks(src.tp.topic), src, m, verdict, g, sys.tasks[w].pc, sys.tasks[w].redisFailed);
    }
  }

  /** An action that leaves stores and topics alone keeps the partition on track if it keeps its record so. */
  lemma QuietOnTrack(
    sys: System, next: System, stacks: string -> Stack, tp: TopicPartition, engine: Engine, n: nat, g: Progress)
    requires OnTrack(sys, tp, stacks(tp.topic), engine, n, g)
    requires next.store == sys.store && next.topics == sys.topics && next.tasks.Keys <= sys.tasks.Keys
    requires n < |LogOf(sys, tp)| ==>
      var base, m := CrashFree(stacks(tp.topic), tp, LogOf(sys, tp)[..n], engine), LogOf(sys, tp)[n];
      OnRecord(next, stacks(tp.topic), VerdictOn(base, stacks(tp.topic), m, engine), base, Source(tp, n), m, g)
    ensures OnTrack(next, tp, stacks(tp.topic), engine, n, g)
  {
    if n == |LogOf(sys, tp)| { assert next.tasks == map[]; }
  }

  lemma DecideOnTrack(
    sys: System, stacks: string -> Stack, tp: TopicPartition, engine: Engine, n: nat, g: Progress, w: Worker, verdict: Verdict)
    requires OnTrack(sys, tp, stacks(tp.topic), engine, n, g)
    requires Disciplined(sys, engine, Decide(w, verdict))
    ensures OnTrack(Act(sys, stacks, Decide(w, verdict)), tp, stacks(tp.topic), engine, n, g)
  {
    var log := LogOf(sys, tp);
    if n < |log| {
      DecideOnRecord(sys, stacks, engine, CrashFree(stacks(tp.topic), tp, log[..n], engine), Source(tp, n), log[n], g, w, verdict);
    }
    QuietOnTrack(sys, Act(sys, stacks, Decide(w, verdict)), stacks, tp, engine, n, g);
  }

  lemma RedisFailsOnTrack(
    sys: System, stacks: string -> Stack, tp: TopicPartition, engine: Engine, n: nat, g: Progress, w: Worker)
    requires OnTrack(sys, tp, stacks(tp.topic), engine, n, g)
    ensures OnTrack(Act(sys, stacks, RedisFails(w)), tp, stacks(tp.topic), engine, n, g)
  {
    var log := LogOf(sys, tp);
    if n < |log| {
      var base := CrashFree(stacks(tp.topic), tp, log[..n], engine);
      RedisFailsOnRecord(sys, stacks, VerdictOn(base, stacks(tp.topic), log[n], engine), base, Source(tp, n), log[n], g, w);
    }
    QuietOnTrack(sys, Act(sys, stacks, RedisFails(w)), stacks, tp, engine, n, g);
  }

  lemma CrashOnRecord(
    sys: System, stacks: string -> Stack, verdict: Verdict, base: Store, src: Source, m: Message, g: Progress, w: Worker)
    requires OnRecord(sys, stacks(src.tp.topic), verdict, base, src, m, g)
    ensures OnRecord(Act(sys, stacks, Crash(w)), stacks(src.tp.topic), verdict, base, src, m, g)
  {
  }

  lemma CrashOnTrack(
    sys: System, stacks: string -> Stack, tp: TopicPartition, engine: Engine, n: nat, g: Progress, w: Worker)
    requires OnTrack(sys, tp, stacks(tp.topic), engine, n, g)
    ensures OnTrack(Act(sys, stacks, Crash(w)), tp, stacks(tp.topic), engine, n, g)
  {
    var log := LogOf(sys, tp);
    if n < |log| {
      var base := CrashFree(stacks(tp.topic), tp, log[..n], engine);
      CrashOnRecord(sys, stacks, VerdictOn(base, stacks(tp.topic), log[n], engine), base, Source(tp, n), log[n], g, w);
    }
    QuietOnTrack(sys, Act(sys, stacks, Crash(w)), stacks, tp, engine, n, g);
  }

  lemma ActOnTrack(
    sys: System, stacks: string -> Stack, tp: TopicPartition, engine: Engine, n: nat, g: Progress, a: Action)
    returns (n': nat, g': Progress)
    requires OnTrack(sys, tp, stacks(tp.topic), engine, n, g) && stacks(tp.topic).window.window >= 0
    requires Home(a) == tp && Disciplined(sys, engine, a)
    ensures OnTrack(Act(sys, stacks, a), tp, stacks(tp.topic), engine, n', g')
  {
    n', g' := n, g;
    if a.Produce? {
      ProduceOnTrack(sys, stacks, tp, engine, n, g, a.m);
    } else if a.Step? {
      if a.w in sys.tasks && !sys.tasks[a.w].pc.Rules? { n', g' := StepOnTrack(sys, stacks, tp, engine, n, g, a.w); }
    } else if a.PublishFails? {
      if a.w in sys.tasks && sys.tasks[a.w].pc.DltPublish? {
        var log := LogOf(sys, tp);
        assert Alone(sys, a.w);
        var base := CrashFree(stacks(tp.topic), tp, log[..n], engine);
        g' := PublishFailsOnRecord(
          sys, stacks, VerdictOn(base, stacks(tp.topic), log[n], engine), base, Source(tp, n), log[n], g, a);
      }
    } else if a.Deliver? {
      DeliverOnTrack(sys, stacks, tp, engine, n, g, a.w, a.offset);
    } else if a.Decide? {
      DecideOnTrack(sys, stacks, tp, engine, n, g, a.w, a.verdict);
    } else if a.RedisFails? {
      RedisFailsOnTrack(sys, stacks, tp, engine, n, g, a.w);
    } else {
      CrashOnTrack(sys, stacks, tp, engine, n, g, a.w);
    }
  }

  lemma {:induction false} RunOnTrack(stacks: string -> Stack, tp: TopicPartition, engine: Engine, acts: seq<Action>)
    returns (n: nat, g: Progress)
    requires stacks(tp.topic).window.window >= 0
    requires DisciplinedRun(INITIAL, stacks, engine, acts)
    requires forall i :: 0 <= i < |acts| ==> Home(acts[i]) == tp
    ensures OnTrack(Run(INITIAL, stacks, acts), tp, stacks(tp.topic), engine, n, g)
    decreases |acts|
  {
    if acts == [] {
      n, g := 0, NOTHING;
      assert Offsets(tp, 0) == {};
    } else {
      n, g := RunOnTrack(stacks, tp, engine, acts[..|acts| - 1]);
      n, g := ActOnTrack(Run(INITIAL, stacks, acts[..|acts| - 1]), stacks, tp, engine, n, g, acts[|acts| - 1]);
    }
  }

  // ----- Several partitions -----

  /** Seen from its own partition, a disciplined action is disciplined. */
  lemma DisciplineProjects(sys: System, engine: Engine, g: Region, a: Action)
    requires Disciplined(sys, engine, a) && g.owns(Home(a))
    ensures Disciplined(View(sys, g), engine, a)
  {
    if !a.Produce? { TaskRead(sys.tasks, g, a.w); }
    if a.Deliver? {
      forall v | v in View(sys, g).tasks ensures v.tp != a.w.tp { TaskRead(sys.tasks, g, v); }
    }
  }

  lemma {:induction false} RunDisciplineProjects(
    stacks: string -> Stack, engine: Engine, g: Region, acts: seq<Action>)
    requires DisciplinedIn(INITIAL, stacks, engine, g, acts)
    requires TopicsSeparated(Run(INITIAL, stacks, acts), stacks, g)
    ensures DisciplinedRun(View(INITIAL, g), stacks, engine, Own(acts, g))
    decreases |acts|
  {
    if acts == [] {
    } else {
      var before, last := acts[..|acts| - 1], acts[|acts| - 1];
      ActExtends(Run(INITIAL, stacks, before), stacks, last);
      SeparatedBefore(Run(INITIAL, stacks, before), Run(INITIAL, stacks, acts), stacks, g);
      RunDisciplineProjects(stacks, engine, g, before);
      RunProjects(INITIAL, stacks, g, before);
      if g.owns(Home(last)) {
        DisciplineProjects(Run(INITIAL, stacks, before), engine, g, last);
        assert (Own(before, g) + [last])[..|Own(before, g)|] == Own(before, g);
      } else {
        assert Own(before, g) + [] == Own(before, g);
      }
    }
  }

  ghost predicate AllAcknowledged(sys: System, tp: TopicPartition) {
    forall o :: 0 <= o < |LogOf(sys, tp)| ==> Source(tp, o) in sys.store.acked
  }

  /** A single partition: once all its records are acknowledged, the stores are those of the crash-free run. */
  lemma PartitionConverges(stacks: string -> Stack, tp: TopicPartition, engine: Engine, acts: seq<Action>)
    requires stacks(tp.topic).window.window >= 0
    requires DisciplinedRun(INITIAL, stacks, engine, acts)
    requires forall i :: 0 <= i < |acts| ==> Home(acts[i]) == tp
    requires AllAcknowledged(Run(INITIAL, stacks, acts), tp)
    ensures
      var sys := Run(INITIAL, stacks, acts);
      Converged(sys.store, CrashFree(stacks(tp.topic), tp, LogOf(sys, tp), engine))
  {
    var n, progress := RunOnTrack(stacks, tp, engine, acts);
    AllDone(Run(INITIAL, stacks, acts), tp, stacks(tp.topic), engine, n, progress);
  }

  lemma AllDone(sys: System, tp: TopicPartition, stack: Stack, engine: Engine, n: nat, g: Progress)
    requires OnTrack(sys, tp, stack, engine, n, g) && AllAcknowledged(sys, tp)
    ensures Converged(sys.store, CrashFree(stack, tp, LogOf(sys, tp), engine))
  {
    assert Source(tp, n) !in Offsets(tp, n);
    assert n == |LogOf(sys, tp)|;
  }

  /** The actions of the region all lie on its one partition, and its view is their run. */
  lemma OwnRun(stacks: string -> Stack, tp: TopicPartition, engine: Engine, g: Region, acts: seq<Action>)
    requires DisciplinedIn(INITIAL, stacks, engine, g, acts)
    requires forall t :: g.owns(t) <==> t == tp
    requires TopicsSeparated(Run(INITIAL, stacks, acts), stacks, g)
    ensures
      var own, sys := Own(acts, g), Run(INITIAL, stacks, acts);
      && DisciplinedRun(INITIAL, stacks, engine, own) && View(sys, g) == Run(INITIAL, stacks, own)
      && LogOf(View(sys, g), tp) == LogOf(sys, tp)
      && forall i :: 0 <= i < |own| ==> Home(own[i]) == tp
  {
    var own := Own(acts, g);
    InitialView(g);
    RunProjects(INITIAL, stacks, g, acts);
    RunDisciplineProjects(stacks, engine, g, acts);
    forall i | 0 <= i < |own| ensures Home(own[i]) == tp {
      FilterMembers(acts, (a: Action) => g.owns(Home(a)), own[i]);
    }
  }

  /** Crash-redelivery convergence. Let workers on any number of partitions interleave, crash at any
      step and have their unacknowledged record redelivered. Once a partition that was processed one
      record at a time, and whose records share no event and no Redis key with the others, has all of
      them acknowledged, its part of the tables and of Redis is exactly what processing its log once,
      in order and without crashes, gives; only the DLT topic may repeat an envelope. Nothing is asked
      of the other partitions: there Redis may fail, a record have two workers, the engine be another. */
  lemma CrashesLeaveNoTrace(
    stacks: string -> Stack, tp: TopicPartition, engine: Engine, g: Region, acts: seq<Action>)
    requires stacks(tp.topic).window.window >= 0
    requires DisciplinedIn(INITIAL, stacks, engine, g, acts)
    requires forall t :: g.owns(t) <==> t == tp
    requires TopicsSeparated(Run(INITIAL, stacks, acts), stacks, g)
    requires AllAcknowledged(Run(INITIAL, stacks, acts), tp)
    ensures
      var sys := Run(INITIAL, stacks, acts);
      Converged(ViewStore(sys.store, g), CrashFree(stacks(tp.topic), tp, LogOf(sys, tp), engine))
  {
    var sys := Run(INITIAL, stacks, acts);
    OwnRun(stacks, tp, engine, g, acts);
    assert AllAcknowledged(View(sys, g), tp);
    PartitionConverges(stacks, tp, engine, Own(acts, g));
  }

  lemma InitialView(g: Region)
    ensures View(INITIAL, g) == INITIAL
    ensures forall stacks: string -> Stack :: TopicsSeparated(INITIAL, stacks, g)
    ensures Invariant(INITIAL)
  {
    assert Restrict<TopicPartition, seq<Message>>(map[], g.owns) == map[];
  }
}
