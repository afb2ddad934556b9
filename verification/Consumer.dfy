/** The consumer as a protocol: every database, Redis and topic access of one delivery is one atomic
    step, workers interleave freely, and a worker may die between any two steps. */
module Consumer {
  import opened Domain
  import opened RedisWindow
  import opened RuleEngine

  datatype TopicPartition = TopicPartition(topic: string, partition: nat)
  datatype Source = Source(tp: TopicPartition, offset: nat)

  /** An exception of the rule engine: class name and message. */
  datatype Failure = Failure(errorType: string, message: Option<string>)

  datatype Verdict = Evaluated(e: EngineResult) | Thrown(f: Failure)

  datatype LogRow = LogRow(src: Source, eventId: string, traceId: string, userId: string, group: string)
  datatype ResultRow = ResultRow(eventId: string, traceId: string, userId: string, accountId: string, evaluation: EngineResult)
  datatype DltRow = DltRow(src: Source, eventId: string, traceId: string, userId: string, errorType: string, errorMessage: string, payload: Message)
  datatype Envelope = Envelope(row: DltRow)

  /** The shared stores: three tables with a unique key each, the DLT topic, Redis, and the records
      whose acknowledgement was sent. */
  datatype Store = Store(
    logs: seq<LogRow>,
    results: seq<ResultRow>,
    dltRows: seq<DltRow>,
    dltTopic: seq<Envelope>,
    redis: Redis,
    acked: set<Source>
  )

  /** One deployed consumer: its window settings and its group. */
  datatype Stack = Stack(window: WindowConfig, group: string)

  // ----- Tables -----

  predicate HasLog(rows: seq<LogRow>, src: Source) { exists i :: 0 <= i < |rows| && rows[i].src == src }
  predicate HasResult(rows: seq<ResultRow>, id: string) { exists i :: 0 <= i < |rows| && rows[i].eventId == id }
  predicate HasDlt(rows: seq<DltRow>, src: Source) { exists i :: 0 <= i < |rows| && rows[i].src == src }

  /** The row a lookup by source offset finds. */
  function DltOf(rows: seq<DltRow>, src: Source): (row: DltRow)
    requires HasDlt(rows, src)
    ensures row in rows && row.src == src
  {
    if rows[0].src == src then rows[0] else
      assert HasDlt(rows[1..], src) by {
        var i :| 0 <= i < |rows| && rows[i].src == src;
        assert rows[1..][i - 1] == rows[i];
      }
      DltOf(rows[1..], src)
  }

  // Inserts under the unique key: a violation leaves the table as it is.

  function InsertLog(rows: seq<LogRow>, row: LogRow): seq<LogRow> {
    if HasLog(rows, row.src) then rows else rows + [row]
  }

  function InsertResult(rows: seq<ResultRow>, row: ResultRow): seq<ResultRow> {
    if HasResult(rows, row.eventId) then rows else rows + [row]
  }

  function InsertDlt(rows: seq<DltRow>, row: DltRow): seq<DltRow> {
    if HasDlt(rows, row.src) then rows else rows + [row]
  }

  function LogRowFor(stack: Stack, src: Source, m: Message): LogRow {
    LogRow(src, m.eventId, m.traceId, m.userId, stack.group)
  }

  function ResultRowFor(m: Message, e: EngineResult): ResultRow {
    ResultRow(m.eventId, m.traceId, m.userId, m.accountId, e)
  }

  /** A row that holds the evaluation and names the record. */
  predicate IsResultOf(row: ResultRow, m: Message, e: EngineResult) {
    && row.evaluation == e
    && row.eventId == m.eventId && row.userId == m.userId && row.traceId == m.traceId && row.accountId == m.accountId
  }

  /** `results` has become longer by the row of `e`, the first for its event. */
  ghost predicate OneResultMore(before: seq<ResultRow>, after: seq<ResultRow>, m: Message, e: EngineResult) {
    && (forall i :: 0 <= i < |before| ==> before[i].eventId != m.eventId)
    && |after| == |before| + 1 && after[..|before|] == before && IsResultOf(after[|before|], m, e)
  }

  const MAX_ERROR_MESSAGE_LENGTH := 500

  function SanitizeErrorMessage(f: Failure): string {
    if f.message.None? || IsBlank(f.message.value) then f.errorType
    else if |f.message.value| > MAX_ERROR_MESSAGE_LENGTH then f.message.value[..MAX_ERROR_MESSAGE_LENGTH]
    else f.message.value
  }

  function DltRowFor(src: Source, m: Message, f: Failure): DltRow {
    DltRow(src, m.eventId, m.traceId, m.userId, f.errorType, SanitizeErrorMessage(f), m)
  }

  // ----- One delivery -----

  /** The next access of a delivery; `Ack` is the last. */
  datatype Pc =
    | LogCheck
    | LogInsert
    | Precheck
    | Command(k: nat)
    | ReadWindow
    | Rules(w: WindowResult)
    | ResultCheck(e: EngineResult)
    | ResultInsert(e: EngineResult)
    | DltFind(f: Failure)
    | DltInsert(f: Failure)
    | DltPublish(row: DltRow)
    | Ack

  /** The access at `pc` succeeds. The engine's verdict (Rules) comes from outside. */
  ghost function Proceed(s: Store, stack: Stack, src: Source, m: Message, pc: Pc): (Store, Pc)
    requires !pc.Rules?
  {
    match pc
    case LogCheck => (s, if HasLog(s.logs, src) then Precheck else LogInsert)
    case LogInsert => (s.(logs := InsertLog(s.logs, LogRowFor(stack, src, m))), Precheck)
    case Precheck =>
      (s, if HasResult(s.results, m.eventId) then Ack
          else if IsTooLate(stack.window, m) then Rules(TooLate)
          else Pc.Command(0))
    case Command(k) =>
      (s.(redis := RedisWindow.Command(s.redis, stack.window, m, k)),
       if k + 1 < COMMANDS then Pc.Command(k + 1) else ReadWindow)
    case ReadWindow => (s, Rules(Read(s.redis, stack.window, m)))
    case ResultCheck(e) => (s, if HasResult(s.results, m.eventId) then Ack else ResultInsert(e))
    case ResultInsert(e) => (s.(results := InsertResult(s.results, ResultRowFor(m, e))), Ack)
    case DltFind(f) => (s, if HasDlt(s.dltRows, src) then DltPublish(DltOf(s.dltRows, src)) else DltInsert(f))
    case DltInsert(f) =>
      var rows := InsertDlt(s.dltRows, DltRowFor(src, m, f));
      assert HasDlt(rows, src) by { if !HasDlt(s.dltRows, src) { assert rows[|s.dltRows|].src == src; } }
      (s.(dltRows := rows), DltPublish(DltOf(rows, src)))
    case DltPublish(row) => (s.(dltTopic := s.dltTopic + [Envelope(row)]), Ack)
    case Ack => (s.(acked := s.acked + {src}), Ack)
  }

  // ----- The system -----

  /** A consumer instance assigned to a partition; after a rebalance several may hold it for a while. */
  datatype Worker = Worker(tp: TopicPartition, instance: nat)

  /** `redisFailed` remembers that a Redis access of this delivery was answered as degraded. */
  datatype Task = Task(src: Source, m: Message, pc: Pc, redisFailed: bool)

  datatype System = System(topics: map<TopicPartition, seq<Message>>, store: Store, tasks: map<Worker, Task>)

  datatype Action =
    | Produce(tp: TopicPartition, m: Message)      // a record is appended to the topic
    | Deliver(w: Worker, offset: nat)              // a record is handed to an idle worker
    | Step(w: Worker)                              // the worker's next access succeeds
    | Decide(w: Worker, verdict: Verdict)          // the rule engine returns or throws
    | RedisFails(w: Worker)                        // a Redis access throws and is answered as degraded
    | PublishFails(w: Worker, written: bool)       // the DLT send throws, possibly after being written
    | Crash(w: Worker)                             // any other exception, or the process dies

  function LogOf(sys: System, tp: TopicPartition): seq<Message> {
    if tp in sys.topics then sys.topics[tp] else []
  }

  /** What an action does; one that is not enabled does nothing. */
  ghost function Act(sys: System, stacks: string -> Stack, a: Action): System {
    match a
    case Produce(tp, m) => sys.(topics := sys.topics[tp := LogOf(sys, tp) + [m]])
    case Deliver(w, offset) =>
      if w in sys.tasks || offset >= |LogOf(sys, w.tp)| then sys
      else sys.(tasks := sys.tasks[w := Task(Source(w.tp, offset), LogOf(sys, w.tp)[offset], LogCheck, false)])
    case Step(w) =>
      if w !in sys.tasks || sys.tasks[w].pc.Rules? then sys
      else
        var t := sys.tasks[w];
        var (s, pc) := Proceed(sys.store, stacks(w.tp.topic), t.src, t.m, t.pc);
        sys.(store := s, tasks := if t.pc == Ack then sys.tasks - {w} else sys.tasks[w := t.(pc := pc)])
    case Decide(w, verdict) =>
      if w !in sys.tasks || !sys.tasks[w].pc.Rules? then sys
      else
        var pc := match verdict case Evaluated(e) => ResultCheck(e) case Thrown(f) => DltFind(f);
        sys.(tasks := sys.tasks[w := sys.tasks[w].(pc := pc)])
    case RedisFails(w) =>
      if w !in sys.tasks || !(sys.tasks[w].pc.Command? || sys.tasks[w].pc.ReadWindow?) then sys
      else sys.(tasks := sys.tasks[w := sys.tasks[w].(pc := Rules(RedisUnavailable), redisFailed := true)])
    case PublishFails(w, written) =>
      if w !in sys.tasks || !sys.tasks[w].pc.DltPublish? then sys
      else
        var topic := sys.store.dltTopic + if written then [Envelope(sys.tasks[w].pc.row)] else [];
        sys.(store := sys.store.(dltTopic := topic), tasks := sys.tasks - {w})
    case Crash(w) => sys.(tasks := sys.tasks - {w})
  }

  ghost function Run(sys: System, stacks: string -> Stack, acts: seq<Action>): System {
    if acts == [] then sys else Act(Run(sys, stacks, acts[..|acts| - 1]), stacks, acts[|acts| - 1])
  }

  const INITIAL := System(map[], Store([], [], [], [], EMPTY, {}), map[])
}
