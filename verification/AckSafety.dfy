/** What holds in every state the consumers can reach, however their steps interleave, whatever is
    redelivered and wherever they die. */
module AckSafety {
  import opened Domain
  import opened RedisWindow
  import opened RuleEngine
  import opened Consumer

  ghost predicate UniqueKeys(s: Store) {
    && (forall i, j :: 0 <= i < j < |s.logs| ==> s.logs[i].src != s.logs[j].src)
    && (forall i, j :: 0 <= i < j < |s.results| ==> s.results[i].eventId != s.results[j].eventId)
    && (forall i, j :: 0 <= i < j < |s.dltRows| ==> s.dltRows[i].src != s.dltRows[j].src)
  }

  ghost predicate IsRecord(sys: System, src: Source, m: Message) {
    src.offset < |LogOf(sys, src.tp)| && LogOf(sys, src.tp)[src.offset] == m
  }

  ghost predicate Enveloped(s: Store, src: Source) {
    exists i :: 0 <= i < |s.dltTopic| && s.dltTopic[i].row.src == src
  }

  /** The record is either decided or dead-lettered, with its envelope on the DLT topic. */
  ghost predicate Handled(s: Store, src: Source, m: Message) {
    HasLog(s.logs, src) && (HasResult(s.results, m.eventId) || (HasDlt(s.dltRows, src) && Enveloped(s, src)))
  }

  ghost predicate TaskOk(sys: System, w: Worker, t: Task) {
    && t.src.tp == w.tp && IsRecord(sys, t.src, t.m)
    && (!t.pc.LogCheck? && !t.pc.LogInsert? ==> HasLog(sys.store.logs, t.src))
    && (t.pc.DltPublish? ==> t.pc.row.src == t.src && t.pc.row in sys.store.dltRows)
    && (t.pc.Ack? ==> Handled(sys.store, t.src, t.m))
  }

  ghost predicate RowsFaithful(sys: System) {
    && (forall i :: 0 <= i < |sys.store.logs| ==> LogRowFaithful(sys, sys.store.logs[i]))
    && (forall i :: 0 <= i < |sys.store.results| ==> ResultRowFaithful(sys, sys.store.results[i]))
    && (forall i :: 0 <= i < |sys.store.dltRows| ==> IsDltOfRecord(sys, sys.store.dltRows[i]))
    && (forall i :: 0 <= i < |sys.store.dltTopic| ==> sys.store.dltTopic[i].row in sys.store.dltRows)
  }

  ghost predicate LogRowFaithful(sys: System, row: LogRow) {
    exists m :: LogRowTells(sys, row, m)
  }

  ghost predicate ResultRowFaithful(sys: System, row: ResultRow) {
    exists src, m :: ResultRowTells(sys, row, src, m)
  }

  /** The acknowledged record is one of the topic, and it is handled. */
  ghost predicate AckJustified(sys: System, src: Source) {
    exists m :: IsRecord(sys, src, m) && Handled(sys.store, src, m)
  }

  ghost predicate LogRowTells(sys: System, row: LogRow, m: Message) {
    IsRecord(sys, row.src, m) && row.eventId == m.eventId && row.userId == m.userId && row.traceId == m.traceId
  }

  ghost predicate ResultRowTells(sys: System, row: ResultRow, src: Source, m: Message) {
    && IsRecord(sys, src, m) && row.eventId == m.eventId && row.userId == m.userId
    && row.traceId == m.traceId && row.accountId == m.accountId
  }

  ghost predicate IsDltOfRecord(sys: System, row: DltRow) {
    && IsRecord(sys, row.src, row.payload)
    && row.eventId == row.payload.eventId && row.userId == row.payload.userId && row.traceId == row.payload.traceId
  }

  ghost predicate Invariant(sys: System) {
    && UniqueKeys(sys.store)
    && RowsFaithful(sys)
    && (forall w :: w in sys.tasks ==> TaskOk(sys, w, sys.tasks[w]))
    && (forall src :: src in sys.store.acked ==> AckJustified(sys, src))
  }

  /** Nothing that was written is ever rewritten. */
  ghost predicate Extends(a: System, b: System) {
    && a.store.logs <= b.store.logs && a.store.results <= b.store.results
    && a.store.dltRows <= b.store.dltRows && a.store.dltTopic <= b.store.dltTopic
    && a.store.acked <= b.store.acked
    && forall tp :: LogOf(a, tp) <= LogOf(b, tp)
  }

  lemma ActExtends(sys: System, stacks: string -> Stack, a: Action)
    ensures Extends(sys, Act(sys, stacks, a))
  {
  }

  lemma RecordsPersist(a: System, b: System)
    requires Extends(a, b)
    ensures forall src, m :: IsRecord(a, src, m) ==> IsRecord(b, src, m)
    ensures forall row :: LogRowFaithful(a, row) ==> LogRowFaithful(b, row)
    ensures forall row :: ResultRowFaithful(a, row) ==> ResultRowFaithful(b, row)
    ensures forall row :: IsDltOfRecord(a, row) ==> IsDltOfRecord(b, row)
  {
    forall src, m | IsRecord(a, src, m) ensures IsRecord(b, src, m) {
      assert LogOf(a, src.tp) <= LogOf(b, src.tp);
    }
    forall row | LogRowFaithful(a, row) ensures LogRowFaithful(b, row) {
      var m :| LogRowTells(a, row, m);
      assert LogRowTells(b, row, m);
    }
    forall row | ResultRowFaithful(a, row) ensures ResultRowFaithful(b, row) {
      var src, m :| ResultRowTells(a, row, src, m);
      assert ResultRowTells(b, row, src, m);
    }
  }

  lemma HandlingPersists(a: Store, b: Store, src: Source, m: Message)
    requires a.logs <= b.logs && a.results <= b.results && a.dltRows <= b.dltRows && a.dltTopic <= b.dltTopic
    ensures HasLog(a.logs, src) ==> HasLog(b.logs, src)
    ensures Handled(a, src, m) ==> Handled(b, src, m)
  {
    forall i | 0 <= i < |a.logs| ensures b.logs[i] == a.logs[i] {}
    forall i | 0 <= i < |a.results| ensures b.results[i] == a.results[i] {}
    forall i | 0 <= i < |a.dltRows| ensures b.dltRows[i] == a.dltRows[i] {}
    forall i | 0 <= i < |a.dltTopic| ensures b.dltTopic[i] == a.dltTopic[i] {}
  }

  lemma TaskPersists(a: System, b: System, w: Worker, t: Task)
    requires Extends(a, b) && TaskOk(a, w, t)
    ensures TaskOk(b, w, t)
  {
    RecordsPersist(a, b);
    HandlingPersists(a.store, b.store, t.src, t.m);
    if t.pc.DltPublish? {
      var i :| 0 <= i < |a.store.dltRows| && a.store.dltRows[i] == t.pc.row;
      assert b.store.dltRows[i] == a.store.dltRows[i];
    }
  }

  /** The rows an access may add keep the tables faithful to the topics. */
  lemma RowsStayFaithful(a: System, b: System, w: Worker)
    requires RowsFaithful(a) && Extends(a, b) && a.topics == b.topics
    requires w in a.tasks && TaskOk(a, w, a.tasks[w])
    requires b.store.logs == a.store.logs ||
             (exists g :: b.store.logs == a.store.logs + [LogRow(a.tasks[w].src, a.tasks[w].m.eventId, a.tasks[w].m.traceId, a.tasks[w].m.userId, g)])
    requires b.store.results == a.store.results ||
             (exists e :: b.store.results == a.store.results + [ResultRowFor(a.tasks[w].m, e)])
    requires b.store.dltRows == a.store.dltRows ||
             (exists f :: b.store.dltRows == a.store.dltRows + [DltRowFor(a.tasks[w].src, a.tasks[w].m, f)])
    requires b.store.dltTopic == a.store.dltTopic ||
             (exists row :: row in a.store.dltRows && b.store.dltTopic == a.store.dltTopic + [Envelope(row)])
    ensures RowsFaithful(b)
  {
    RecordsPersist(a, b);
    var t := a.tasks[w];
    forall i | 0 <= i < |b.store.logs| ensures LogRowFaithful(b, b.store.logs[i]) {
      if i < |a.store.logs| {
        assert LogRowFaithful(a, a.store.logs[i]);
      } else {
        assert LogRowTells(b, b.store.logs[i], t.m);
      }
    }
    forall i | 0 <= i < |b.store.results| ensures ResultRowFaithful(b, b.store.results[i]) {
      if i < |a.store.results| {
        assert ResultRowFaithful(a, a.store.results[i]);
      } else {
        assert ResultRowTells(b, b.store.results[i], t.src, t.m);
      }
    }
    forall i | 0 <= i < |b.store.dltRows| ensures IsDltOfRecord(b, b.store.dltRows[i]) {
      if i < |a.store.dltRows| {
        assert IsDltOfRecord(a, a.store.dltRows[i]);
      } else {
        assert b.store.dltRows[i].payload == t.m;
      }
    }
    forall i | 0 <= i < |b.store.dltTopic| ensures b.store.dltTopic[i].row in b.store.dltRows {
      var row := b.store.dltTopic[i].row;
      assert row in a.store.dltRows by {
        if i < |a.store.dltTopic| { assert a.store.dltTopic[i].row == row; }
      }
      var j :| 0 <= j < |a.store.dltRows| && a.store.dltRows[j] == row;
      assert b.store.dltRows[j] == row;
    }
  }

  /** One successful access keeps unique keys and adds at most one row. */
  lemma ProceedFacts(s: Store, stack: Stack, src: Source, m: Message, pc: Pc)
    requires UniqueKeys(s) && !pc.Rules?
    ensures
      var (s', pc') := Proceed(s, stack, src, m, pc);
      && UniqueKeys(s')
      && (s'.logs == s.logs || s'.logs == s.logs + [LogRowFor(stack, src, m)])
      && (s'.results == s.results || (pc.ResultInsert? && s'.results == s.results + [ResultRowFor(m, pc.e)]))
      && (s'.dltRows == s.dltRows || (pc.DltInsert? && s'.dltRows == s.dltRows + [DltRowFor(src, m, pc.f)]))
      && (s'.dltTopic == s.dltTopic || (pc.DltPublish? && s'.dltTopic == s.dltTopic + [Envelope(pc.row)]))
  {
  }

  /** What the worker may rely on after its access. */
  lemma ProceedReaches(s: Store, stack: Stack, src: Source, m: Message, pc: Pc)
    requires UniqueKeys(s) && !pc.Rules?
    requires !pc.LogCheck? && !pc.LogInsert? ==> HasLog(s.logs, src)
    requires pc.DltPublish? ==> pc.row.src == src && pc.row in s.dltRows
    requires pc.Ack? ==> Handled(s, src, m)
    ensures
      var (s', pc') := Proceed(s, stack, src, m, pc);
      && (!pc'.LogCheck? && !pc'.LogInsert? ==> HasLog(s'.logs, src))
      && (pc'.DltPublish? ==> pc'.row.src == src && pc'.row in s'.dltRows)
      && (pc'.Ack? ==> Handled(s', src, m))
  {
    var (s', pc') := Proceed(s, stack, src, m, pc);
    match pc
    case LogInsert =>
      if !HasLog(s.logs, src) { assert s'.logs[|s.logs|].src == src; }
    case ResultInsert(e) =>
      if !HasResult(s.results, m.eventId) { assert s'.results[|s.results|].eventId == m.eventId; }
    case DltPublish(row) =>
      var i :| 0 <= i < |s.dltRows| && s.dltRows[i] == row;
      assert s.dltRows[i].src == src;
      assert s'.dltTopic[|s.dltTopic|].row.src == src;
    case _ =>
  }

  lemma AckedStaysHandled(a: System, b: System)
    requires Invariant(a) && Extends(a, b)
    requires forall src :: src in b.store.acked && src !in a.store.acked ==> AckJustified(b, src)
    ensures forall src :: src in b.store.acked ==> AckJustified(b, src)
  {
    RecordsPersist(a, b);
    forall src | src in b.store.acked ensures AckJustified(b, src) {
      if src in a.store.acked {
        assert AckJustified(a, src);
        var m :| IsRecord(a, src, m) && Handled(a.store, src, m);
        HandlingPersists(a.store, b.store, src, m);
      }
    }
  }

  /** Workers that an action does not touch keep their guarantees. */
  lemma OtherTasksStayOk(a: System, b: System, w: Worker)
    requires Invariant(a) && Extends(a, b)
    requires forall v :: v in b.tasks && v != w ==> v in a.tasks && b.tasks[v] == a.tasks[v]
    ensures forall v :: v in b.tasks && v != w ==> TaskOk(b, v, b.tasks[v])
  {
    forall v | v in b.tasks && v != w ensures TaskOk(b, v, b.tasks[v]) {
      TaskPersists(a, b, v, a.tasks[v]);
    }
  }

  lemma StepKeepsRows(sys: System, stacks: string -> Stack, w: Worker)
    requires Invariant(sys) && w in sys.tasks && !sys.tasks[w].pc.Rules?
    ensures
      var b := Act(sys, stacks, Action.Step(w));
      UniqueKeys(b.store) && RowsFaithful(b)
  {
    var t, b := sys.tasks[w], Act(sys, stacks, Action.Step(w));
    ActExtends(sys, stacks, Action.Step(w));
    assert TaskOk(sys, w, t);
    ProceedFacts(sys.store, stacks(w.tp.topic), t.src, t.m, t.pc);
    RowsStayFaithful(sys, b, w);
  }

  lemma StepKeepsTasks(sys: System, stacks: string -> Stack, w: Worker)
    requires Invariant(sys) && w in sys.tasks && !sys.tasks[w].pc.Rules?
    ensures
      var b := Act(sys, stacks, Action.Step(w));
      forall v :: v in b.tasks ==> TaskOk(b, v, b.tasks[v])
  {
    var t, b := sys.tasks[w], Act(sys, stacks, Action.Step(w));
    ActExtends(sys, stacks, Action.Step(w));
    OtherTasksStayOk(sys, b, w);
    RecordsPersist(sys, b);
    assert TaskOk(sys, w, t);
    ProceedReaches(sys.store, stacks(w.tp.topic), t.src, t.m, t.pc);
  }

  lemma StepKeepsAcked(sys: System, stacks: string -> Stack, w: Worker)
    requires Invariant(sys) && w in sys.tasks && !sys.tasks[w].pc.Rules?
    ensures
      var b := Act(sys, stacks, Action.Step(w));
      forall src :: src in b.store.acked ==> AckJustified(b, src)
  {
    var t, b := sys.tasks[w], Act(sys, stacks, Action.Step(w));
    ActExtends(sys, stacks, Action.Step(w));
    assert TaskOk(sys, w, t);
    if t.pc == Ack {
      RecordsPersist(sys, b);
      HandlingPersists(sys.store, b.store, t.src, t.m);
      assert AckJustified(b, t.src);
    }
    AckedStaysHandled(sys, b);
  }

  lemma StepKeeps(sys: System, stacks: string -> Stack, w: Worker)
    requires Invariant(sys) && w in sys.tasks && !sys.tasks[w].pc.Rules?
    ensures Invariant(Act(sys, stacks, Action.Step(w)))
  {
    StepKeepsRows(sys, stacks, w);
    StepKeepsTasks(sys, stacks, w);
    StepKeepsAcked(sys, stacks, w);
  }

  /** An action that leaves the stores alone. */
  lemma QuietKeeps(a: System, b: System, w: Worker)
    requires Invariant(a) && Extends(a, b) && b.store == a.store
    requires forall v :: v in b.tasks && v != w ==> v in a.tasks && b.tasks[v] == a.tasks[v]
    requires w in b.tasks ==> TaskOk(b, w, b.tasks[w])
    ensures Invariant(b)
  {
    OtherTasksStayOk(a, b, w);
    RecordsPersist(a, b);
    AckedStaysHandled(a, b);
  }

  lemma ProduceKeeps(sys: System, stacks: string -> Stack, a: Action)
    requires Invariant(sys) && a.Produce?
    ensures Invariant(Act(sys, stacks, a))
  {
    var b, w := Act(sys, stacks, a), Worker(a.tp, 0);
    ActExtends(sys, stacks, a);
    if w in b.tasks {
      TaskPersists(sys, b, w, sys.tasks[w]);
    }
    QuietKeeps(sys, b, w);
  }

  lemma PublishFailsKeeps(sys: System, stacks: string -> Stack, a: Action)
    requires Invariant(sys) && a.PublishFails? && a.w in sys.tasks
    ensures Invariant(Act(sys, stacks, a))
  {
    var b := Act(sys, stacks, a);
    ActExtends(sys, stacks, a);
    assert TaskOk(sys, a.w, sys.tasks[a.w]);
    RowsStayFaithful(sys, b, a.w);
    OtherTasksStayOk(sys, b, a.w);
    AckedStaysHandled(sys, b);
  }

  lemma DeliverKeeps(sys: System, stacks: string -> Stack, w: Worker, offset: nat)
    requires Invariant(sys)
    ensures Invariant(Act(sys, stacks, Deliver(w, offset)))
  {
    ActExtends(sys, stacks, Deliver(w, offset));
    if w in sys.tasks { assert TaskOk(sys, w, sys.tasks[w]); }
    QuietKeeps(sys, Act(sys, stacks, Deliver(w, offset)), w);
  }

  lemma DecideKeeps(sys: System, stacks: string -> Stack, w: Worker, verdict: Verdict)
    requires Invariant(sys)
    ensures Invariant(Act(sys, stacks, Decide(w, verdict)))
  {
    ActExtends(sys, stacks, Decide(w, verdict));
    if w in sys.tasks { assert TaskOk(sys, w, sys.tasks[w]); }
    QuietKeeps(sys, Act(sys, stacks, Decide(w, verdict)), w);
  }

  lemma RedisFailsKeeps(sys: System, stacks: string -> Stack, w: Worker)
    requires Invariant(sys)
    ensures Invariant(Act(sys, stacks, RedisFails(w)))
  {
    ActExtends(sys, stacks, RedisFails(w));
    if w in sys.tasks { assert TaskOk(sys, w, sys.tasks[w]); }
    QuietKeeps(sys, Act(sys, stacks, RedisFails(w)), w);
  }

  lemma CrashKeeps(sys: System, stacks: string -> Stack, w: Worker)
    requires Invariant(sys)
    ensures Invariant(Act(sys, stacks, Crash(w)))
  {
    ActExtends(sys, stacks, Crash(w));
    QuietKeeps(sys, Act(sys, stacks, Crash(w)), w);
  }

  lemma ActKeeps(sys: System, stacks: string -> Stack, a: Action)
    requires Invariant(sys)
    ensures Invariant(Act(sys, stacks, a))
  {
    if a.Produce? {
      ProduceKeeps(sys, stacks, a);
    } else if a.Step? {
      if a.w in sys.tasks && !sys.tasks[a.w].pc.Rules? { StepKeeps(sys, stacks, a.w); }
    } else if a.PublishFails? {
      if a.w in sys.tasks { PublishFailsKeeps(sys, stacks, a); }
    } else if a.Deliver? {
      DeliverKeeps(sys, stacks, a.w, a.offset);
    } else if a.Decide? {
      DecideKeeps(sys, stacks, a.w, a.verdict);
    } else if a.RedisFails? {
      RedisFailsKeeps(sys, stacks, a.w);
    } else {
      CrashKeeps(sys, stacks, a.w);
    }
  }

  lemma {:induction false} Reachable(sys: System, stacks: string -> Stack, acts: seq<Action>)
    requires Invariant(sys)
    ensures Invariant(Run(sys, stacks, acts))
    decreases |acts|
  {
    if acts == [] {
    } else {
      var before := acts[..|acts| - 1];
      Reachable(sys, stacks, before);
      ActKeeps(Run(sys, stacks, before), stacks, acts[|acts| - 1]);
    }
  }

  // ----- Main results -----

  /** The number of rows of the processing log for a source offset. */
  function LogCount(rows: seq<LogRow>, src: Source): nat {
    if rows == [] then 0 else LogCount(rows[..|rows| - 1], src) + if rows[|rows| - 1].src == src then 1 else 0
  }

  lemma {:induction false} OneRow(rows: seq<LogRow>, src: Source)
    requires forall i, j :: 0 <= i < j < |rows| ==> rows[i].src != rows[j].src
    ensures LogCount(rows, src) == if HasLog(rows, src) then 1 else 0
    decreases |rows|
  {
    if rows == [] {
    } else {
      var before := rows[..|rows| - 1];
      OneRow(before, src);
      if HasLog(before, src) {
        var i :| 0 <= i < |before| && before[i].src == src;
        assert rows[i].src == src;
      }
      if rows[|rows| - 1].src != src && HasLog(rows, src) {
        var i :| 0 <= i < |rows| && rows[i].src == src;
        assert before[i].src == src;
      }
    }
  }

  /** Ack safety: after any run from the empty system, an acknowledged record has exactly one row in
      the processing log, and either a result for its event or a DLT row for its offset whose envelope
      is on the DLT topic. */
  lemma AckSafety(stacks: string -> Stack, acts: seq<Action>, src: Source)
    requires src in Run(INITIAL, stacks, acts).store.acked
    ensures
      var sys := Run(INITIAL, stacks, acts);
      exists m :: IsRecord(sys, src, m)
        && LogCount(sys.store.logs, src) == 1
        && (HasResult(sys.store.results, m.eventId) || (HasDlt(sys.store.dltRows, src) && Enveloped(sys.store, src)))
  {
    var sys := Run(INITIAL, stacks, acts);
    Reachable(INITIAL, stacks, acts);
    var m :| IsRecord(sys, src, m) && Handled(sys.store, src, m);
    OneRow(sys.store.logs, src);
  }

  /** First writer wins: an event has at most one result, it describes a record of that event, and
      no further action changes it. */
  lemma FirstWriterWins(stacks: string -> Stack, acts: seq<Action>, more: seq<Action>, i: nat)
    requires i < |Run(INITIAL, stacks, acts).store.results|
    ensures
      var now, later := Run(INITIAL, stacks, acts), Run(Run(INITIAL, stacks, acts), stacks, more);
      var row := now.store.results[i];
      && i < |later.store.results| && later.store.results[i] == row
      && (forall j :: 0 <= j < |later.store.results| && later.store.results[j].eventId == row.eventId ==> j == i)
      && exists src, m :: ResultRowTells(now, row, src, m)
  {
    Reachable(INITIAL, stacks, acts);
    Reachable(Run(INITIAL, stacks, acts), stacks, more);
    RunExtends(Run(INITIAL, stacks, acts), stacks, more);
  }

  lemma {:induction false} RunExtends(sys: System, stacks: string -> Stack, acts: seq<Action>)
    ensures Extends(sys, Run(sys, stacks, acts))
    decreases |acts|
  {
    if acts == [] {
    } else {
      var before := acts[..|acts| - 1];
      RunExtends(sys, stacks, before);
      ActExtends(Run(sys, stacks, before), stacks, acts[|acts| - 1]);
      ExtendsTransitive(sys, Run(sys, stacks, before), Run(sys, stacks, acts));
    }
  }

  lemma ExtendsTransitive(a: System, b: System, c: System)
    requires Extends(a, b) && Extends(b, c)
    ensures Extends(a, c)
  {
    forall tp ensures LogOf(a, tp) <= LogOf(c, tp) {
      assert LogOf(a, tp) <= LogOf(b, tp) && LogOf(b, tp) <= LogOf(c, tp);
    }
  }
}
