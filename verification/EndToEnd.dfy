/** Intake, consumers and operators on shared tables and topics. */
module EndToEnd {
  import opened Counting
  import opened Domain
  import opened RedisWindow
  import Intake
  import opened Consumer
  import AckSafety
  import DltAdmin

  /** How the system is deployed: the stack that reads each topic, the partitioner of the record key,
      and the limit on reprocess attempts. */
  datatype Setup = Setup(stacks: string -> Stack, partitionOf: string -> nat, maxAttempts: int)

  datatype World = World(intake: Intake.State, consumer: System, admin: DltAdmin.State)

  datatype Event =
    | Receive(intake: Intake.Action)
    | Consume(action: Action)
    | Operate(call: DltAdmin.Call)

  const START := World(Intake.EMPTY, INITIAL, DltAdmin.State([], [], [], []))

  /** Records are keyed by user. */
  function Place(u: Setup, topic: string, m: Message): TopicPartition {
    TopicPartition(topic, u.partitionOf(m.userId))
  }

  /** The admin side's reading of a row the consumer wrote. */
  function EntryFor(row: DltRow): DltAdmin.Entry {
    DltAdmin.Entry(row.eventId, row.src.tp.topic, Some(row.payload), DltAdmin.Pending, 0, None, None, None, row.payload.receivedAt)
  }

  // ----- What an event makes each part do -----

  /** The record, if any, that an event puts on a topic. */
  ghost function Emitted(u: Setup, w: World, e: Event): seq<Action> {
    match e
    case Receive(a) =>
      var sent := Intake.Act(w.intake, a).sent;
      if |sent| > |w.intake.sent| then [Produce(Place(u, sent[|sent| - 1].topic, sent[|sent| - 1].m), sent[|sent| - 1].m)] else []
    case Consume(a) => if a.Produce? then [] else [a]
    case Operate(call) =>
      if call.Create? then []
      else
        var copies := DltAdmin.Serve(u.maxAttempts, w.admin, call).0.copies;
        if |copies| > |w.admin.copies|
        then [Produce(Place(u, copies[|copies| - 1].topic, copies[|copies| - 1].m), copies[|copies| - 1].m)] else []
  }

  /** The call, if any, that an event is to the admin side: a new row is a Create. */
  ghost function AdminCall(u: Setup, w: World, e: Event): seq<DltAdmin.Call> {
    match e
    case Receive(_) => []
    case Consume(a) =>
      var rows := Perform(u, w.consumer, Emitted(u, w, e)).store.dltRows;
      if |rows| > |w.consumer.store.dltRows| then [DltAdmin.Create(EntryFor(rows[|rows| - 1]))] else []
    case Operate(call) => if call.Create? then [] else [call]
  }

  ghost function Perform(u: Setup, sys: System, acts: seq<Action>): System {
    if acts == [] then sys else Act(sys, u.stacks, acts[0])
  }

  ghost function Next(u: Setup, w: World, e: Event): World {
    var calls := AdminCall(u, w, e);
    World(if e.Receive? then Intake.Act(w.intake, e.intake) else w.intake,
          Perform(u, w.consumer, Emitted(u, w, e)),
          if calls == [] then w.admin else DltAdmin.Serve(u.maxAttempts, w.admin, calls[0]).0)
  }

  ghost function Run(u: Setup, events: seq<Event>): World {
    if events == [] then START else Next(u, Run(u, events[..|events| - 1]), events[|events| - 1])
  }

  // ----- The run of each part -----

  ghost function IntakeTrace(events: seq<Event>): seq<Intake.Action> {
    if events == [] then []
    else
      var last := events[|events| - 1];
      IntakeTrace(events[..|events| - 1]) + if last.Receive? then [last.intake] else []
  }

  ghost function ConsumerTrace(u: Setup, events: seq<Event>): seq<Action> {
    if events == [] then []
    else
      var before := events[..|events| - 1];
      ConsumerTrace(u, before) + Emitted(u, Run(u, before), events[|events| - 1])
  }

  ghost function AdminTrace(u: Setup, events: seq<Event>): seq<DltAdmin.Call> {
    if events == [] then []
    else
      var before := events[..|events| - 1];
      AdminTrace(u, before) + AdminCall(u, Run(u, before), events[|events| - 1])
  }

  lemma {:induction false} PartsRunOnTheirOwn(u: Setup, events: seq<Event>)
    ensures
      var w := Run(u, events);
      && w.intake == Intake.Run(Intake.EMPTY, IntakeTrace(events))
      && w.consumer == Consumer.Run(INITIAL, u.stacks, ConsumerTrace(u, events))
      && w.admin == DltAdmin.Run(u.maxAttempts, AdminTrace(u, events))
    decreases |events|
  {
    if events == [] {
    } else {
      var before, last := events[..|events| - 1], events[|events| - 1];
      PartsRunOnTheirOwn(u, before);
      IntakeSnoc(IntakeTrace(before), if last.Receive? then [last.intake] else []);
      ConsumerSnoc(u, ConsumerTrace(u, before), Emitted(u, Run(u, before), last));
      AdminSnoc(u, AdminTrace(u, before), AdminCall(u, Run(u, before), last));
    }
  }

  lemma IntakeSnoc(acts: seq<Intake.Action>, more: seq<Intake.Action>)
    requires |more| <= 1
    ensures Intake.Run(Intake.EMPTY, acts + more) ==
      if more == [] then Intake.Run(Intake.EMPTY, acts) else Intake.Act(Intake.Run(Intake.EMPTY, acts), more[0])
  {
    if more == [] { assert acts + more == acts; } else { assert (acts + more)[..|acts|] == acts; }
  }

  lemma ConsumerSnoc(u: Setup, acts: seq<Action>, more: seq<Action>)
    requires |more| <= 1
    ensures Consumer.Run(INITIAL, u.stacks, acts + more) == Perform(u, Consumer.Run(INITIAL, u.stacks, acts), more)
  {
    if more == [] { assert acts + more == acts; } else { assert (acts + more)[..|acts|] == acts; }
  }

  lemma AdminSnoc(u: Setup, calls: seq<DltAdmin.Call>, more: seq<DltAdmin.Call>)
    requires |more| <= 1
    ensures DltAdmin.Run(u.maxAttempts, calls + more) ==
      if more == [] then DltAdmin.Run(u.maxAttempts, calls)
      else DltAdmin.Serve(u.maxAttempts, DltAdmin.Run(u.maxAttempts, calls), more[0]).0
  {
    if more == [] { assert calls + more == calls; } else { assert (calls + more)[..|calls|] == calls; }
  }

  // ----- Invariant -----

  /** Row by row, the admin side holds what the consumer wrote. */
  ghost predicate Linked(w: World) {
    && |w.admin.entries| == |w.consumer.store.dltRows|
    && forall i :: 0 <= i < |w.admin.entries| ==>
         DltAdmin.SameRecord(EntryFor(w.consumer.store.dltRows[i]), w.admin.entries[i])
  }

  /** Some intake send put that very message on that topic. */
  ghost predicate FromIntake(w: World, topic: string, m: Message) {
    exists i :: 0 <= i < |w.intake.sent| && w.intake.sent[i] == Intake.Sent(topic, m)
  }

  /** Every record lies where its key places it and repeats an intake send to the same topic. */
  ghost predicate RecordsHaveOrigin(u: Setup, w: World) {
    forall tp, i :: 0 <= i < |LogOf(w.consumer, tp)| ==> HasOrigin(u, w, tp, LogOf(w.consumer, tp)[i])
  }

  ghost predicate HasOrigin(u: Setup, w: World, tp: TopicPartition, m: Message) {
    Place(u, tp.topic, m) == tp && FromIntake(w, tp.topic, m)
  }

  ghost predicate Invariant(u: Setup, w: World) {
    && Intake.Invariant(w.intake) && AckSafety.Invariant(w.consumer) && DltAdmin.Invariant(u.maxAttempts, w.admin)
    && Linked(w) && RecordsHaveOrigin(u, w)
  }

  lemma Starts(u: Setup)
    ensures Invariant(u, START)
  {
    Intake.Reachable([]);
    DltAdmin.Reachable(u.maxAttempts, []);
  }

  // ----- Each event keeps the invariant -----

  lemma SentGrows(s: Intake.State, a: Intake.Action)
    ensures
      var n := Intake.Act(s, a);
      n.sent == s.sent || (|n.sent| == |s.sent| + 1 && n.sent[..|s.sent|] == s.sent)
  {
  }

  lemma OriginsPersist(w: World, n: World)
    requires w.intake.sent <= n.intake.sent
    ensures forall topic, m :: FromIntake(w, topic, m) ==> FromIntake(n, topic, m)
  {
    forall topic, m | FromIntake(w, topic, m) ensures FromIntake(n, topic, m) {
      var i :| 0 <= i < |w.intake.sent| && w.intake.sent[i] == Intake.Sent(topic, m);
      assert n.intake.sent[i] == w.intake.sent[i];
    }
  }

  /** A new record with an origin leaves every record with one. */
  lemma ProducedHasOrigin(u: Setup, w: World, n: World, emitted: seq<Action>)
    requires RecordsHaveOrigin(u, w) && w.intake.sent <= n.intake.sent
    requires |emitted| <= 1 && n.consumer == Perform(u, w.consumer, emitted)
    requires forall a :: a in emitted && a.Produce? ==> HasOrigin(u, n, a.tp, a.m)
    ensures RecordsHaveOrigin(u, n)
  {
    OriginsPersist(w, n);
    forall tp, i | 0 <= i < |LogOf(n.consumer, tp)| ensures HasOrigin(u, n, tp, LogOf(n.consumer, tp)[i]) {
      if i < |LogOf(w.consumer, tp)| {
        assert HasOrigin(u, w, tp, LogOf(w.consumer, tp)[i]);
        assert emitted != [] ==> LogOf(w.consumer, tp) <= LogOf(n.consumer, tp);
      } else {
        assert emitted[0] in emitted && emitted[0].Produce?;
      }
    }
  }

  lemma ReceiveKeeps(u: Setup, w: World, e: Event)
    requires Invariant(u, w) && e.Receive?
    ensures Invariant(u, Next(u, w, e))
  {
    var n, emitted := Next(u, w, e), Emitted(u, w, e);
    Intake.ActKeeps(w.intake, e.intake);
    SentGrows(w.intake, e.intake);
    if emitted != [] {
      AckSafety.ActKeeps(w.consumer, u.stacks, emitted[0]);
      var last := n.intake.sent[|n.intake.sent| - 1];
      assert last == Intake.Sent(last.topic, last.m);
    }
    ProducedHasOrigin(u, w, n, emitted);
  }

  /** One access adds at most one dead-letter row. */
  lemma DltRowsGrow(sys: System, stacks: string -> Stack, a: Action)
    ensures
      var rows := Act(sys, stacks, a).store.dltRows;
      rows == sys.store.dltRows || (|rows| == |sys.store.dltRows| + 1 && rows[..|sys.store.dltRows|] == sys.store.dltRows)
  {
  }

  /** A row the consumer adds, if any, reaches the admin side as a Create. */
  ghost predicate Appeared(u: Setup, w: World, n: World) {
    var before, rows := w.consumer.store.dltRows, n.consumer.store.dltRows;
    if |rows| > |before|
    then |rows| == |before| + 1 && rows[..|before|] == before
      && n.admin == DltAdmin.Serve(u.maxAttempts, w.admin, DltAdmin.Create(EntryFor(rows[|before|]))).0
    else rows == before && n.admin == w.admin
  }

  lemma AppearedKeeps(u: Setup, w: World, n: World)
    requires DltAdmin.Invariant(u.maxAttempts, w.admin) && Linked(w) && AckSafety.Invariant(n.consumer)
    requires Appeared(u, w, n)
    ensures DltAdmin.Invariant(u.maxAttempts, n.admin) && Linked(n)
  {
    var rows := n.consumer.store.dltRows;
    if |rows| > |w.consumer.store.dltRows| {
      assert AckSafety.IsDltOfRecord(n.consumer, rows[|rows| - 1]);
      DltAdmin.ServeKeeps(u.maxAttempts, w.admin, DltAdmin.Create(EntryFor(rows[|rows| - 1])));
    }
  }

  lemma ConsumeAppears(u: Setup, w: World, a: Action)
    requires !a.Produce?
    ensures
      var n := Next(u, w, Consume(a));
      && n.consumer == Act(w.consumer, u.stacks, a) && n.consumer.topics == w.consumer.topics
      && n.intake == w.intake && Appeared(u, w, n)
  {
    DltRowsGrow(w.consumer, u.stacks, a);
  }

  lemma ConsumeKeeps(u: Setup, w: World, a: Action)
    requires Invariant(u, w)
    ensures Invariant(u, Next(u, w, Consume(a)))
  {
    if !a.Produce? {
      var n := Next(u, w, Consume(a));
      ConsumeAppears(u, w, a);
      AckSafety.ActKeeps(w.consumer, u.stacks, a);
      AppearedKeeps(u, w, n);
      OriginsPersist(w, n);
      forall tp, i | 0 <= i < |LogOf(n.consumer, tp)| ensures HasOrigin(u, n, tp, LogOf(n.consumer, tp)[i]) {
        assert HasOrigin(u, w, tp, LogOf(w.consumer, tp)[i]);
      }
    }
  }

  /** A republished record repeats the record its row was written for. */
  lemma CopyRepeatsRecord(u: Setup, w: World, x: DltAdmin.Copy)
    requires Invariant(u, w) && DltAdmin.CopyOk(w.admin, x)
    ensures
      var row := w.consumer.store.dltRows[x.id];
      && AckSafety.IsRecord(w.consumer, row.src, x.m) && x.topic == row.src.tp.topic
      && Place(u, x.topic, x.m) == row.src.tp && HasOrigin(u, w, row.src.tp, x.m)
      && x.m.eventId == row.eventId && x.m.userId == row.userId
  {
    var row := w.consumer.store.dltRows[x.id];
    assert DltAdmin.SameRecord(EntryFor(row), w.admin.entries[x.id]);
    assert AckSafety.IsDltOfRecord(w.consumer, row);
    assert HasOrigin(u, w, row.src.tp, LogOf(w.consumer, row.src.tp)[row.src.offset]);
  }

  lemma CopiesGrow(max: int, s: DltAdmin.State, call: DltAdmin.Call)
    ensures
      var n := DltAdmin.Serve(max, s, call).0;
      n.copies == s.copies || (|n.copies| == |s.copies| + 1 && n.copies[..|s.copies|] == s.copies)
    ensures !call.Create? ==> |DltAdmin.Serve(max, s, call).0.entries| == |s.entries|
  {
    if !call.Create? && call.id < |s.entries| {
      assert s.copies + [] == s.copies;
    }
  }

  lemma OperateKeeps(u: Setup, w: World, e: Event)
    requires Invariant(u, w) && e.Operate? && !e.call.Create?
    ensures Invariant(u, Next(u, w, e))
  {
    var n, emitted := Next(u, w, e), Emitted(u, w, e);
    DltAdmin.ServeKeeps(u.maxAttempts, w.admin, e.call);
    CopiesGrow(u.maxAttempts, w.admin, e.call);
    forall i | 0 <= i < |w.admin.entries| ensures DltAdmin.SameRecord(w.admin.entries[i], n.admin.entries[i]) {
      DltAdmin.ServeMovesDown(u.maxAttempts, w.admin, e.call, i);
    }
    if emitted != [] {
      AckSafety.ActKeeps(w.consumer, u.stacks, emitted[0]);
      var x := n.admin.copies[|n.admin.copies| - 1];
      assert DltAdmin.CopyOk(n.admin, x);
      assert DltAdmin.SameRecord(w.admin.entries[x.id], n.admin.entries[x.id]);
      assert DltAdmin.CopyOk(w.admin, x);
      CopyRepeatsRecord(u, w, x);
    }
    ProducedHasOrigin(u, w, n, emitted);
  }

  lemma NextKeeps(u: Setup, w: World, e: Event)
    requires Invariant(u, w)
    ensures Invariant(u, Next(u, w, e))
  {
    match e
    case Receive(_) => ReceiveKeeps(u, w, e);
    case Consume(a) => ConsumeKeeps(u, w, a);
    case Operate(call) => if !call.Create? { OperateKeeps(u, w, e); }
  }

  lemma {:induction false} Reachable(u: Setup, events: seq<Event>)
    ensures Invariant(u, Run(u, events))
    decreases |events|
  {
    if events == [] {
      Starts(u);
    } else {
      Reachable(u, events[..|events| - 1]);
      NextKeeps(u, Run(u, events[..|events| - 1]), events[|events| - 1]);
    }
  }

  // ----- Main results -----

  /** However failures, reprocess calls, sends that time out and rollbacks mix, an event has at most one
      result, and the result describes a message that intake sent. */
  lemma OneResultPerEvent(u: Setup, events: seq<Event>, i: nat)
    requires i < |Run(u, events).consumer.store.results|
    ensures
      var w := Run(u, events);
      var row := w.consumer.store.results[i];
      && (forall j :: 0 <= j < |w.consumer.store.results| && w.consumer.store.results[j].eventId == row.eventId ==> j == i)
      && exists k :: 0 <= k < |w.intake.sent| && DescribesMessage(row, w.intake.sent[k].m)
  {
    Reachable(u, events);
    var w := Run(u, events);
    var row := w.consumer.store.results[i];
    assert AckSafety.ResultRowFaithful(w.consumer, row);
    var src, m :| AckSafety.ResultRowTells(w.consumer, row, src, m);
    assert HasOrigin(u, w, src.tp, m);
    var k :| 0 <= k < |w.intake.sent| && w.intake.sent[k] == Intake.Sent(src.tp.topic, m);
    assert DescribesMessage(row, w.intake.sent[k].m);
  }

  predicate DescribesMessage(row: ResultRow, m: Message) {
    row.eventId == m.eventId && row.userId == m.userId && row.accountId == m.accountId && row.traceId == m.traceId
  }

  /** Recovery stays put: every republished record is the record its DLT row was written for, with its
      event, and lands on the partition that row came from. A row yields at most `maxAttempts` copies
      besides those whose transaction was rolled back. */
  lemma CopiesGoHome(u: Setup, events: seq<Event>, k: nat)
    requires k < |Run(u, events).admin.copies|
    ensures
      var w := Run(u, events);
      var x := w.admin.copies[k];
      && x.id < |w.consumer.store.dltRows|
      && var row := w.consumer.store.dltRows[x.id];
      && AckSafety.IsRecord(w.consumer, row.src, x.m) && x.m.eventId == row.eventId
      && x.topic == row.src.tp.topic && Place(u, x.topic, x.m) == row.src.tp
      && DltAdmin.CopiesOf(w.admin.copies, x.id) <= AtLeastZero(u.maxAttempts) + DltAdmin.CopiesOf(w.admin.undone, x.id)
  {
    Reachable(u, events);
    var w := Run(u, events);
    CopyRepeatsRecord(u, w, w.admin.copies[k]);
  }

  /** How often `m` was put on `tp`: by intake, by operators, and in all. */
  ghost function SentTo(u: Setup, w: World, tp: TopicPartition, m: Message): nat {
    Count(w.intake.sent, (x: Intake.Sent) => Place(u, x.topic, x.m) == tp && x.m == m)
  }

  ghost function CopiedTo(u: Setup, w: World, tp: TopicPartition, m: Message): nat {
    Count(w.admin.copies, (x: DltAdmin.Copy) => Place(u, x.topic, x.m) == tp && x.m == m)
  }

  ghost function RecordsOn(w: World, tp: TopicPartition, m: Message): nat {
    Count(LogOf(w.consumer, tp), (x: Message) => x == m)
  }

  /** Conservation: a partition holds exactly what intake sent to it and operators copied to it. */
  lemma {:induction false} NothingElseIsProduced(u: Setup, events: seq<Event>, tp: TopicPartition, m: Message)
    ensures
      var w := Run(u, events);
      RecordsOn(w, tp, m) == SentTo(u, w, tp, m) + CopiedTo(u, w, tp, m)
    decreases |events|
  {
    if events == [] {
    } else {
      var before, last := events[..|events| - 1], events[|events| - 1];
      NothingElseIsProduced(u, before, tp, m);
      NextCounts(u, Run(u, before), last, tp, m);
    }
  }

  lemma NextCounts(u: Setup, w: World, e: Event, tp: TopicPartition, m: Message)
    requires RecordsOn(w, tp, m) == SentTo(u, w, tp, m) + CopiedTo(u, w, tp, m)
    ensures
      var n := Next(u, w, e);
      RecordsOn(n, tp, m) == SentTo(u, n, tp, m) + CopiedTo(u, n, tp, m)
  {
    match e
    case Receive(a) => ReceiveCounts(u, w, a, tp, m);
    case Consume(a) => ConsumeCounts(u, w, a, tp, m);
    case Operate(call) => OperateCounts(u, w, call, tp, m);
  }

  lemma ReceiveCounts(u: Setup, w: World, a: Intake.Action, tp: TopicPartition, m: Message)
    ensures
      var n := Next(u, w, Receive(a));
      && RecordsOn(n, tp, m) - RecordsOn(w, tp, m) == SentTo(u, n, tp, m) - SentTo(u, w, tp, m)
      && n.admin == w.admin
  {
    var sent, after := w.intake.sent, Intake.Act(w.intake, a).sent;
    SentGrows(w.intake, a);
    if |after| > |sent| {
      var x := after[|sent|];
      assert after == sent + [x];
      CountSnoc(sent, (y: Intake.Sent) => Place(u, y.topic, y.m) == tp && y.m == m, x);
      RecordAppended(w.consumer, Next(u, w, Receive(a)).consumer, Place(u, x.topic, x.m), x.m, tp, m);
    }
  }

  lemma ConsumeCounts(u: Setup, w: World, a: Action, tp: TopicPartition, m: Message)
    ensures
      var n := Next(u, w, Consume(a));
      LogOf(n.consumer, tp) == LogOf(w.consumer, tp) && n.intake == w.intake && n.admin.copies == w.admin.copies
  {
  }

  lemma OperateCounts(u: Setup, w: World, call: DltAdmin.Call, tp: TopicPartition, m: Message)
    ensures
      var n := Next(u, w, Operate(call));
      && RecordsOn(n, tp, m) - RecordsOn(w, tp, m) == CopiedTo(u, n, tp, m) - CopiedTo(u, w, tp, m)
      && n.intake == w.intake
  {
    if !call.Create? {
      var copies, after := w.admin.copies, DltAdmin.Serve(u.maxAttempts, w.admin, call).0.copies;
      CopiesGrow(u.maxAttempts, w.admin, call);
      if |after| > |copies| {
        var x := after[|copies|];
        assert after == copies + [x];
        CountSnoc(copies, (y: DltAdmin.Copy) => Place(u, y.topic, y.m) == tp && y.m == m, x);
        RecordAppended(w.consumer, Next(u, w, Operate(call)).consumer, Place(u, x.topic, x.m), x.m, tp, m);
      }
    }
  }

  lemma RecordAppended(sys: System, next: System, at: TopicPartition, x: Message, tp: TopicPartition, m: Message)
    requires next == sys.(topics := sys.topics[at := LogOf(sys, at) + [x]])
    ensures Count(LogOf(next, tp), (y: Message) => y == m) ==
            Count(LogOf(sys, tp), (y: Message) => y == m) + if at == tp && x == m then 1 else 0
  {
    CountSnoc(LogOf(sys, tp), (y: Message) => y == m, x);
  }
}
