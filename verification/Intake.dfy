/** Intake: each accepted request inserts a receipt, sends the event and records the outcome, all in
    one database transaction that may still roll back. Transactions interleave. */
module Intake {
  import opened Counting
  import opened Domain

  datatype Request = Request(
    eventId: string,
    userId: string,
    accountId: string,
    eventType: string,
    amount: real,
    currency: string,
    merchantId: Option<string>,
    deviceId: Option<string>,
    location: Option<string>,
    eventTime: int,
    utcOffset: int
  )

  datatype Status = Received | Published | PublishFailed

  datatype Receipt = Receipt(
    eventId: string,
    schemaVersion: string,
    userId: string,
    accountId: string,
    eventType: string,
    amount: real,
    currency: string,
    merchantId: Option<string>,
    deviceId: Option<string>,
    location: Option<string>,
    eventTime: int,
    utcOffset: int,
    receivedAt: int,
    traceId: string,
    status: Status,
    publishError: Option<string>
  )

  const MAX_FUTURE := 5 * 60_000_000_000
  const MAX_PUBLISH_ERROR_MESSAGE_LENGTH := 500
  const CURRENT_SCHEMA_VERSION := "v1"

  function ToReceipt(r: Request, traceId: string, receivedAt: int): Receipt {
    Receipt(r.eventId, CURRENT_SCHEMA_VERSION, r.userId, r.accountId, r.eventType, r.amount, r.currency, r.merchantId,
            r.deviceId, r.location, r.eventTime, r.utcOffset, receivedAt, traceId, Received, None)
  }

  function ToMessage(r: Receipt): Message {
    Message(r.schemaVersion, r.eventId, r.userId, r.accountId, r.eventType, r.amount, r.currency, r.merchantId,
            r.deviceId, r.location, r.eventTime, r.utcOffset, r.receivedAt, r.traceId)
  }

  function MarkPublished(r: Receipt): Receipt { r.(status := Published, publishError := None) }

  function MarkPublishFailed(r: Receipt, error: Option<string>): Receipt {
    r.(status := PublishFailed, publishError := Limit(error, MAX_PUBLISH_ERROR_MESSAGE_LENGTH))
  }

  // ----- Transactions -----

  /** What became of a send: a send that failed for the caller may still have been written. */
  datatype Outcome = Delivered | FailedButWritten(error: Option<string>) | NotWritten(error: Option<string>)

  /** An open transaction. `written` remembers what the topic saw; the database does not store it. */
  datatype Tx =
    | Checked(topic: string, receipt: Receipt)
    | Inserted(topic: string, receipt: Receipt)
    | Marked(topic: string, receipt: Receipt, written: bool)

  datatype Row = Row(receipt: Receipt, written: bool)
  datatype Sent = Sent(topic: string, m: Message)

  /** `rows` is the receipts table; `undone` lists the marked transactions that were rolled back. */
  datatype State = State(rows: seq<Row>, open: map<nat, Tx>, sent: seq<Sent>, undone: seq<Row>, attempts: seq<string>)

  datatype Action =
    | Begin(tx: nat, topic: string, request: Request, traceId: string, receivedAt: int)
    | Insert(tx: nat)
    | Publish(tx: nat, outcome: Outcome)
    | Commit(tx: nat)
    | Rollback(tx: nat)

  predicate HasRow(s: State, id: string) { exists i :: 0 <= i < |s.rows| && s.rows[i].receipt.eventId == id }

  /** Another open transaction holds the unique key. */
  predicate Locked(s: State, tx: nat, id: string) {
    exists t :: t in s.open && t != tx && !s.open[t].Checked? && s.open[t].receipt.eventId == id
  }

  /** A request is turned away as duplicate or as too far in the future before anything is written. */
  predicate Rejected(s: State, request: Request, receivedAt: int) {
    HasRow(s, request.eventId) || request.eventTime > receivedAt + MAX_FUTURE
  }

  function Mark(r: Receipt, outcome: Outcome): Receipt {
    match outcome
    case Delivered => MarkPublished(r)
    case FailedButWritten(error) => MarkPublishFailed(r, error)
    case NotWritten(error) => MarkPublishFailed(r, error)
  }

  /** What an action does; one that is not enabled does nothing. An insert waits while another open
      transaction holds the key and fails when the key is taken, which ends the transaction. */
  function Act(s: State, a: Action): State {
    match a
    case Begin(tx, topic, request, traceId, receivedAt) =>
      if tx in s.open || Rejected(s, request, receivedAt) then s
      else s.(open := s.open[tx := Checked(topic, ToReceipt(request, traceId, receivedAt))])
    case Insert(tx) =>
      if tx !in s.open || !s.open[tx].Checked? || Locked(s, tx, s.open[tx].receipt.eventId) then s
      else if HasRow(s, s.open[tx].receipt.eventId) then s.(open := s.open - {tx})
      else s.(open := s.open[tx := Inserted(s.open[tx].topic, s.open[tx].receipt)])
    case Publish(tx, outcome) =>
      if tx !in s.open || !s.open[tx].Inserted? then s
      else
        var t := s.open[tx];
        var written := !outcome.NotWritten?;
        s.(open := s.open[tx := Marked(t.topic, Mark(t.receipt, outcome), written)],
           sent := if written then s.sent + [Sent(t.topic, ToMessage(t.receipt))] else s.sent,
           attempts := s.attempts + [t.receipt.eventId])
    case Commit(tx) =>
      if tx !in s.open || !s.open[tx].Marked? then s
      else s.(open := s.open - {tx}, rows := s.rows + [Row(s.open[tx].receipt, s.open[tx].written)])
    case Rollback(tx) =>
      if tx !in s.open then s
      else if !s.open[tx].Marked? then s.(open := s.open - {tx})
      else s.(open := s.open - {tx}, undone := s.undone + [Row(s.open[tx].receipt, s.open[tx].written)])
  }

  function Run(s: State, acts: seq<Action>): State {
    if acts == [] then s else Act(Run(s, acts[..|acts| - 1]), acts[|acts| - 1])
  }

  const EMPTY := State([], map[], [], [], [])

  /** Messages of the event on any topic, send attempts for it, rolled-back sends and writes for it. */
  function Messages(s: State, id: string): nat { Count(s.sent, (x: Sent) => x.m.eventId == id) }
  function Attempts(s: State, id: string): nat { Count(s.attempts, (x: string) => x == id) }
  function UndoneSends(s: State, id: string): nat { Count(s.undone, (x: Row) => x.receipt.eventId == id) }
  function UndoneWrites(s: State, id: string): nat { Count(s.undone, (x: Row) => x.receipt.eventId == id && x.written) }

  // ----- The invariant -----

  /** The unique key: one row per event, and none for an event an open transaction has inserted. */
  ghost predicate KeysHeld(s: State) {
    && (forall i, j :: 0 <= i < j < |s.rows| ==> s.rows[i].receipt.eventId != s.rows[j].receipt.eventId)
    && (forall t :: t in s.open && !s.open[t].Checked? ==> !HasRow(s, s.open[t].receipt.eventId))
    && (forall t, u :: t in s.open && u in s.open && t != u && !s.open[t].Checked? && !s.open[u].Checked? ==>
          s.open[t].receipt.eventId != s.open[u].receipt.eventId)
  }

  predicate MarkedOpen(s: State, id: string) {
    exists t :: t in s.open && s.open[t].Marked? && s.open[t].receipt.eventId == id
  }

  predicate WrittenOpen(s: State, id: string) {
    exists t :: t in s.open && s.open[t].Marked? && s.open[t].receipt.eventId == id && s.open[t].written
  }

  predicate WrittenRow(s: State, id: string) {
    exists i :: 0 <= i < |s.rows| && s.rows[i].receipt.eventId == id && s.rows[i].written
  }

  /** Every send and every message of an event is accounted for by its row, its open transaction, or a
      rolled-back transaction. */
  ghost predicate Balanced(s: State, id: string) {
    && Attempts(s, id) == One(HasRow(s, id)) + One(MarkedOpen(s, id)) + UndoneSends(s, id)
    && Messages(s, id) == One(WrittenRow(s, id)) + One(WrittenOpen(s, id)) + UndoneWrites(s, id)
  }

  /** `r` says what the send of its transaction led to. */
  predicate StatusTells(r: Receipt, written: bool) {
    (r.status == Published && written) || r.status == PublishFailed
  }

  ghost predicate Told(s: State) {
    && (forall i :: 0 <= i < |s.rows| ==> StatusTells(s.rows[i].receipt, s.rows[i].written))
    && (forall i :: 0 <= i < |s.undone| ==> StatusTells(s.undone[i].receipt, s.undone[i].written))
    && (forall t :: t in s.open && s.open[t].Marked? ==> StatusTells(s.open[t].receipt, s.open[t].written))
  }

  /** A transaction, finished or open, whose receipt reads as the message. */
  ghost predicate Backed(s: State, m: Message) {
    || (exists i :: 0 <= i < |s.rows| && s.rows[i].written && ToMessage(s.rows[i].receipt) == m)
    || (exists i :: 0 <= i < |s.undone| && s.undone[i].written && ToMessage(s.undone[i].receipt) == m)
    || (exists t :: t in s.open && s.open[t].Marked? && s.open[t].written && ToMessage(s.open[t].receipt) == m)
  }

  ghost predicate Invariant(s: State) {
    && KeysHeld(s) && Told(s)
    && (forall id :: Balanced(s, id))
    && (forall i :: 0 <= i < |s.sent| ==> Backed(s, s.sent[i].m))
  }

  lemma KeysKept(s: State, a: Action)
    requires KeysHeld(s)
    ensures KeysHeld(Act(s, a))
  {
    var n := Act(s, a);
    if a.Commit? && a.tx in s.open && s.open[a.tx].Marked? {
      HasRowSnoc(s, n, Row(s.open[a.tx].receipt, s.open[a.tx].written));
    } else {
      assert forall id :: HasRow(n, id) == HasRow(s, id);
    }
  }

  lemma HasRowSnoc(s: State, n: State, r: Row)
    requires n.rows == s.rows + [r]
    ensures forall id :: HasRow(n, id) <==> HasRow(s, id) || id == r.receipt.eventId
    ensures forall id :: WrittenRow(n, id) <==> WrittenRow(s, id) || (id == r.receipt.eventId && r.written)
  {
    forall id ensures HasRow(n, id) <==> HasRow(s, id) || id == r.receipt.eventId {
      if HasRow(s, id) {
        var i :| 0 <= i < |s.rows| && s.rows[i].receipt.eventId == id;
        assert n.rows[i] == s.rows[i];
      }
      assert n.rows[|s.rows|] == r;
    }
    forall id ensures WrittenRow(n, id) <==> WrittenRow(s, id) || (id == r.receipt.eventId && r.written) {
      if WrittenRow(s, id) {
        var i :| 0 <= i < |s.rows| && s.rows[i].receipt.eventId == id && s.rows[i].written;
        assert n.rows[i] == s.rows[i];
      }
      assert n.rows[|s.rows|] == r;
    }
  }

  /** An inserted or marked transaction is the only holder of its key. */
  lemma SoleHolder(s: State, tx: nat)
    requires KeysHeld(s) && tx in s.open && !s.open[tx].Checked?
    ensures
      var id := s.open[tx].receipt.eventId;
      && !HasRow(s, id) && !WrittenRow(s, id)
      && MarkedOpen(s, id) == s.open[tx].Marked?
      && WrittenOpen(s, id) == (s.open[tx].Marked? && s.open[tx].written)
      && !MarkedOpen(s.(open := s.open - {tx}), id) && !WrittenOpen(s.(open := s.open - {tx}), id)
  {
  }

  /** Other events do not notice what one transaction does. */
  lemma OthersUnmoved(s: State, n: State, tx: nat, id: string)
    requires forall t :: t != tx ==> (t in n.open <==> t in s.open) && (t in s.open ==> n.open[t] == s.open[t])
    requires tx in s.open && s.open[tx].Marked? ==> s.open[tx].receipt.eventId != id
    requires tx in n.open && n.open[tx].Marked? ==> n.open[tx].receipt.eventId != id
    ensures MarkedOpen(n, id) == MarkedOpen(s, id) && WrittenOpen(n, id) == WrittenOpen(s, id)
  {
  }

  /** What a send does to the numbers of sends and messages. */
  lemma PublishCounts(s: State, tx: nat, outcome: Outcome, id: string)
    requires tx in s.open && s.open[tx].Inserted?
    ensures
      var n := Act(s, Publish(tx, outcome));
      var mine := s.open[tx].receipt.eventId == id;
      && Attempts(n, id) == Attempts(s, id) + One(mine)
      && Messages(n, id) == Messages(s, id) + One(mine && !outcome.NotWritten?)
      && UndoneSends(n, id) == UndoneSends(s, id) && UndoneWrites(n, id) == UndoneWrites(s, id)
      && HasRow(n, id) == HasRow(s, id) && WrittenRow(n, id) == WrittenRow(s, id)
  {
    var t := s.open[tx];
    CountSnoc(s.attempts, (x: string) => x == id, t.receipt.eventId);
    CountSnoc(s.sent, (x: Sent) => x.m.eventId == id, Sent(t.topic, ToMessage(t.receipt)));
  }

  /** What a send does to the open transactions. */
  lemma PublishMarks(s: State, tx: nat, outcome: Outcome, id: string)
    requires KeysHeld(s) && tx in s.open && s.open[tx].Inserted?
    ensures
      var n := Act(s, Publish(tx, outcome));
      var mine := s.open[tx].receipt.eventId == id;
      && One(MarkedOpen(n, id)) == One(MarkedOpen(s, id)) + One(mine)
      && One(WrittenOpen(n, id)) == One(WrittenOpen(s, id)) + One(mine && !outcome.NotWritten?)
  {
    var n := Act(s, Publish(tx, outcome));
    if s.open[tx].receipt.eventId == id {
      SoleHolder(s, tx);
      KeysKept(s, Publish(tx, outcome));
      SoleHolder(n, tx);
    } else {
      OthersUnmoved(s, n, tx, id);
    }
  }

  lemma PublishBalances(s: State, tx: nat, outcome: Outcome, id: string)
    requires KeysHeld(s) && Balanced(s, id)
    ensures Balanced(Act(s, Publish(tx, outcome)), id)
  {
    if tx in s.open && s.open[tx].Inserted? {
      PublishCounts(s, tx, outcome, id);
      PublishMarks(s, tx, outcome, id);
    }
  }

  lemma CommitBalances(s: State, tx: nat, id: string)
    requires KeysHeld(s) && Balanced(s, id)
    ensures Balanced(Act(s, Commit(tx)), id)
  {
    var n := Act(s, Commit(tx));
    if tx in s.open && s.open[tx].Marked? {
      HasRowSnoc(s, n, Row(s.open[tx].receipt, s.open[tx].written));
      if s.open[tx].receipt.eventId == id {
        SoleHolder(s, tx);
      } else {
        OthersUnmoved(s, n, tx, id);
      }
    }
  }

  lemma RollbackBalances(s: State, tx: nat, id: string)
    requires KeysHeld(s) && Balanced(s, id)
    ensures Balanced(Act(s, Rollback(tx)), id)
  {
    var n := Act(s, Rollback(tx));
    if tx in s.open {
      if s.open[tx].Marked? {
        var r := Row(s.open[tx].receipt, s.open[tx].written);
        CountSnoc(s.undone, (x: Row) => x.receipt.eventId == id, r);
        CountSnoc(s.undone, (x: Row) => x.receipt.eventId == id && x.written, r);
      }
      if s.open[tx].Marked? && s.open[tx].receipt.eventId == id {
        SoleHolder(s, tx);
      } else {
        OthersUnmoved(s, n, tx, id);
      }
    }
  }

  lemma ActBalances(s: State, a: Action, id: string)
    requires KeysHeld(s) && Balanced(s, id)
    ensures Balanced(Act(s, a), id)
  {
    if a.Publish? {
      PublishBalances(s, a.tx, a.outcome, id);
    } else if a.Commit? {
      CommitBalances(s, a.tx, id);
    } else if a.Rollback? {
      RollbackBalances(s, a.tx, id);
    } else if Act(s, a) != s {
      OthersUnmoved(s, Act(s, a), a.tx, id);
    }
  }

  /** A message stays backed: its transaction moves from open to the table or to the undone ones. */
  lemma BackingMoves(s: State, a: Action, m: Message)
    requires Backed(s, m)
    ensures Backed(Act(s, a), m)
  {
    var n := Act(s, a);
    if i :| 0 <= i < |s.rows| && s.rows[i].written && ToMessage(s.rows[i].receipt) == m {
      assert n.rows[i] == s.rows[i];
    } else if i :| 0 <= i < |s.undone| && s.undone[i].written && ToMessage(s.undone[i].receipt) == m {
      assert n.undone[i] == s.undone[i];
    } else {
      var t :| t in s.open && s.open[t].Marked? && s.open[t].written && ToMessage(s.open[t].receipt) == m;
      if t in n.open {
        assert n.open[t] == s.open[t];
      } else if a.Commit? {
        assert n.rows[|s.rows|] == Row(s.open[t].receipt, true);
      } else {
        assert n.undone[|s.undone|] == Row(s.open[t].receipt, true);
      }
    }
  }

  lemma ActKeeps(s: State, a: Action)
    requires Invariant(s)
    ensures Invariant(Act(s, a))
  {
    var n := Act(s, a);
    KeysKept(s, a);
    forall id ensures Balanced(n, id) { ActBalances(s, a, id); }
    forall i | 0 <= i < |n.sent| ensures Backed(n, n.sent[i].m) {
      if i < |s.sent| {
        BackingMoves(s, a, s.sent[i].m);
      } else {
        assert n.open[a.tx].Marked? && n.open[a.tx].written;
      }
    }
    StatusKept(s, a);
  }

  lemma StatusKept(s: State, a: Action)
    requires Told(s)
    ensures Told(Act(s, a))
  {
  }

  lemma {:induction false} Reachable(acts: seq<Action>)
    ensures Invariant(Run(EMPTY, acts))
    decreases |acts|
  {
    if acts == [] {
    } else {
      Reachable(acts[..|acts| - 1]);
      ActKeeps(Run(EMPTY, acts[..|acts| - 1]), acts[|acts| - 1]);
    }
  }

  // ----- Main results -----

  /** A second send for an event always follows a rolled-back one: sends never outnumber the rollbacks
      by more than one, and the same holds for the messages on the topics. */
  lemma SecondSendFollowsRollback(acts: seq<Action>, id: string)
    ensures
      var s := Run(EMPTY, acts);
      Attempts(s, id) <= 1 + UndoneSends(s, id) && Messages(s, id) <= 1 + UndoneWrites(s, id)
  {
    var s := Run(EMPTY, acts);
    Reachable(acts);
    assert Balanced(s, id);
    if MarkedOpen(s, id) {
      var t :| t in s.open && s.open[t].Marked? && s.open[t].receipt.eventId == id;
      SoleHolder(s, t);
    } else {
      assert !WrittenOpen(s, id);
    }
  }

  /** While no send of the event was rolled back, the stored status is right about the topic:
      PUBLISHED means exactly one message, PUBLISH_FAILED at most one, no receipt no more than the
      message of a transaction still open. */
  lemma StatusTellsTheTopic(acts: seq<Action>, i: nat)
    requires i < |Run(EMPTY, acts).rows|
    requires UndoneSends(Run(EMPTY, acts), Run(EMPTY, acts).rows[i].receipt.eventId) == 0
    ensures
      var s := Run(EMPTY, acts);
      var r := s.rows[i].receipt;
      && Attempts(s, r.eventId) == 1
      && (r.status == Published ==> Messages(s, r.eventId) == 1)
      && (r.status == PublishFailed ==> Messages(s, r.eventId) <= 1)
      && r.status != Received
  {
    var s := Run(EMPTY, acts);
    var id := s.rows[i].receipt.eventId;
    Reachable(acts);
    assert Balanced(s, id) && HasRow(s, id) && !MarkedOpen(s, id) && !WrittenOpen(s, id);
    CountImplied(s.undone, (x: Row) => x.receipt.eventId == id && x.written, (x: Row) => x.receipt.eventId == id);
  }

  /** With no rollback of a send, an event id determines the message: any two messages with the same
      id, on whatever topics, are one, and its fields are those of the request's receipt. */
  lemma EventIdDeterminesMessage(acts: seq<Action>, i: nat, j: nat)
    requires
      var s := Run(EMPTY, acts);
      i < |s.sent| && j < |s.sent| && s.sent[i].m.eventId == s.sent[j].m.eventId && UndoneWrites(s, s.sent[i].m.eventId) == 0
    ensures i == j
    ensures Backed(Run(EMPTY, acts), Run(EMPTY, acts).sent[i].m)
  {
    var s := Run(EMPTY, acts);
    var id := s.sent[i].m.eventId;
    Reachable(acts);
    SecondSendFollowsRollback(acts, id);
    if i < j {
      CountTwo(s.sent, (x: Sent) => x.m.eventId == id, i, j);
    } else if j < i {
      CountTwo(s.sent, (x: Sent) => x.m.eventId == id, j, i);
    }
  }

  /** The message a topic gets says what the request said. */
  lemma MessageCarriesRequest(request: Request, traceId: string, receivedAt: int, outcome: Outcome)
    ensures
      var r := ToReceipt(request, traceId, receivedAt);
      var m := ToMessage(Mark(r, outcome));
      && m == ToMessage(r)
      && m.eventId == request.eventId && m.userId == request.userId && m.accountId == request.accountId
      && m.eventType == request.eventType && m.amount == request.amount && m.currency == request.currency
      && m.merchantId == request.merchantId && m.deviceId == request.deviceId && m.location == request.location
      && m.eventTime == request.eventTime && m.utcOffset == request.utcOffset
      && m.receivedAt == receivedAt && m.traceId == traceId && m.schemaVersion == CURRENT_SCHEMA_VERSION
  {
  }
}
