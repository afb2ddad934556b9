/** The intake service and its receipt entity as objects; one call is a run of the intake protocol. */
module IntakeService {
  import opened Domain
  import opened Intake

  datatype Response = Accepted(eventId: string, receivedAt: int, traceId: string) | Duplicate | InvalidEventTime | KafkaPublishFailed | RolledBack

  /** The transaction, the clock reading, what other instances do between the check and the insert, the
      fate of the send, and whether the transaction commits. */
  datatype Surroundings = Surroundings(tx: nat, receivedAt: int, meanwhile: seq<Action>, outcome: Outcome, commits: bool)

  /** The committed receipt is the request's, PUBLISHED without error after a send that went well, and
      PUBLISH_FAILED with the error cut to 500 characters after any other. */
  predicate Tells(r: Receipt, received: Receipt, outcome: Outcome) {
    && r.(status := received.status, publishError := received.publishError) == received
    && (outcome.Delivered? ==> r.status == Published && r.publishError == None)
    && (outcome.FailedButWritten? ==> r.status == PublishFailed && IsCutOf(r.publishError, outcome.error, 500))
    && (outcome.NotWritten? ==> r.status == PublishFailed && IsCutOf(r.publishError, outcome.error, 500))
  }

  lemma MarkTells(received: Receipt, outcome: Outcome)
    ensures Tells(Mark(received, outcome), received, outcome)
  {
    if !outcome.Delivered? { CutIsLimit(Limit(outcome.error, 500), outcome.error, 500); }
  }

  class TransactionEventReceiptEntity {
    var receipt: Receipt

    constructor (receipt: Receipt)
      ensures this.receipt == receipt
    {
      this.receipt := receipt;
    }

    method MarkPublishedInPlace()
      modifies this
      ensures receipt.status == Published && receipt.publishError == None
      ensures receipt.(status := old(receipt).status, publishError := old(receipt).publishError) == old(receipt)
    {
      receipt := receipt.(status := Published);
      receipt := receipt.(publishError := None);
    }

    method MarkPublishFailedInPlace(message: Option<string>)
      modifies this
      ensures receipt.status == PublishFailed && IsCutOf(receipt.publishError, message, MAX_PUBLISH_ERROR_MESSAGE_LENGTH)
      ensures receipt.(status := old(receipt).status, publishError := old(receipt).publishError) == old(receipt)
    {
      receipt := receipt.(status := PublishFailed);
      receipt := receipt.(publishError := Limit(message, MAX_PUBLISH_ERROR_MESSAGE_LENGTH));
    }
  }

  // ----- One call -----

  /** The state the insert meets. */
  function AtInsert(s: State, topic: string, request: Request, traceId: string, env: Surroundings): State {
    Run(Act(s, Begin(env.tx, topic, request, traceId, env.receivedAt)), env.meanwhile)
  }

  /** The transaction is this call's own, and its insert gets its turn: it waits while another holds the key. */
  predicate GetsItsTurn(s: State, topic: string, request: Request, traceId: string, env: Surroundings) {
    && env.tx !in s.open && (forall i :: 0 <= i < |env.meanwhile| ==> env.meanwhile[i].tx != env.tx)
    && !Locked(AtInsert(s, topic, request, traceId, env), env.tx, request.eventId)
  }

  function End(env: Surroundings): Action { if env.commits then Commit(env.tx) else Rollback(env.tx) }

  /** The actions one call and its surroundings amount to. */
  function CallActions(s: State, topic: string, request: Request, traceId: string, env: Surroundings): seq<Action> {
    var begin := Begin(env.tx, topic, request, traceId, env.receivedAt);
    if Rejected(s, request, env.receivedAt) then [begin]
    else [begin] + env.meanwhile + [Insert(env.tx), Publish(env.tx, env.outcome), End(env)]
  }

  lemma RunOne(s: State, a: Action)
    ensures Run(s, [a]) == Act(s, a)
  {
    assert [a][..0] == [];
  }

  lemma {:induction false} RunConcat(s: State, a: seq<Action>, b: seq<Action>)
    ensures Run(s, a + b) == Run(Run(s, a), b)
    decreases |b|
  {
    if b == [] {
      assert a + b == a;
    } else {
      var init, last := b[..|b| - 1], b[|b| - 1];
      RunConcat(s, a, init);
      assert (a + b)[..|a + b| - 1] == a + init && (a + b)[|a + b| - 1] == last;
    }
  }

  lemma RunThree(s: State, a: Action, b: Action, c: Action)
    ensures Run(s, [a, b, c]) == Act(Act(Act(s, a), b), c)
  {
    RunOne(s, a);
    RunConcat(s, [a], [b]);
    RunConcat(s, [a] + [b], [c]);
    RunOne(Act(s, a), b);
    RunOne(Act(Act(s, a), b), c);
    assert [a] + [b] + [c] == [a, b, c];
  }

  lemma CallRuns(s: State, topic: string, request: Request, traceId: string, env: Surroundings)
    ensures
      var begin := Act(s, Begin(env.tx, topic, request, traceId, env.receivedAt));
      Run(s, CallActions(s, topic, request, traceId, env)) ==
        if Rejected(s, request, env.receivedAt) then begin
        else Act(Act(Act(Run(begin, env.meanwhile), Insert(env.tx)), Publish(env.tx, env.outcome)), End(env))
  {
    var begin := Begin(env.tx, topic, request, traceId, env.receivedAt);
    RunOne(s, begin);
    if !Rejected(s, request, env.receivedAt) {
      RunConcat(s, [begin], env.meanwhile);
      RunConcat(s, [begin] + env.meanwhile, [Insert(env.tx), Publish(env.tx, env.outcome), End(env)]);
      RunThree(AtInsert(s, topic, request, traceId, env), Insert(env.tx), Publish(env.tx, env.outcome), End(env));
    }
  }

  /** The others do not touch a transaction that is not theirs. */
  lemma {:induction false} OthersLeave(s: State, acts: seq<Action>, tx: nat)
    requires forall i :: 0 <= i < |acts| ==> acts[i].tx != tx
    ensures tx in Run(s, acts).open <==> tx in s.open
    ensures tx in s.open ==> Run(s, acts).open[tx] == s.open[tx]
    decreases |acts|
  {
    if acts == [] {
    } else {
      OthersLeave(s, acts[..|acts| - 1], tx);
    }
  }

  /** The end of a call whose insert found the key free. */
  lemma FreeKeyEffect(mid: State, topic: string, receipt: Receipt, env: Surroundings)
    requires env.tx in mid.open && mid.open[env.tx] == Checked(topic, receipt)
    requires !Locked(mid, env.tx, receipt.eventId) && !HasRow(mid, receipt.eventId)
    ensures
      var row := Row(Mark(receipt, env.outcome), !env.outcome.NotWritten?);
      var end := Act(Act(Act(mid, Insert(env.tx)), Publish(env.tx, env.outcome)), End(env));
      && end.open == mid.open - {env.tx}
      && end.sent == (if row.written then mid.sent + [Sent(topic, ToMessage(receipt))] else mid.sent)
      && end.attempts == mid.attempts + [receipt.eventId]
      && end.rows == (if env.commits then mid.rows + [row] else mid.rows)
      && end.undone == (if env.commits then mid.undone else mid.undone + [row])
  {
    var s2 := Act(mid, Insert(env.tx));
    assert s2.open == mid.open[env.tx := Inserted(topic, receipt)];
    var s3 := Act(s2, Publish(env.tx, env.outcome));
    assert s3.open == s2.open[env.tx := Marked(topic, Mark(receipt, env.outcome), !env.outcome.NotWritten?)];
    assert s3.open - {env.tx} == mid.open - {env.tx};
  }

  /** A call that is let through, in closed form: it meets the state the others leave it. When one of them
      has taken the key by then the call only ends; otherwise it sends once and leaves its one row in the
      table or, rolled back, among the undone ones. */
  lemma CallEffect(s: State, topic: string, request: Request, traceId: string, env: Surroundings)
    requires GetsItsTurn(s, topic, request, traceId, env)
    ensures
      var receipt := ToReceipt(request, traceId, env.receivedAt);
      var row := Row(Mark(receipt, env.outcome), !env.outcome.NotWritten?);
      var mid := AtInsert(s, topic, request, traceId, env);
      var end := Run(s, CallActions(s, topic, request, traceId, env));
      if Rejected(s, request, env.receivedAt) then end == s
      else
        && end.open == mid.open - {env.tx}
        && if HasRow(mid, request.eventId) then end == mid.(open := end.open)
           else
             && end.sent == (if row.written then mid.sent + [Sent(topic, ToMessage(receipt))] else mid.sent)
             && end.attempts == mid.attempts + [request.eventId]
             && end.rows == (if env.commits then mid.rows + [row] else mid.rows)
             && end.undone == (if env.commits then mid.undone else mid.undone + [row])
  {
    CallRuns(s, topic, request, traceId, env);
    if !Rejected(s, request, env.receivedAt) {
      var mid := AtInsert(s, topic, request, traceId, env);
      OthersLeave(Act(s, Begin(env.tx, topic, request, traceId, env.receivedAt)), env.meanwhile, env.tx);
      if !HasRow(mid, request.eventId) {
        FreeKeyEffect(mid, topic, ToReceipt(request, traceId, env.receivedAt), env);
      }
    }
  }

  // ----- The service -----

  class TransactionEventIntakeService {
    var rows: seq<Row>
    var sent: seq<Sent>
    var open: map<nat, Tx>
    var undone: seq<Row>
    var attempts: seq<string>
    const topic: string

    constructor (topic: string)
      ensures this.topic == topic && Database() == EMPTY
    {
      this.topic, rows, sent, open, undone, attempts := topic, [], [], map[], [], [];
    }

    function Database(): State
      reads this
    {
      State(rows, open, sent, undone, attempts)
    }

    /** Other instances act on the shared database and topics. */
    method OtherInstances(acts: seq<Action>)
      modifies this
      ensures Database() == Run(old(Database()), acts)
    {
      var s := Run(Database(), acts);
      rows, sent, open, undone, attempts := s.rows, s.sent, s.open, s.undone, s.attempts;
    }

    /** The insert under the unique key; false where the violation of the key is thrown. */
    method SaveReceivedReceipt(receipt: Receipt, tx: nat) returns (saved: bool)
      requires tx in open && open[tx] == Checked(topic, receipt) && !Locked(Database(), tx, receipt.eventId)
      modifies this
      ensures saved <==> !HasRow(old(Database()), receipt.eventId)
      ensures Database() == Act(old(Database()), Insert(tx))
    {
      if exists i :: 0 <= i < |rows| && rows[i].receipt.eventId == receipt.eventId {
        open := open - {tx};
        return false;
      }
      open := open[tx := Inserted(topic, receipt)];
      return true;
    }

    /** Accepts one request. Between the check for a duplicate and the insert others may do anything. */
    method Accept(request: Request, traceId: string, env: Surroundings) returns (response: Response)
      requires GetsItsTurn(Database(), topic, request, traceId, env)
      modifies this
      ensures Database() == Run(old(Database()), CallActions(old(Database()), topic, request, traceId, env))
      ensures response == Duplicate <==>
        || HasRow(old(Database()), request.eventId)
        || (!Rejected(old(Database()), request, env.receivedAt)
            && HasRow(AtInsert(old(Database()), topic, request, traceId, env), request.eventId))
      ensures response == InvalidEventTime <==>
        !HasRow(old(Database()), request.eventId) && request.eventTime > env.receivedAt + 5 * 60 * 1_000_000_000
      ensures response == Duplicate || response == InvalidEventTime || (response == RolledBack <==> !env.commits)
      ensures response.Accepted? ==>
        && response == Accepted(request.eventId, env.receivedAt, traceId)
        && env.outcome == Delivered && env.commits
        && sent == AtInsert(old(Database()), topic, request, traceId, env).sent +
                   [Sent(topic, ToMessage(ToReceipt(request, traceId, env.receivedAt)))]
      ensures response == KafkaPublishFailed ==> !env.outcome.Delivered? && env.commits
      ensures response.Accepted? || response == KafkaPublishFailed ==>
        && rows != [] && rows[..|rows| - 1] == AtInsert(old(Database()), topic, request, traceId, env).rows
        && Tells(rows[|rows| - 1].receipt, ToReceipt(request, traceId, env.receivedAt), env.outcome)
    {
      CallEffect(Database(), topic, request, traceId, env);
      CallRuns(Database(), topic, request, traceId, env);
      if exists i :: 0 <= i < |rows| && rows[i].receipt.eventId == request.eventId {
        return Duplicate;
      }
      if request.eventTime > env.receivedAt + MAX_FUTURE {
        return InvalidEventTime;
      }
      var receipt := ToReceipt(request, traceId, env.receivedAt);
      open := open[env.tx := Checked(topic, receipt)];
      OthersLeave(Database(), env.meanwhile, env.tx);
      OtherInstances(env.meanwhile);
      var saved := SaveReceivedReceipt(receipt, env.tx);
      if !saved {
        return Duplicate;
      }
      response := PublishAndFinish(request, traceId, env, receipt);
      MarkTells(receipt, env.outcome);
    }

    /** The send, the mark and the end of the transaction. */
    method PublishAndFinish(request: Request, traceId: string, env: Surroundings, receipt: Receipt)
      returns (response: Response)
      requires receipt == ToReceipt(request, traceId, env.receivedAt)
      requires env.tx in open && open[env.tx] == Inserted(topic, receipt)
      modifies this
      ensures Database() == Act(Act(old(Database()), Publish(env.tx, env.outcome)), End(env))
      ensures response == if !env.commits then RolledBack
                          else if env.outcome.Delivered? then Accepted(request.eventId, env.receivedAt, traceId)
                          else KafkaPublishFailed
    {
      var entity := new TransactionEventReceiptEntity(receipt);
      var message := ToMessage(receipt);
      attempts := attempts + [request.eventId];
      match env.outcome {
        case Delivered =>
          sent := sent + [Sent(topic, message)];
          entity.MarkPublishedInPlace();
        case FailedButWritten(error) =>
          sent := sent + [Sent(topic, message)];
          entity.MarkPublishFailedInPlace(error);
        case NotWritten(error) =>
          entity.MarkPublishFailedInPlace(error);
      }
      MarkedInPlace(receipt, env.outcome, entity.receipt);
      OwnTransactionGone(old(open), env.tx, Marked(topic, entity.receipt, !env.outcome.NotWritten?));
      open := open - {env.tx};
      if !env.commits {
        undone := undone + [Row(entity.receipt, !env.outcome.NotWritten?)];
        return RolledBack;
      }
      rows := rows + [Row(entity.receipt, !env.outcome.NotWritten?)];
      response := if env.outcome.Delivered? then Accepted(request.eventId, env.receivedAt, traceId) else KafkaPublishFailed;
    }
  }

  /** The entity's two marks, as one update of the receipt. */
  lemma MarkedInPlace(r: Receipt, outcome: Outcome, marked: Receipt)
    requires marked.(status := r.status, publishError := r.publishError) == r
    requires if outcome.Delivered? then marked.status == Published && marked.publishError == None
             else
               marked.status == PublishFailed
               && IsCutOf(marked.publishError, outcome.error, MAX_PUBLISH_ERROR_MESSAGE_LENGTH)
    ensures marked == Mark(r, outcome)
  {
    if !outcome.Delivered? {
      CutIsLimit(marked.publishError, outcome.error, MAX_PUBLISH_ERROR_MESSAGE_LENGTH);
    }
    assert marked == r.(status := marked.status, publishError := marked.publishError);
  }

  lemma OwnTransactionGone<K, V>(m: map<K, V>, k: K, v: V)
    ensures m[k := v] - {k} == m - {k}
  {
  }
}
