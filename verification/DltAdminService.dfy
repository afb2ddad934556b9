/** The dead-letter entity and the admin service as objects that change state in place. */
module DltAdminService {
  import opened Domain
  import opened DltAdmin

  class DeadLetterEventEntity {
    const eventId: string
    const sourceTopic: string
    const payload: Option<Message>
    var status: Status
    var reprocessAttempts: int
    var lastReprocessedAt: Option<int>
    var discardedAt: Option<int>
    var discardReason: Option<string>
    var updatedAt: int

    constructor Load(row: Entry)
      ensures Row() == row
    {
      eventId, sourceTopic, payload := row.eventId, row.sourceTopic, row.payload;
      status, reprocessAttempts, updatedAt := row.status, row.attempts, row.updatedAt;
      lastReprocessedAt, discardedAt, discardReason := row.lastReprocessedAt, row.discardedAt, row.discardReason;
    }

    function Row(): Entry
      reads this
    {
      Entry(eventId, sourceTopic, payload, status, reprocessAttempts, lastReprocessedAt, discardedAt, discardReason, updatedAt)
    }

    predicate Retryable()
      reads this
    {
      status == Pending || status == ReprocessFailed
    }

    // The transitions return false where a state conflict is thrown.

    method StartReprocessing(now: int) returns (ok: bool)
      modifies this
      ensures ok <==> CanRetry(old(Row()))
      ensures Row() == if ok then Start(old(Row()), now) else old(Row())
    {
      if !Retryable() { return false; }
      status := Reprocessing;
      reprocessAttempts := reprocessAttempts + 1;
      lastReprocessedAt := Some(now);
      updatedAt := now;
      return true;
    }

    method MarkReprocessedInPlace(now: int) returns (ok: bool)
      modifies this
      ensures ok <==> old(status) == Reprocessing
      ensures Row() == if ok then MarkReprocessed(old(Row()), now) else old(Row())
    {
      if status != Reprocessing { return false; }
      status := Reprocessed;
      updatedAt := now;
      return true;
    }

    method MarkReprocessFailed(now: int) returns (ok: bool)
      modifies this
      ensures ok <==> old(status) == Reprocessing
      ensures Row() == if ok then MarkFailed(old(Row()), now) else old(Row())
    {
      if status != Reprocessing { return false; }
      status := ReprocessFailed;
      updatedAt := now;
      return true;
    }

    /** `illegal` is the exception for a missing reason, checked after the status. */
    method DiscardInPlace(reason: Option<string>, now: int) returns (ok: bool, illegal: bool)
      modifies this
      ensures ok <==> CanRetry(old(Row())) && reason.Some? && !IsBlank(reason.value)
      ensures illegal <==> CanRetry(old(Row())) && !ok
      ensures Row() == if ok then MarkDiscarded(old(Row()), reason.value, now) else old(Row())
    {
      if !Retryable() { return false, false; }
      if reason.None? || IsBlank(reason.value) { return false, true; }
      status := Discarded;
      discardReason := reason;
      discardedAt := Some(now);
      updatedAt := now;
      return true, false;
    }
  }

  class DeadLetterEventAdminService {
    var entries: seq<Entry>
    var audits: seq<Audit>
    var copies: seq<Copy>
    ghost var undone: seq<Copy>
    const maxAttempts: int

    constructor (maxAttempts: int)
      ensures this.maxAttempts == maxAttempts && Database() == DltAdmin.Run(maxAttempts, [])
    {
      this.maxAttempts, entries, audits, copies, undone := maxAttempts, [], [], [], [];
    }

    ghost function Database(): State
      reads this
    {
      State(entries, audits, copies, undone)
    }

    /** The row is locked for the whole call. */
    method Reprocess(id: nat, actor: Option<string>, reason: Option<string>, traceId: string, env: Surroundings)
      returns (response: Response)
      modifies this
      ensures (Database(), response) ==
        Serve(maxAttempts, old(Database()), Call.Reprocess(id, actor, reason, traceId, env))
    {
      if id >= |entries| { return NotFound; }
      var event := new DeadLetterEventEntity.Load(entries[id]);
      var copy: Option<Message>, success, resultReason := None, false, "";

      if event.reprocessAttempts >= maxAttempts {
        resultReason, response := "MAX_REPROCESS_ATTEMPTS_EXCEEDED", MaxAttemptsExceeded;
      } else {
        var ok := event.StartReprocessing(env.now);
        if !ok || !Supported(event.sourceTopic) || event.payload.None? {
          if event.status == Reprocessing { ok := event.MarkReprocessFailed(env.now); }
          resultReason, response := "DLT_STATE_CONFLICT", StateConflict;
        } else {
          copy := if env.send == NotSent then None else event.payload;
          if env.send == Sent {
            ok := event.MarkReprocessedInPlace(env.now);
            success, resultReason, response := true, "reprocessed", Done(event.status, event.reprocessAttempts);
          } else {
            ok := event.MarkReprocessFailed(env.now);
            resultReason, response := "publish_failed", PublishFailed;
          }
        }
      }
      ghost var draft := Draft(event.Row(), copy, success, resultReason, response);
      assert draft == ReprocessDraft(maxAttempts, entries[id], env);
      response := Finish(Call.Reprocess(id, actor, reason, traceId, env), event.Row(), copy, success, resultReason, response);
    }

    method Discard(id: nat, actor: Option<string>, reason: Option<string>, traceId: string, env: Surroundings)
      returns (response: Response)
      modifies this
      ensures (Database(), response) ==
        Serve(maxAttempts, old(Database()), Call.Discard(id, actor, reason, traceId, env))
    {
      if id >= |entries| { return NotFound; }
      var event := new DeadLetterEventEntity.Load(entries[id]);
      var ok, illegal := event.DiscardInPlace(reason, env.now);
      var resultReason := if ok then "discarded" else if illegal then "" else "DLT_STATE_CONFLICT";
      response := if ok then Done(event.status, event.reprocessAttempts) else if illegal then IllegalReason else StateConflict;
      response := Finish(Call.Discard(id, actor, reason, traceId, env), event.Row(), None, ok, resultReason, response);
    }

    /** Writes the audit row and ends the transaction; a written copy stays on its topic either way. */
    method Finish(call: Call, row: Entry, copy: Option<Message>, success: bool, resultReason: string, response: Response)
      returns (answer: Response)
      requires !call.Create? && call.id < |entries|
      modifies this
      ensures (Database(), answer) == Conclude(old(Database()), call, Draft(row, copy, success, resultReason, response))
    {
      assert copies + [] == copies && undone + [] == undone;
      if copy.Some? {
        copies := copies + [Copy(call.id, row.sourceTopic, copy.value)];
      }
      if response == IllegalReason || call.env.auditFails || !call.env.commits {
        if copy.Some? { undone := undone + [Copy(call.id, row.sourceTopic, copy.value)]; }
        return if response == IllegalReason then IllegalReason else Failed;
      }
      audits := audits + [Audit(if call.Reprocess? then DltReprocess else DltDiscard, call.id, row.eventId,
                                NormalizeActor(call.actor), call.traceId, success, Limit(call.reason, MAX_REASON),
                                row.status, row.attempts, resultReason)];
      entries := entries[call.id := row];
      return response;
    }
  }
}
