/** Operator actions on dead-letter rows. Each call locks its row and runs in one transaction; a
    republished record stays on its topic even when the transaction rolls back. */
module DltAdmin {
  import opened Counting
  import opened Domain

  datatype Status = Pending | Reprocessing | Reprocessed | Discarded | ReprocessFailed

  /** A dead-letter row. `payload` is what the stored JSON reads back as, if it does. */
  datatype Entry = Entry(
    eventId: string,
    sourceTopic: string,
    payload: Option<Message>,
    status: Status,
    attempts: int,
    lastReprocessedAt: Option<int>,
    discardedAt: Option<int>,
    discardReason: Option<string>,
    updatedAt: int
  )

  datatype AdminAction = DltReprocess | DltDiscard

  datatype Audit = Audit(
    action: AdminAction, id: nat, eventId: string, actor: string, traceId: string, success: bool,
    reason: Option<string>, status: Status, attempts: int, resultReason: string)

  /** A record put back on a topic for row `id`. */
  datatype Copy = Copy(id: nat, topic: string, m: Message)

  /** `undone` lists the copies whose transaction was rolled back. */
  datatype State = State(entries: seq<Entry>, audits: seq<Audit>, copies: seq<Copy>, undone: seq<Copy>)

  datatype SendOutcome = Sent | FailedButWritten | NotSent

  datatype Surroundings = Surroundings(now: int, send: SendOutcome, auditFails: bool, commits: bool)

  datatype Call =
    | Create(entry: Entry)                                     // the consumer inserts a row
    | Reprocess(id: nat, actor: Option<string>, reason: Option<string>, traceId: string, env: Surroundings)
    | Discard(id: nat, actor: Option<string>, reason: Option<string>, traceId: string, env: Surroundings)

  datatype Response =
    | NotFound
    | MaxAttemptsExceeded
    | StateConflict
    | PublishFailed
    | IllegalReason
    | Failed                    // an audit or commit failure
    | Done(status: Status, attempts: int)

  const LIVE_TOPIC := "transaction-events"
  const REPLAY_TOPIC := "transaction-events-replay"

  predicate Supported(topic: string) { topic == LIVE_TOPIC || topic == REPLAY_TOPIC }

  // ----- Status transitions -----

  predicate CanRetry(e: Entry) { e.status == Pending || e.status == ReprocessFailed }

  predicate Terminal(e: Entry) { e.status == Reprocessed || e.status == Discarded }

  function Start(e: Entry, now: int): Entry {
    e.(status := Reprocessing, attempts := e.attempts + 1, lastReprocessedAt := Some(now), updatedAt := now)
  }

  function MarkReprocessed(e: Entry, now: int): Entry { e.(status := Reprocessed, updatedAt := now) }

  function MarkFailed(e: Entry, now: int): Entry { e.(status := ReprocessFailed, updatedAt := now) }

  function MarkDiscarded(e: Entry, reason: string, now: int): Entry {
    e.(status := Discarded, discardReason := Some(reason), discardedAt := Some(now), updatedAt := now)
  }

  // ----- One transaction -----

  /** What the body of a transaction arrives at before it commits. */
  datatype Draft = Draft(entry: Entry, copy: Option<Message>, success: bool, resultReason: string, response: Response)

  function ReprocessDraft(max: int, e: Entry, env: Surroundings): Draft {
    if e.attempts >= max then Draft(e, None, false, "MAX_REPROCESS_ATTEMPTS_EXCEEDED", MaxAttemptsExceeded)
    else if !CanRetry(e) then
      Draft(if e.status == Reprocessing then MarkFailed(e, env.now) else e, None, false, "DLT_STATE_CONFLICT", StateConflict)
    else
      var started := Start(e, env.now);
      if !Supported(e.sourceTopic) || e.payload.None? then
        Draft(MarkFailed(started, env.now), None, false, "DLT_STATE_CONFLICT", StateConflict)
      else if env.send == Sent then
        var done := MarkReprocessed(started, env.now);
        Draft(done, e.payload, true, "reprocessed", Done(done.status, done.attempts))
      else
        Draft(MarkFailed(started, env.now), if env.send == FailedButWritten then e.payload else None,
              false, "publish_failed", PublishFailed)
  }

  function DiscardDraft(e: Entry, reason: Option<string>, env: Surroundings): Draft {
    if !CanRetry(e) then Draft(e, None, false, "DLT_STATE_CONFLICT", StateConflict)
    else if reason.None? || IsBlank(reason.value) then Draft(e, None, false, "", IllegalReason)
    else
      var done := MarkDiscarded(e, reason.value, env.now);
      Draft(done, None, true, "discarded", Done(done.status, done.attempts))
  }

  predicate Commits(d: Draft, env: Surroundings) { d.response != IllegalReason && !env.auditFails && env.commits }

  const DEFAULT_ACTOR := "admin-api"
  const MAX_ACTOR := 100
  const MAX_REASON := 500

  /** The name an audit row gives for who called. */
  function NormalizeActor(actor: Option<string>): string {
    if actor.None? || IsBlank(actor.value) then DEFAULT_ACTOR else Limit(actor, MAX_ACTOR).value
  }

  /** The draft becomes the stored state, or only its copy survives. */
  function Conclude(s: State, call: Call, d: Draft): (State, Response)
    requires !call.Create? && call.id < |s.entries|
  {
    var copy := if d.copy.Some? then [Copy(call.id, d.entry.sourceTopic, d.copy.value)] else [];
    if Commits(d, call.env) then
      var audit := Audit(if call.Reprocess? then DltReprocess else DltDiscard, call.id, d.entry.eventId,
                         NormalizeActor(call.actor), call.traceId, d.success, Limit(call.reason, MAX_REASON), d.entry.status, d.entry.attempts, d.resultReason);
      (State(s.entries[call.id := d.entry], s.audits + [audit], s.copies + copy, s.undone), d.response)
    else
      (s.(copies := s.copies + copy, undone := s.undone + copy),
       if d.response == IllegalReason then IllegalReason else Failed)
  }

  function Serve(max: int, s: State, call: Call): (State, Response) {
    match call
    case Create(entry) => (s.(entries := s.entries + [entry]), Done(entry.status, entry.attempts))
    case Reprocess(id, _, _, _, env) =>
      if id >= |s.entries| then (s, NotFound) else Conclude(s, call, ReprocessDraft(max, s.entries[id], env))
    case Discard(id, _, reason, _, env) =>
      if id >= |s.entries| then (s, NotFound) else Conclude(s, call, DiscardDraft(s.entries[id], reason, env))
  }

  function Run(max: int, calls: seq<Call>): State {
    if calls == [] then State([], [], [], []) else Serve(max, Run(max, calls[..|calls| - 1]), calls[|calls| - 1]).0
  }

  /** A row as the consumer creates it: pending, untried, its payload the record of its event. */
  predicate IsNew(e: Entry) {
    e.status == Pending && e.attempts == 0 && (e.payload.Some? ==> e.payload.value.eventId == e.eventId)
  }

  predicate CreatesNew(calls: seq<Call>) {
    forall i :: 0 <= i < |calls| && calls[i].Create? ==> IsNew(calls[i].entry)
  }

  // ----- Invariant -----

  function CopiesOf(copies: seq<Copy>, id: nat): nat { Count(copies, (x: Copy) => x.id == id) }

  predicate EntryOk(max: int, e: Entry) {
    && e.status != Reprocessing
    && 0 <= e.attempts <= AtLeastZero(max)
    && (e.payload.Some? ==> e.payload.value.eventId == e.eventId)
  }

  /** The copy went to its row's own topic and is its row's own record. */
  predicate CopyOk(s: State, x: Copy) {
    && x.id < |s.entries| && x.topic == s.entries[x.id].sourceTopic && Supported(x.topic)
    && s.entries[x.id].payload == Some(x.m) && x.m.eventId == s.entries[x.id].eventId
  }

  ghost predicate Invariant(max: int, s: State) {
    && (forall i :: 0 <= i < |s.entries| ==> EntryOk(max, s.entries[i]))
    && (forall i :: 0 <= i < |s.copies| ==> CopyOk(s, s.copies[i]))
    && (forall id: nat :: id < |s.entries| ==> CopiesOf(s.copies, id) <= s.entries[id].attempts + CopiesOf(s.undone, id))
    && (forall id: nat :: id >= |s.entries| ==> CopiesOf(s.copies, id) == 0)
  }

  /** What never changes about a row. */
  predicate SameRecord(a: Entry, b: Entry) {
    a.eventId == b.eventId && a.sourceTopic == b.sourceTopic && a.payload == b.payload
  }

  /** The moves of a row: tried once more, with either end, or discarded with the attempts it had. */
  predicate Moved(e: Entry, n: Entry, reason: Option<string>, now: int) {
    && CanRetry(e)
    && n.updatedAt == now
    && (|| ((n.status == Reprocessed || n.status == ReprocessFailed)
            && n.attempts == e.attempts + 1 && n.lastReprocessedAt == Some(now)
            && n.discardedAt == e.discardedAt && n.discardReason == e.discardReason)
        || (n.status == Discarded
            && n.attempts == e.attempts && n.lastReprocessedAt == e.lastReprocessedAt
            && n.discardedAt == Some(now) && reason.Some? && !IsBlank(reason.value) && n.discardReason == reason))
  }

  /** What a transaction does to a row: nothing, or one move, which goes down the measure. */
  lemma DraftMoves(max: int, e: Entry, reason: Option<string>, env: Surroundings, d: Draft)
    requires EntryOk(max, e)
    requires d == ReprocessDraft(max, e, env) || d == DiscardDraft(e, reason, env)
    ensures EntryOk(max, d.entry) && SameRecord(e, d.entry)
    ensures d.entry != e ==> Moved(e, d.entry, reason, env.now) && Measure(max, d.entry) < Measure(max, e)
    ensures d.response.Done? <==> d.entry != e && d.entry.status != ReprocessFailed
    ensures d.copy.Some? ==> d.copy == e.payload && Supported(e.sourceTopic) && d.entry.attempts == e.attempts + 1
    ensures d.entry.attempts >= e.attempts
    ensures d.success <==> d.response.Done?
  {
  }

  /** Attempts left, plus one while the row is not finished. */
  function Measure(max: int, e: Entry): int {
    AtLeastZero(max) - e.attempts + if Terminal(e) then 0 else 1
  }

  /** Rows that only move keep every copy their own. */
  lemma CopiesStayOk(s: State, n: State)
    requires |s.entries| <= |n.entries|
    requires forall i :: 0 <= i < |s.entries| ==> SameRecord(s.entries[i], n.entries[i])
    ensures forall x :: CopyOk(s, x) ==> CopyOk(n, x)
  {
  }

  lemma ConcludeKeeps(max: int, s: State, call: Call, d: Draft)
    requires Invariant(max, s) && !call.Create? && call.id < |s.entries|
    requires d == ReprocessDraft(max, s.entries[call.id], call.env) ||
             d == DiscardDraft(s.entries[call.id], call.reason, call.env)
    ensures Invariant(max, Conclude(s, call, d).0)
  {
    DraftMoves(max, s.entries[call.id], call.reason, call.env, d);
    MovedRowKeeps(max, s, call, d);
  }

  /** A row that moved, and maybe one more copy of it. */
  predicate Drafted(max: int, e: Entry, d: Draft) {
    && EntryOk(max, d.entry) && SameRecord(e, d.entry) && d.entry.attempts >= e.attempts
    && (d.copy.Some? ==>
          d.copy == d.entry.payload && Supported(d.entry.sourceTopic) && d.entry.attempts == e.attempts + 1)
  }

  lemma MovedRowKeeps(max: int, s: State, call: Call, d: Draft)
    requires Invariant(max, s) && !call.Create? && call.id < |s.entries| && Drafted(max, s.entries[call.id], d)
    ensures Invariant(max, Conclude(s, call, d).0)
  {
    CopiesStayOk(s, Conclude(s, call, d).0);
    if d.copy.Some? {
      CopyKeepsOwn(max, s, call, d);
      CopyKeepsNumbers(max, s, call, d);
    } else {
      assert s.copies + [] == s.copies && s.undone + [] == s.undone;
    }
  }

  lemma CopyKeepsOwn(max: int, s: State, call: Call, d: Draft)
    requires Invariant(max, s) && !call.Create? && call.id < |s.entries| && Drafted(max, s.entries[call.id], d)
    requires d.copy.Some?
    ensures
      var n := Conclude(s, call, d).0;
      && (forall i :: 0 <= i < |n.entries| ==> EntryOk(max, n.entries[i]))
      && (forall i :: 0 <= i < |n.copies| ==> CopyOk(n, n.copies[i]))
  {
    var n := Conclude(s, call, d).0;
    CopiesStayOk(s, n);
    assert CopyOk(n, Copy(call.id, d.entry.sourceTopic, d.copy.value));
  }

  lemma CopyCounts(s: State, call: Call, d: Draft, id: nat)
    requires !call.Create? && call.id < |s.entries| && d.copy.Some?
    ensures
      var n := Conclude(s, call, d).0;
      && CopiesOf(n.copies, id) == CopiesOf(s.copies, id) + One(call.id == id)
      && CopiesOf(n.undone, id) == CopiesOf(s.undone, id) + One(call.id == id && !Commits(d, call.env))
  {
    var x := Copy(call.id, d.entry.sourceTopic, d.copy.value);
    CountSnoc(s.copies, (y: Copy) => y.id == id, x);
    CountSnoc(s.undone, (y: Copy) => y.id == id, x);
  }

  lemma CopyKeepsNumbers(max: int, s: State, call: Call, d: Draft)
    requires Invariant(max, s) && !call.Create? && call.id < |s.entries| && Drafted(max, s.entries[call.id], d)
    requires d.copy.Some?
    ensures
      var n := Conclude(s, call, d).0;
      && (forall id: nat :: id < |n.entries| ==> CopiesOf(n.copies, id) <= n.entries[id].attempts + CopiesOf(n.undone, id))
      && (forall id: nat :: id >= |n.entries| ==> CopiesOf(n.copies, id) == 0)
  {
    var n := Conclude(s, call, d).0;
    forall id: nat
      ensures id < |n.entries| ==> CopiesOf(n.copies, id) <= n.entries[id].attempts + CopiesOf(n.undone, id)
      ensures id >= |n.entries| ==> CopiesOf(n.copies, id) == 0
    {
      CopyCounts(s, call, d, id);
    }
  }

  lemma ServeKeeps(max: int, s: State, call: Call)
    requires Invariant(max, s) && (call.Create? ==> IsNew(call.entry))
    ensures Invariant(max, Serve(max, s, call).0)
  {
    match call
    case Create(entry) =>
      var n := Serve(max, s, call).0;
      forall i | 0 <= i < |n.copies| ensures CopyOk(n, n.copies[i]) { assert CopyOk(s, s.copies[i]); }
    case Reprocess(id, _, _, _, env) =>
      if id < |s.entries| { ConcludeKeeps(max, s, call, ReprocessDraft(max, s.entries[id], env)); }
    case Discard(id, _, reason, _, env) =>
      if id < |s.entries| { ConcludeKeeps(max, s, call, DiscardDraft(s.entries[id], reason, env)); }
  }

  lemma {:induction false} Reachable(max: int, calls: seq<Call>)
    requires CreatesNew(calls)
    ensures Invariant(max, Run(max, calls))
    decreases |calls|
  {
    if calls == [] {
    } else {
      Reachable(max, calls[..|calls| - 1]);
      ServeKeeps(max, Run(max, calls[..|calls| - 1]), calls[|calls| - 1]);
    }
  }

  // ----- Main results -----

  /** No committed row is REPROCESSING, and no row is tried more often than allowed. */
  lemma {:induction false} CommittedRows(max: int, calls: seq<Call>, id: nat)
    requires CreatesNew(calls) && id < |Run(max, calls).entries|
    ensures
      var e := Run(max, calls).entries[id];
      e.status != Reprocessing && 0 <= e.attempts <= AtLeastZero(max)
  {
    Reachable(max, calls);
  }

  /** A call moves only its own row, and only down the measure; finished rows stay as they are. */
  lemma CallMovesDown(max: int, calls: seq<Call>, call: Call, i: nat)
    requires CreatesNew(calls) && i < |Run(max, calls).entries|
    ensures
      var s := Run(max, calls);
      var n := Serve(max, s, call).0;
      && i < |n.entries| && SameRecord(s.entries[i], n.entries[i])
      && (n.entries[i] != s.entries[i] ==>
            && !call.Create? && call.id == i && !Terminal(s.entries[i])
            && Measure(max, n.entries[i]) < Measure(max, s.entries[i]))
  {
    Reachable(max, calls);
    ServeMovesDown(max, Run(max, calls), call, i);
  }

  lemma ServeMovesDown(max: int, s: State, call: Call, i: nat)
    requires i < |s.entries| && EntryOk(max, s.entries[i])
    ensures
      var n := Serve(max, s, call).0;
      && i < |n.entries| && SameRecord(s.entries[i], n.entries[i])
      && (n.entries[i] != s.entries[i] ==>
            && !call.Create? && call.id == i && !Terminal(s.entries[i])
            && Measure(max, n.entries[i]) < Measure(max, s.entries[i]))
  {
    if !call.Create? && call.id == i {
      DraftMoves(max, s.entries[i], call.reason, call.env, ReprocessDraft(max, s.entries[i], call.env));
      DraftMoves(max, s.entries[i], call.reason, call.env, DiscardDraft(s.entries[i], call.reason, call.env));
    }
  }

  /** The number of calls of a run that changed row `id`. */
  function Changes(max: int, calls: seq<Call>, id: nat): nat {
    if calls == [] then 0
    else
      var before := calls[..|calls| - 1];
      var s, n := Run(max, before), Run(max, calls);
      Changes(max, before, id) + if id < |s.entries| && id < |n.entries| && n.entries[id] != s.entries[id] then 1 else 0
  }

  /** A row changes at most once per allowed attempt, and once more when it is discarded. */
  lemma {:induction false} FewChanges(max: int, calls: seq<Call>, id: nat)
    requires CreatesNew(calls) && id < |Run(max, calls).entries|
    ensures Changes(max, calls, id) + Measure(max, Run(max, calls).entries[id]) <= AtLeastZero(max) + 1
    ensures Changes(max, calls, id) <= AtLeastZero(max) + 1
    decreases |calls|
  {
    var before, last := calls[..|calls| - 1], calls[|calls| - 1];
    var s := Run(max, before);
    Reachable(max, before);
    Reachable(max, calls);
    assert EntryOk(max, Run(max, calls).entries[id]);
    if id < |s.entries| {
      FewChanges(max, before, id);
      ServeMovesDown(max, s, last, id);
    } else {
      NoRowNoChange(max, before, id);
      EntriesCreated(max, s, last);
    }
  }

  lemma EntriesCreated(max: int, s: State, call: Call)
    ensures
      var n := Serve(max, s, call).0;
      |n.entries| == |s.entries| || (call.Create? && n.entries == s.entries + [call.entry])
  {
  }

  lemma {:induction false} NoRowNoChange(max: int, calls: seq<Call>, id: nat)
    requires id >= |Run(max, calls).entries|
    ensures Changes(max, calls, id) == 0
    decreases |calls|
  {
    if calls == [] {
    } else {
      NoRowNoChange(max, calls[..|calls| - 1], id);
    }
  }

  /** Who an audit row names: the caller, cut to the column, or the service for a caller without a name. */
  predicate NamesActor(name: string, actor: Option<string>) {
    if actor.None? || IsBlank(actor.value) then name == "admin-api" else IsCutOf(Some(name), actor, 100)
  }

  /** The word an audit row has for what came of the call. */
  function OutcomeWord(call: Call, response: Response): string {
    match response
    case MaxAttemptsExceeded => "MAX_REPROCESS_ATTEMPTS_EXCEEDED"
    case StateConflict => "DLT_STATE_CONFLICT"
    case PublishFailed => "publish_failed"
    case Done(_, _) => if call.Reprocess? then "reprocessed" else "discarded"
    case _ => ""
  }

  /** What an audit row says of a call that moved row `before` to `after`. */
  predicate Records(audit: Audit, call: Call, before: Entry, after: Entry, response: Response)
    requires !call.Create?
  {
    && audit.id == call.id && audit.eventId == before.eventId
    && audit.action == (if call.Reprocess? then DltReprocess else DltDiscard)
    && NamesActor(audit.actor, call.actor) && audit.traceId == call.traceId
    && IsCutOf(audit.reason, call.reason, 500)
    && audit.success == response.Done? && audit.resultReason == OutcomeWord(call, response)
    && audit.status == after.status && audit.attempts == after.attempts
  }

  lemma AuditNames(call: Call)
    requires !call.Create?
    ensures NamesActor(NormalizeActor(call.actor), call.actor)
    ensures IsCutOf(Limit(call.reason, MAX_REASON), call.reason, 500)
  {
    CutIsLimit(Limit(call.actor, MAX_ACTOR), call.actor, MAX_ACTOR);
    CutIsLimit(Limit(call.reason, MAX_REASON), call.reason, MAX_REASON);
  }

  lemma DraftWords(max: int, e: Entry, call: Call, d: Draft)
    requires call.Reprocess? ==> d == ReprocessDraft(max, e, call.env)
    requires call.Discard? ==> d == DiscardDraft(e, call.reason, call.env)
    requires !call.Create?
    ensures d.response != Failed && d.resultReason == OutcomeWord(call, d.response)
  {
  }

  lemma ConcludeRecords(s: State, call: Call, d: Draft)
    requires !call.Create? && call.id < |s.entries| && SameRecord(s.entries[call.id], d.entry)
    requires d.response != Failed && (d.success <==> d.response.Done?) && d.resultReason == OutcomeWord(call, d.response)
    ensures
      var (n, response) := Conclude(s, call, d);
      if response == Failed || response == IllegalReason then n.audits == s.audits && n.entries == s.entries
      else
        && |n.audits| == |s.audits| + 1 && n.audits[..|s.audits|] == s.audits
        && Records(n.audits[|s.audits|], call, s.entries[call.id], n.entries[call.id], response)
  {
    AuditNames(call);
  }

  /** A committed call on an existing row writes exactly one audit row, which names the row and the caller
      and tells success from failure; a call that rolls back writes none and leaves the row alone. */
  lemma {:induction false} OneAuditPerCommit(max: int, calls: seq<Call>, call: Call)
    requires CreatesNew(calls) && !call.Create? && call.id < |Run(max, calls).entries|
    ensures
      var s := Run(max, calls);
      var (n, response) := Serve(max, s, call);
      if response == Failed || response == IllegalReason then n.audits == s.audits && n.entries == s.entries
      else
        && |n.audits| == |s.audits| + 1 && n.audits[..|s.audits|] == s.audits
        && Records(n.audits[|s.audits|], call, s.entries[call.id], n.entries[call.id], response)
  {
    Reachable(max, calls);
    var s := Run(max, calls);
    var e := s.entries[call.id];
    var d := if call.Reprocess? then ReprocessDraft(max, e, call.env) else DiscardDraft(e, call.reason, call.env);
    DraftMoves(max, e, call.reason, call.env, d);
    DraftWords(max, e, call, d);
    ConcludeRecords(s, call, d);
  }

  /** The row has the status, one attempt further; the rest of the table is as it was. */
  predicate Tried(s: State, n: State, id: nat, status: Status, now: int)
    requires id < |s.entries|
  {
    && |n.entries| == |s.entries| && (forall i :: 0 <= i < |s.entries| && i != id ==> n.entries[i] == s.entries[i])
    && SameRecord(s.entries[id], n.entries[id])
    && n.entries[id].status == status && n.entries[id].attempts == s.entries[id].attempts + 1
    && n.entries[id].lastReprocessedAt == Some(now) && n.entries[id].updatedAt == now
  }

  /** A reprocess call on an existing row ends in one of these ways, each exactly under its condition:
      - all attempts used up: refused, nothing changes;
      - not retryable: a conflict, nothing changes, but that a row found REPROCESSING is set back;
      - from another topic, or without a readable payload: a conflict that uses up an attempt;
      - sent: REPROCESSED, one attempt further, the record once more on its own topic;
      - not sent for certain: REPROCESS_FAILED, one attempt further, the record there at most once more;
      and when the audit or the commit fails, the row stays and only a written record remains. */
  lemma ReprocessOutcome(max: int, s: State, call: Call)
    requires call.Reprocess?
    ensures
      var (n, response) := Serve(max, s, call);
      var found := call.id < |s.entries|;
      var allowed := found && s.entries[call.id].attempts < max;
      var retryable := allowed && (s.entries[call.id].status == Pending || s.entries[call.id].status == ReprocessFailed);
      var stuck := allowed && s.entries[call.id].status == Reprocessing;
      var ready := retryable && s.entries[call.id].payload.Some? &&
        (s.entries[call.id].sourceTopic == "transaction-events" || s.entries[call.id].sourceTopic == "transaction-events-replay");
      var kept := !call.env.auditFails && call.env.commits;
      && (response == NotFound <==> !found)
      && (response == Failed <==> found && !kept)
      && (response == MaxAttemptsExceeded <==> found && !allowed && kept)
      && (response == StateConflict <==> allowed && !ready && kept)
      && (response.Done? <==> ready && call.env.send == Sent && kept)
      && (response == PublishFailed <==> ready && call.env.send != Sent && kept)
      && (!kept || (!retryable && !stuck) ==> n.entries == s.entries)
      && (stuck && kept ==> n.entries == s.entries[call.id := n.entries[call.id]] && n.entries[call.id].status == ReprocessFailed
                            && n.entries[call.id].attempts == s.entries[call.id].attempts)
      && (retryable && !ready && kept ==> Tried(s, n, call.id, ReprocessFailed, call.env.now))
      && (response.Done? ==> Tried(s, n, call.id, Reprocessed, call.env.now))
      && (response.Done? ==> response == Done(Reprocessed, s.entries[call.id].attempts + 1))
      && (response == PublishFailed ==> Tried(s, n, call.id, ReprocessFailed, call.env.now))
      && n.copies == if ready && call.env.send != NotSent
                     then s.copies + [Copy(call.id, s.entries[call.id].sourceTopic, s.entries[call.id].payload.value)]
                     else s.copies
  {
    if call.id < |s.entries| { assert s.copies + [] == s.copies; }
  }

  /** A discard call on an existing row discards it exactly when it is PENDING or REPROCESS_FAILED, the
      reason has text, and audit and commit go well: the row is then DISCARDED with that reason and the
      attempts it had. A row that is not retryable is a conflict, a missing or blank reason illegal.
      Nothing else changes, and no record is put anywhere. */
  lemma DiscardOutcome(max: int, s: State, call: Call)
    requires call.Discard?
    ensures
      var (n, response) := Serve(max, s, call);
      var found := call.id < |s.entries|;
      var retryable := found && (s.entries[call.id].status == Pending || s.entries[call.id].status == ReprocessFailed);
      var said := call.reason.Some? && exists i :: 0 <= i < |call.reason.value| && !IsWhitespace(call.reason.value[i]);
      var kept := !call.env.auditFails && call.env.commits;
      && (response == NotFound <==> !found)
      && (response.Done? <==> retryable && said && kept)
      && (response == StateConflict <==> found && !retryable && kept)
      && (response == IllegalReason <==> retryable && !said)
      && (response == Failed <==> found && !kept && !(retryable && !said))
      && (!response.Done? ==> n.entries == s.entries)
      && (response.Done? ==>
            && response == Done(Discarded, s.entries[call.id].attempts)
            && Discards(s, n, call.id, call.reason, call.env.now))
      && n.copies == s.copies && n.undone == s.undone
  {
    if call.id < |s.entries| { assert s.copies + [] == s.copies && s.undone + [] == s.undone; }
  }

  predicate Discards(s: State, n: State, id: nat, reason: Option<string>, now: int)
    requires id < |s.entries|
  {
    && |n.entries| == |s.entries| && (forall i :: 0 <= i < |s.entries| && i != id ==> n.entries[i] == s.entries[i])
    && SameRecord(s.entries[id], n.entries[id])
    && n.entries[id].status == Discarded && n.entries[id].attempts == s.entries[id].attempts
    && n.entries[id].discardReason == reason && n.entries[id].discardedAt == Some(now) && n.entries[id].updatedAt == now
    && n.entries[id].lastReprocessedAt == s.entries[id].lastReprocessedAt
  }

  /** Copies of a row never outnumber its attempts and the rolled-back copies; each goes to the row's
      own topic and is the row's own record. */
  lemma CopiesAreBounded(max: int, calls: seq<Call>, id: nat)
    requires CreatesNew(calls)
    ensures
      var s := Run(max, calls);
      && CopiesOf(s.copies, id) <= AtLeastZero(max) + CopiesOf(s.undone, id)
      && forall i :: 0 <= i < |s.copies| ==> CopyOk(s, s.copies[i])
  {
    Reachable(max, calls);
  }
}
