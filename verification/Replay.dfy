/** The replay of recorded events over HTTP: validation outcomes, sends with retries, and what the
    counters of a report add up to. */
module Replay {
  import opened Counting
  import opened Domain

  // ----- Input -----

  /** What validation says of a row; its rules are outside the model. */
  datatype Check = Valid(eventId: string) | Invalid(reason: string)

  /** A row of the input: its type fields, where present and non-blank, and its validation. */
  datatype Row = Row(native: Option<string>, normalized: Option<string>, support: Option<string>, check: Check)

  /** A line that is no JSON object ends the whole replay without a report. */
  datatype Line = Parsed(row: Row) | Broken

  datatype Config = Config(
    maxEvents: Option<nat>, dryRun: bool, retryCount: nat, retryConnectionError: bool, stopOnError: bool)

  type StatusCode = x: int | 100 <= x <= 999 witness 200

  /** How one HTTP call ends. */
  datatype Reply = Status(code: StatusCode) | TimedOut | Unreachable

  /** The k-th HTTP call of the run ends with replies(k). */
  type Server = nat -> Reply

  datatype Category = Success | Duplicate | ClientError | ServerError

  function ClassifyHttpStatus(status: int): Category {
    if 200 <= status < 300 then Success
    else if status == 409 then Duplicate
    else if 400 <= status < 500 then ClientError
    else if 500 <= status < 600 then ServerError
    else ClientError
  }

  /** How the send of an event ended. */
  datatype Final = Http(code: StatusCode) | Timeout | ConnectionError

  predicate IsFailure(f: Final) { !(f.Http? && 200 <= f.code < 300) }

  // ----- Counters -----

  type Counter = map<string, nat>

  /** A field that is not there counts nowhere. */
  function BumpAny<K(!new)>(c: map<K, nat>, key: Option<K>): (r: map<K, nat>)
    ensures forall k :: CountOf(r, k) == CountOf(c, k) + One(key == Some(k))
  {
    if key.None? then c else Bump(c, key.value)
  }

  datatype Types = Types(native: Counter, normalized: Counter, support: Counter)

  function AddTypes(t: Types, row: Row): Types {
    Types(BumpAny(t.native, row.native), BumpAny(t.normalized, row.normalized), BumpAny(t.support, row.support))
  }

  /** What the rows were; `read` and `taken` remember the rows read and the accepted ones among them,
      which the report does not show. */
  datatype Reading = Reading(
    total: nat, accepted: nat, rejected: nat, inputTypes: Types, acceptedTypes: Types, rejectedTypes: Types,
    read: seq<Row>, taken: seq<Row>)

  /** What the sends came to; `calls` remembers the HTTP calls, which the report does not show. */
  datatype Sending = Sending(
    success: nat, duplicate: nat, clientError: nat, serverError: nat, timeout: nat, connectionError: nat,
    retries: nat, retryTimeouts: nat, retryServerErrors: nat, retryConnectionErrors: nat, calls: nat)

  datatype Stats = Stats(rows: Reading, sends: Sending)

  const NO_TYPES := Types(map[], map[], map[])
  const ZERO := Stats(Reading(0, 0, 0, NO_TYPES, NO_TYPES, NO_TYPES, [], []), Sending(0, 0, 0, 0, 0, 0, 0, 0, 0, 0, 0))

  // ----- One event -----

  function RecordStatus(s: Sending, status: int): Sending {
    match ClassifyHttpStatus(status)
    case Success => s.(success := s.success + 1)
    case Duplicate => s.(duplicate := s.duplicate + 1)
    case ClientError => s.(clientError := s.clientError + 1)
    case ServerError => s.(serverError := s.serverError + 1)
  }

  predicate RetryWorthy(cfg: Config, reply: Reply) {
    match reply
    case Status(code) => ClassifyHttpStatus(code) == ServerError
    case TimedOut => true
    case Unreachable => cfg.retryConnectionError
  }

  function Retry(s: Sending, reply: Reply): Sending {
    var n := s.(retries := s.retries + 1, calls := s.calls + 1);
    match reply
    case Status(_) => n.(retryServerErrors := s.retryServerErrors + 1)
    case TimedOut => n.(retryTimeouts := s.retryTimeouts + 1)
    case Unreachable => n.(retryConnectionErrors := s.retryConnectionErrors + 1)
  }

  function Conclude(s: Sending, reply: Reply): (Sending, Final) {
    var n := s.(calls := s.calls + 1);
    match reply
    case Status(code) => (RecordStatus(n, code), Http(code))
    case TimedOut => (n.(timeout := s.timeout + 1), Timeout)
    case Unreachable => (n.(connectionError := s.connectionError + 1), ConnectionError)
  }

  /** The sends of one event from the given attempt on. */
  function Send(cfg: Config, s: Sending, server: Server, attempt: nat): (Sending, Final)
    requires attempt <= cfg.retryCount
    decreases cfg.retryCount - attempt
  {
    var reply := server(s.calls);
    if RetryWorthy(cfg, reply) && attempt < cfg.retryCount then Send(cfg, Retry(s, reply), server, attempt + 1)
    else Conclude(s, reply)
  }

  function Read(r: Reading, row: Row): Reading {
    r.(total := r.total + 1, inputTypes := AddTypes(r.inputTypes, row), read := r.read + [row])
  }

  /** A row that was read is counted as accepted or rejected, and so are its types. */
  function Take(r: Reading, row: Row): Reading {
    var n := Read(r, row);
    if row.check.Invalid? then n.(rejected := r.rejected + 1, rejectedTypes := AddTypes(r.rejectedTypes, row))
    else n.(accepted := r.accepted + 1, acceptedTypes := AddTypes(r.acceptedTypes, row), taken := r.taken + [row])
  }

  /** One row: taken, and sent if it is valid and this is no dry run. Tells whether to stop. */
  function Handle(cfg: Config, s: Stats, row: Row, server: Server): (Stats, bool) {
    var rows := Take(s.rows, row);
    if row.check.Invalid? then (Stats(rows, s.sends), cfg.stopOnError)
    else if cfg.dryRun then (Stats(rows, s.sends), false)
    else
      var (sends, final) := Send(cfg, s.sends, server, 0);
      (Stats(rows, sends), IsFailure(final) && cfg.stopOnError)
  }

  predicate Full(cfg: Config, r: Reading) { cfg.maxEvents.Some? && r.total >= cfg.maxEvents.value }

  /** The run over the remaining lines; None when a broken line ends it. */
  function Run(cfg: Config, s: Stats, lines: seq<Line>, server: Server): Option<Stats>
    decreases lines
  {
    if lines == [] then Some(s)
    else if lines[0].Broken? then None
    else if Full(cfg, s.rows) then Some(s)
    else
      var (n, stop) := Handle(cfg, s, lines[0].row, server);
      if stop then Some(n) else Run(cfg, n, lines[1..], server)
  }

  // ----- The script -----

  class ReplayStats {
    var totalRead: nat
    var payloadAccepted: nat
    var payloadRejected: nat
    var httpSuccess: nat
    var httpDuplicateOrConflict: nat
    var httpClientError: nat
    var httpServerError: nat
    var timeout: nat
    var connectionError: nat
    var retryAttempts: nat
    var retryTimeoutAttempts: nat
    var retryServerErrorAttempts: nat
    var retryConnectionErrorAttempts: nat
    var inputTypes: Types
    var acceptedTypes: Types
    var rejectedTypes: Types
    var read: seq<Row>
    var taken: seq<Row>
    var calls: nat

    function Rows(): Reading
      reads this
    {
      Reading(totalRead, payloadAccepted, payloadRejected, inputTypes, acceptedTypes, rejectedTypes, read, taken)
    }

    function Sends(): Sending
      reads this
    {
      Sending(httpSuccess, httpDuplicateOrConflict, httpClientError, httpServerError, timeout, connectionError,
              retryAttempts, retryTimeoutAttempts, retryServerErrorAttempts, retryConnectionErrorAttempts, calls)
    }

    constructor ()
      ensures Stats(Rows(), Sends()) == ZERO
    {
      totalRead, payloadAccepted, payloadRejected := 0, 0, 0;
      httpSuccess, httpDuplicateOrConflict, httpClientError, httpServerError, timeout, connectionError := 0, 0, 0, 0, 0, 0;
      retryAttempts, retryTimeoutAttempts, retryServerErrorAttempts, retryConnectionErrorAttempts := 0, 0, 0, 0;
      inputTypes, acceptedTypes, rejectedTypes := NO_TYPES, NO_TYPES, NO_TYPES;
      read, taken, calls := [], [], 0;
    }

    method Record(status: int)
      modifies this
      ensures Sends() == RecordStatus(old(Sends()), status) && Rows() == old(Rows())
    {
      match ClassifyHttpStatus(status) {
        case Success => httpSuccess := httpSuccess + 1;
        case Duplicate => httpDuplicateOrConflict := httpDuplicateOrConflict + 1;
        case ClientError => httpClientError := httpClientError + 1;
        case ServerError => httpServerError := httpServerError + 1;
      }
    }

    /** One attempt; None when it is to be repeated. */
    method TryOnce(cfg: Config, reply: Reply, attempt: nat) returns (final: Option<Final>)
      modifies this
      ensures Rows() == old(Rows())
      ensures if RetryWorthy(cfg, reply) && attempt < cfg.retryCount
              then final == None && Sends() == Retry(old(Sends()), reply)
              else final.Some? && (Sends(), final.value) == Conclude(old(Sends()), reply)
    {
      calls := calls + 1;
      match reply {
        case Status(code) =>
          if ClassifyHttpStatus(code) == ServerError && attempt < cfg.retryCount {
            retryAttempts := retryAttempts + 1;
            retryServerErrorAttempts := retryServerErrorAttempts + 1;
            return None;
          }
          Record(code);
          return Some(Http(code));
        case TimedOut =>
          if attempt < cfg.retryCount {
            retryAttempts := retryAttempts + 1;
            retryTimeoutAttempts := retryTimeoutAttempts + 1;
            return None;
          }
          timeout := timeout + 1;
          return Some(Timeout);
        case Unreachable =>
          if cfg.retryConnectionError && attempt < cfg.retryCount {
            retryAttempts := retryAttempts + 1;
            retryConnectionErrorAttempts := retryConnectionErrorAttempts + 1;
            return None;
          }
          connectionError := connectionError + 1;
          return Some(ConnectionError);
      }
    }

    method ReadRow(row: Row)
      modifies this
      ensures Rows() == Read(old(Rows()), row) && Sends() == old(Sends())
    {
      totalRead := totalRead + 1;
      inputTypes := AddTypes(inputTypes, row);
      read := read + [row];
    }

    method TakeRow(row: Row)
      modifies this
      ensures Rows() == Take(old(Rows()), row) && Sends() == old(Sends())
    {
      ReadRow(row);
      if row.check.Invalid? {
        payloadRejected := payloadRejected + 1;
        rejectedTypes := AddTypes(rejectedTypes, row);
      } else {
        payloadAccepted := payloadAccepted + 1;
        acceptedTypes := AddTypes(acceptedTypes, row);
        taken := taken + [row];
      }
    }
  }

  method SendWithRetry(cfg: Config, server: Server, stats: ReplayStats) returns (final: Final)
    modifies stats
    ensures (stats.Sends(), final) == Send(cfg, old(stats.Sends()), server, 0) && stats.Rows() == old(stats.Rows())
  {
    var attempt := 0;
    while true
      invariant 0 <= attempt <= cfg.retryCount && stats.Rows() == old(stats.Rows())
      invariant Send(cfg, stats.Sends(), server, attempt) == Send(cfg, old(stats.Sends()), server, 0)
      decreases cfg.retryCount - attempt
    {
      var outcome := stats.TryOnce(cfg, server(stats.calls), attempt);
      if outcome.Some? {
        return outcome.value;
      }
      attempt := attempt + 1;
    }
  }

  method HandleRow(cfg: Config, row: Row, server: Server, stats: ReplayStats) returns (stop: bool)
    modifies stats
    ensures (Stats(stats.Rows(), stats.Sends()), stop) == Handle(cfg, old(Stats(stats.Rows(), stats.Sends())), row, server)
  {
    stats.TakeRow(row);
    if row.check.Invalid? {
      return cfg.stopOnError;
    }
    if cfg.dryRun {
      return false;
    }
    var final := SendWithRetry(cfg, server, stats);
    return IsFailure(final) && cfg.stopOnError;
  }

  method ReplayLines(cfg: Config, lines: seq<Line>, server: Server, stats: ReplayStats) returns (completed: bool)
    requires Stats(stats.Rows(), stats.Sends()) == ZERO
    modifies stats
    ensures Run(cfg, ZERO, lines, server) == if completed then Some(Stats(stats.Rows(), stats.Sends())) else None
  {
    var next := 0;
    while next < |lines|
      invariant 0 <= next <= |lines|
      invariant Run(cfg, Stats(stats.Rows(), stats.Sends()), lines[next..], server) == Run(cfg, ZERO, lines, server)
    {
      if lines[next].Broken? {
        return false;
      }
      if cfg.maxEvents.Some? && stats.totalRead >= cfg.maxEvents.value {
        return true;
      }
      var stop := HandleRow(cfg, lines[next].row, server, stats);
      if stop {
        return true;
      }
      next := next + 1;
    }
    return true;
  }

  // ----- Conservation -----

  /** The six final outcomes together. */
  function Outcomes(s: Sending): nat {
    s.success + s.duplicate + s.clientError + s.serverError + s.timeout + s.connectionError
  }

  ghost predicate AddUp<K(!new)>(all: map<K, nat>, a: map<K, nat>, b: map<K, nat>) {
    forall key :: CountOf(all, key) == CountOf(a, key) + CountOf(b, key)
  }

  ghost predicate TypesAddUp(all: Types, a: Types, b: Types) {
    AddUp(all.native, a.native, b.native) && AddUp(all.normalized, a.normalized, b.normalized) && AddUp(all.support, a.support, b.support)
  }

  /** Rows read are the accepted and the rejected ones, type by type. */
  ghost predicate RowsAddUp(r: Reading) {
    && r.total == |r.read| == r.accepted + r.rejected && r.accepted == |r.taken|
    && TypesAddUp(r.inputTypes, r.acceptedTypes, r.rejectedTypes)
  }

  predicate AtMostTimes(n: nat, a: nat, b: nat) { n <= a * b }

  lemma NoneAtMost(a: nat, b: nat)
    ensures AtMostTimes(0, a, b)
  {
  }

  lemma OneMoreTime(n: nat, more: nat, a: nat, b: nat)
    requires AtMostTimes(n, a, b) && more <= a
    ensures AtMostTimes(n + more, a, b + 1)
  {
    assert a * (b + 1) == a * b + a;
  }

  /** Each of `events` sends has one outcome; calls are outcomes and retries, the retries bounded. */
  ghost predicate SendsAddUp(cfg: Config, s: Sending, events: nat) {
    && Outcomes(s) == events && s.calls == events + s.retries
    && s.retries == s.retryTimeouts + s.retryServerErrors + s.retryConnectionErrors
    && AtMostTimes(s.retries, cfg.retryCount, events)
    && (!cfg.retryConnectionError ==> s.retryConnectionErrors == 0)
  }

  /** The kinds of replies; each has its counters. */
  datatype Kind = Fine | Taken | Refused | Broke | Slow | Away

  function KindOf(reply: Reply): Kind {
    match reply
    case Status(code) =>
      if 200 <= code <= 299 then Fine else if code == 409 then Taken else if 500 <= code <= 599 then Broke else Refused
    case TimedOut => Slow
    case Unreachable => Away
  }

  /** How many of the first `calls` replies are of the kind. */
  function Replies(server: Server, calls: nat, kind: Kind): nat {
    if calls == 0 then 0 else Replies(server, calls - 1, kind) + One(KindOf(server(calls - 1)) == kind)
  }

  /** The replies of a kind that were counted, as a final outcome or as a retry. */
  function Counted(s: Sending, kind: Kind): nat {
    match kind
    case Fine => s.success
    case Taken => s.duplicate
    case Refused => s.clientError
    case Broke => s.serverError + s.retryServerErrors
    case Slow => s.timeout + s.retryTimeouts
    case Away => s.connectionError + s.retryConnectionErrors
  }

  /** Every reply of the server is counted once, under its kind. */
  ghost predicate RepliesCounted(server: Server, s: Sending) {
    forall kind :: Counted(s, kind) == Replies(server, s.calls, kind)
  }

  ghost predicate Conserved(cfg: Config, server: Server, s: Stats) {
    && RowsAddUp(s.rows) && SendsAddUp(cfg, s.sends, if cfg.dryRun then 0 else s.rows.accepted)
    && RepliesCounted(server, s.sends)
  }

  lemma BumpsAddUp<K(!new)>(all: map<K, nat>, a: map<K, nat>, b: map<K, nat>, key: Option<K>)
    requires AddUp(all, a, b)
    ensures AddUp(BumpAny(all, key), BumpAny(a, key), b) && AddUp(BumpAny(all, key), a, BumpAny(b, key))
  {
  }

  lemma TypesKeep(all: Types, a: Types, b: Types, row: Row)
    requires TypesAddUp(all, a, b)
    ensures TypesAddUp(AddTypes(all, row), AddTypes(a, row), b) && TypesAddUp(AddTypes(all, row), a, AddTypes(b, row))
  {
    BumpsAddUp(all.native, a.native, b.native, row.native);
    BumpsAddUp(all.normalized, a.normalized, b.normalized, row.normalized);
    BumpsAddUp(all.support, a.support, b.support, row.support);
  }

  lemma TakeKeeps(r: Reading, row: Row)
    requires RowsAddUp(r)
    ensures RowsAddUp(Take(r, row))
  {
    TypesKeep(r.inputTypes, r.acceptedTypes, r.rejectedTypes, row);
  }

  function FinalOf(reply: Reply): Final {
    match reply
    case Status(code) => Http(code)
    case TimedOut => Timeout
    case Unreachable => ConnectionError
  }

  /** From `s` to `n` the one counter of this outcome has gone up by one. */
  predicate OneOutcome(s: Sending, n: Sending, final: Final) {
    && n.success == s.success + One(final.Http? && 200 <= final.code <= 299)
    && n.duplicate == s.duplicate + One(final.Http? && final.code == 409)
    && n.clientError == s.clientError +
         One(final.Http? && final.code != 409 && (final.code < 200 || 300 <= final.code <= 499 || final.code >= 600))
    && n.serverError == s.serverError + One(final.Http? && 500 <= final.code <= 599)
    && n.timeout == s.timeout + One(final == Timeout)
    && n.connectionError == s.connectionError + One(final == ConnectionError)
  }

  /** From `s` to `n` every retry has been counted, by its cause, and one call more than the retries. */
  predicate RetriesTold(cfg: Config, s: Sending, n: Sending) {
    && s.retries <= n.retries && n.calls - s.calls == 1 + n.retries - s.retries
    && n.retries - s.retries == (n.retryTimeouts - s.retryTimeouts) + (n.retryServerErrors - s.retryServerErrors)
                                + (n.retryConnectionErrors - s.retryConnectionErrors)
    && (!cfg.retryConnectionError ==> n.retryConnectionErrors == s.retryConnectionErrors)
  }

  /** A failure that another attempt may get past: a server error, a timeout and, if so configured, no
      connection. */
  predicate MayPass(cfg: Config, reply: Reply) {
    match reply
    case Status(code) => 500 <= code <= 599
    case TimedOut => true
    case Unreachable => cfg.retryConnectionError
  }

  /** A send goes on exactly while the reply is worth a retry and retries are left. Its outcome is the
      last reply, and exactly the counter of that outcome goes up. */
  lemma {:induction false} SendCounts(cfg: Config, s: Sending, server: Server, attempt: nat)
    requires attempt <= cfg.retryCount
    ensures
      var (n, final) := Send(cfg, s, server, attempt);
      && s.calls < n.calls && final == FinalOf(server(n.calls - 1))
      && (forall c :: s.calls <= c < n.calls - 1 ==> MayPass(cfg, server(c)))
      && n.retries <= s.retries + (cfg.retryCount - attempt)
      && (MayPass(cfg, server(n.calls - 1)) ==> n.retries == s.retries + (cfg.retryCount - attempt))
      && OneOutcome(s, n, final) && RetriesTold(cfg, s, n)
    decreases cfg.retryCount - attempt
  {
    var reply := server(s.calls);
    if RetryWorthy(cfg, reply) && attempt < cfg.retryCount {
      SendCounts(cfg, Retry(s, reply), server, attempt + 1);
    } else {
      ConclusionIs(s, reply);
    }
  }

  lemma ConclusionIs(s: Sending, reply: Reply)
    ensures
      var (n, final) := Conclude(s, reply);
      && final == FinalOf(reply) && n.calls == s.calls + 1 && OneOutcome(s, n, final)
      && n.retries == s.retries && n.retryTimeouts == s.retryTimeouts && n.retryServerErrors == s.retryServerErrors
      && n.retryConnectionErrors == s.retryConnectionErrors
  {
  }

  lemma RetryCounts(s: Sending, reply: Reply, kind: Kind)
    requires KindOf(reply) in {Broke, Slow, Away}
    ensures Counted(Retry(s, reply), kind) == Counted(s, kind) + One(KindOf(reply) == kind)
    ensures Retry(s, reply).calls == s.calls + 1
  {
  }

  lemma ConclusionCounts(s: Sending, reply: Reply, kind: Kind)
    ensures Counted(Conclude(s, reply).0, kind) == Counted(s, kind) + One(KindOf(reply) == kind)
    ensures Conclude(s, reply).0.calls == s.calls + 1
  {
  }

  lemma {:induction false} SendCounted(cfg: Config, s: Sending, server: Server, attempt: nat)
    requires attempt <= cfg.retryCount && RepliesCounted(server, s)
    ensures RepliesCounted(server, Send(cfg, s, server, attempt).0)
    decreases cfg.retryCount - attempt
  {
    var reply := server(s.calls);
    if RetryWorthy(cfg, reply) && attempt < cfg.retryCount {
      forall kind { RetryCounts(s, reply, kind); }
      SendCounted(cfg, Retry(s, reply), server, attempt + 1);
    } else {
      forall kind { ConclusionCounts(s, reply, kind); }
    }
  }

  lemma SendKeeps(cfg: Config, s: Sending, server: Server, events: nat)
    requires SendsAddUp(cfg, s, events)
    ensures SendsAddUp(cfg, Send(cfg, s, server, 0).0, events + 1)
  {
    SendCounts(cfg, s, server, 0);
    OneMoreTime(s.retries, Send(cfg, s, server, 0).0.retries - s.retries, cfg.retryCount, events);
  }

  lemma HandleKeeps(cfg: Config, s: Stats, row: Row, server: Server)
    requires Conserved(cfg, server, s)
    ensures Conserved(cfg, server, Handle(cfg, s, row, server).0)
  {
    TakeKeeps(s.rows, row);
    if row.check.Valid? && !cfg.dryRun {
      SendKeeps(cfg, s.sends, server, s.rows.accepted);
      SendCounted(cfg, s.sends, server, 0);
    }
  }

  lemma {:induction false} RunKeeps(cfg: Config, s: Stats, lines: seq<Line>, server: Server)
    requires Conserved(cfg, server, s)
    ensures Run(cfg, s, lines, server).Some? ==> Conserved(cfg, server, Run(cfg, s, lines, server).value)
    decreases lines
  {
    if lines == [] || lines[0].Broken? || Full(cfg, s.rows) {
    } else {
      HandleKeeps(cfg, s, lines[0].row, server);
      if !Handle(cfg, s, lines[0].row, server).1 {
        RunKeeps(cfg, Handle(cfg, s, lines[0].row, server).0, lines[1..], server);
      }
    }
  }

  lemma EmptyAddUp<K(!new)>()
    ensures AddUp<K>(map[], map[], map[])
  {
  }

  lemma NoTypesAddUp()
    ensures TypesAddUp(NO_TYPES, NO_TYPES, NO_TYPES)
  {
    EmptyAddUp<string>();
  }

  predicate NothingSent(s: Sending) {
    && s.success == 0 && s.duplicate == 0 && s.clientError == 0 && s.serverError == 0 && s.timeout == 0
    && s.connectionError == 0 && s.retries == 0 && s.retryTimeouts == 0 && s.retryServerErrors == 0
    && s.retryConnectionErrors == 0 && s.calls == 0
  }

  lemma NoRowsAddUp(s: Stats)
    requires s == ZERO
    ensures RowsAddUp(s.rows) && s.rows.accepted == 0 && NothingSent(s.sends)
  {
    NoTypesAddUp();
  }

  lemma NoSends(cfg: Config, s: Sending, events: nat)
    requires NothingSent(s) && events == 0
    ensures SendsAddUp(cfg, s, events)
  {
    NoneAtMost(cfg.retryCount, events);
  }

  lemma NoReplies(server: Server, s: Sending)
    requires NothingSent(s)
    ensures RepliesCounted(server, s)
  {
    forall kind ensures Counted(s, kind) == 0 == Replies(server, s.calls, kind) {}
  }

  lemma NothingYet(cfg: Config, server: Server, s: Stats)
    requires RowsAddUp(s.rows) && s.rows.accepted == 0 && NothingSent(s.sends)
    ensures Conserved(cfg, server, s)
  {
    NoSends(cfg, s.sends, if cfg.dryRun then 0 else s.rows.accepted);
    NoReplies(server, s.sends);
  }

  /** Conservation: whatever the input and the server do, a report's rows are its accepted and rejected
      ones, type by type; outside a dry run each accepted event has one final outcome, and the HTTP calls
      are the accepted events and the retries, at most `retryCount` an event; and every reply of the
      server is counted exactly once under its kind. */
  lemma ReportAddsUp(cfg: Config, start: Stats, lines: seq<Line>, server: Server)
    requires start == ZERO && Run(cfg, start, lines, server).Some?
    ensures Conserved(cfg, server, Run(cfg, start, lines, server).value)
  {
    NoRowsAddUp(start);
    NothingYet(cfg, server, start);
    RunKeeps(cfg, start, lines, server);
  }

  // ----- What was read -----

  predicate AllParsed(lines: seq<Line>) { forall i :: 0 <= i < |lines| ==> lines[i].Parsed? }

  function RowsOf(lines: seq<Line>): seq<Row>
    requires AllParsed(lines)
  {
    seq(|lines|, i requires 0 <= i < |lines| => lines[i].row)
  }

  /** The valid rows, in their order. */
  function ValidRows(rows: seq<Row>): seq<Row> {
    if rows == [] then []
    else
      var earlier, last := ValidRows(rows[..|rows| - 1]), rows[|rows| - 1];
      if last.check.Valid? then earlier + [last] else earlier
  }

  lemma HandleReads(cfg: Config, s: Stats, row: Row, server: Server)
    ensures
      var (m, stop) := Handle(cfg, s, row, server);
      && m.rows.total == s.rows.total + 1
      && m.rows.read == s.rows.read + [row]
      && m.rows.taken == (if row.check.Valid? then s.rows.taken + [row] else s.rows.taken)
      && (stop ==> cfg.stopOnError)
  {
  }

  /** `after` has over `before` the rows of the first `k` lines. */
  predicate ReadUpTo(lines: seq<Line>, k: int, before: seq<Row>, after: seq<Row>) {
    0 <= k <= |lines| && AllParsed(lines[..k]) && after == before + RowsOf(lines[..k])
  }

  lemma ReadNothing(lines: seq<Line>, rows: seq<Row>)
    ensures ReadUpTo(lines, 0, rows, rows)
  {
    assert RowsOf(lines[..0]) == [];
  }

  lemma ReadOneMore(lines: seq<Line>, k: int, before: seq<Row>, after: seq<Row>)
    requires lines != [] && lines[0].Parsed? && ReadUpTo(lines[1..], k, before + [lines[0].row], after)
    ensures ReadUpTo(lines, k + 1, before, after)
  {
    var whole, tail := lines[..k + 1], lines[1..][..k];
    assert whole == [lines[0]] + tail;
    assert RowsOf(whole) == [lines[0].row] + RowsOf(tail);
    SeqsRegroup(before, [lines[0].row], RowsOf(tail));
  }

  /** The rows read are the rows of the first lines of the input, in their order. */
  lemma {:induction false} ReadsPrefix(cfg: Config, s: Stats, lines: seq<Line>, server: Server)
    requires Run(cfg, s, lines, server).Some?
    ensures
      var n := Run(cfg, s, lines, server).value.rows;
      ReadUpTo(lines, n.total - s.rows.total, s.rows.read, n.read)
    decreases lines
  {
    if lines == [] || Full(cfg, s.rows) {
      ReadNothing(lines, s.rows.read);
    } else {
      var (m, stop) := Handle(cfg, s, lines[0].row, server);
      HandleReads(cfg, s, lines[0].row, server);
      if stop {
        ReadNothing(lines[1..], m.rows.read);
        ReadOneMore(lines, 0, s.rows.read, m.rows.read);
      } else {
        ReadsPrefix(cfg, m, lines[1..], server);
        var n := Run(cfg, m, lines[1..], server).value.rows;
        ReadOneMore(lines, n.total - m.rows.total, s.rows.read, n.read);
      }
    }
  }

  /** The accepted rows are the valid ones among those read, in their order. */
  lemma {:induction false} AcceptsValidRows(cfg: Config, s: Stats, lines: seq<Line>, server: Server)
    requires Run(cfg, s, lines, server).Some? && s.rows.taken == ValidRows(s.rows.read)
    ensures
      var n := Run(cfg, s, lines, server).value.rows;
      n.taken == ValidRows(n.read)
    decreases lines
  {
    if lines == [] || Full(cfg, s.rows) {
    } else {
      var (m, stop) := Handle(cfg, s, lines[0].row, server);
      HandleReads(cfg, s, lines[0].row, server);
      ValidRowsSnoc(s.rows.read, lines[0].row);
      if !stop { AcceptsValidRows(cfg, m, lines[1..], server); }
    }
  }

  lemma ValidRowsSnoc(rows: seq<Row>, row: Row)
    ensures ValidRows(rows + [row]) == if row.check.Valid? then ValidRows(rows) + [row] else ValidRows(rows)
  {
    assert (rows + [row])[..|rows|] == rows;
  }

  lemma SeqsRegroup<T>(a: seq<T>, b: seq<T>, c: seq<T>)
    ensures (a + b) + c == a + (b + c)
  {
  }

  /** Each type counter says how many of the rows have the type, in each of the three fields. */
  ghost predicate TypesTold(t: Types, rows: seq<Row>) {
    && (forall key :: CountOf(t.native, key) == Count(rows, (r: Row) => r.native == Some(key)))
    && (forall key :: CountOf(t.normalized, key) == Count(rows, (r: Row) => r.normalized == Some(key)))
    && (forall key :: CountOf(t.support, key) == Count(rows, (r: Row) => r.support == Some(key)))
  }

  lemma NoTypesTold()
    ensures TypesTold(NO_TYPES, [])
  {
  }

  lemma TypesToldNext(t: Types, rows: seq<Row>, row: Row)
    requires TypesTold(t, rows)
    ensures TypesTold(AddTypes(t, row), rows + [row])
  {
    var n := AddTypes(t, row);
    forall key ensures CountOf(n.native, key) == Count(rows + [row], (r: Row) => r.native == Some(key)) {
      CountSnoc(rows, (r: Row) => r.native == Some(key), row);
    }
    forall key ensures CountOf(n.normalized, key) == Count(rows + [row], (r: Row) => r.normalized == Some(key)) {
      CountSnoc(rows, (r: Row) => r.normalized == Some(key), row);
    }
    forall key ensures CountOf(n.support, key) == Count(rows + [row], (r: Row) => r.support == Some(key)) {
      CountSnoc(rows, (r: Row) => r.support == Some(key), row);
    }
  }

  lemma HandleTells(cfg: Config, s: Stats, row: Row, server: Server)
    requires TypesTold(s.rows.inputTypes, s.rows.read) && TypesTold(s.rows.acceptedTypes, s.rows.taken)
    ensures
      var n := Handle(cfg, s, row, server).0.rows;
      TypesTold(n.inputTypes, n.read) && TypesTold(n.acceptedTypes, n.taken)
  {
    TypesToldNext(s.rows.inputTypes, s.rows.read, row);
    TypesToldNext(s.rows.acceptedTypes, s.rows.taken, row);
  }

  /** The type counters count the rows read and the rows accepted; those of the rejected rows are the
      difference. */
  lemma {:induction false} TypesAreCounted(cfg: Config, s: Stats, lines: seq<Line>, server: Server)
    requires Run(cfg, s, lines, server).Some?
    requires TypesTold(s.rows.inputTypes, s.rows.read) && TypesTold(s.rows.acceptedTypes, s.rows.taken)
    ensures
      var n := Run(cfg, s, lines, server).value.rows;
      TypesTold(n.inputTypes, n.read) && TypesTold(n.acceptedTypes, n.taken)
    decreases lines
  {
    if lines == [] || Full(cfg, s.rows) {
    } else {
      var (m, stop) := Handle(cfg, s, lines[0].row, server);
      HandleTells(cfg, s, lines[0].row, server);
      if !stop { TypesAreCounted(cfg, m, lines[1..], server); }
    }
  }

  /** A broken line the reading comes to: it is looked at even when the limit has just been reached. */
  predicate MeetsBroken(cfg: Config, total: nat, lines: seq<Line>) {
    exists i :: 0 <= i < |lines| && lines[i].Broken? && (cfg.maxEvents.Some? ==> total + i <= cfg.maxEvents.value)
  }

  lemma BrokenLater(cfg: Config, total: nat, lines: seq<Line>)
    requires lines != [] && lines[0].Parsed?
    ensures MeetsBroken(cfg, total, lines) <==> MeetsBroken(cfg, total + 1, lines[1..])
  {
    if MeetsBroken(cfg, total, lines) {
      var i :| 0 <= i < |lines| && lines[i].Broken? && (cfg.maxEvents.Some? ==> total + i <= cfg.maxEvents.value);
      assert lines[1..][i - 1] == lines[i];
    }
    if MeetsBroken(cfg, total + 1, lines[1..]) {
      var i :| 0 <= i < |lines[1..]| && lines[1..][i].Broken? && (cfg.maxEvents.Some? ==> total + 1 + i <= cfg.maxEvents.value);
      assert lines[i + 1] == lines[1..][i];
    }
  }

  /** Without stop-on-error there is no report exactly when the reading comes to a line that is no JSON
      object, at the latest the first one beyond the limit. */
  lemma {:induction false} NoReportIff(cfg: Config, s: Stats, lines: seq<Line>, server: Server)
    requires !cfg.stopOnError && (cfg.maxEvents.Some? ==> s.rows.total <= cfg.maxEvents.value)
    ensures Run(cfg, s, lines, server).None? <==> MeetsBroken(cfg, s.rows.total, lines)
    decreases lines
  {
    if lines == [] {
    } else if lines[0].Broken? {
    } else if Full(cfg, s.rows) {
      NothingBeyond(cfg, s.rows.total, lines);
    } else {
      HandleReads(cfg, s, lines[0].row, server);
      NoReportIff(cfg, Handle(cfg, s, lines[0].row, server).0, lines[1..], server);
      BrokenLater(cfg, s.rows.total, lines);
    }
  }

  lemma NothingBeyond(cfg: Config, total: nat, lines: seq<Line>)
    requires lines != [] && lines[0].Parsed? && cfg.maxEvents.Some? && total >= cfg.maxEvents.value
    ensures !MeetsBroken(cfg, total, lines)
  {
  }

  /** Rows that were rejected and sends that did not succeed. */
  function Errors(s: Stats): int { s.rows.rejected + Outcomes(s.sends) - s.sends.success }

  lemma HandleErrs(cfg: Config, s: Stats, row: Row, server: Server)
    ensures
      var (m, stop) := Handle(cfg, s, row, server);
      && (Errors(m) == Errors(s) || Errors(m) == Errors(s) + 1)
      && (stop <==> cfg.stopOnError && Errors(m) == Errors(s) + 1)
  {
    if row.check.Valid? && !cfg.dryRun { SendCounts(cfg, s.sends, server, 0); }
  }

  /** With stop-on-error the reading ends at the first row that is rejected or not sent with success:
      there is at most one, and if there is none the reading went on to the limit or the end. */
  lemma {:induction false} StopsAtFirstError(cfg: Config, s: Stats, lines: seq<Line>, server: Server)
    requires Run(cfg, s, lines, server).Some? && cfg.stopOnError
    ensures
      var n := Run(cfg, s, lines, server).value;
      && (Errors(n) == Errors(s) || Errors(n) == Errors(s) + 1)
      && (Errors(n) == Errors(s) ==> n.rows.total == s.rows.total + |lines| || Full(cfg, n.rows))
    decreases lines
  {
    if lines == [] || Full(cfg, s.rows) {
    } else {
      var (m, stop) := Handle(cfg, s, lines[0].row, server);
      HandleErrs(cfg, s, lines[0].row, server);
      HandleReads(cfg, s, lines[0].row, server);
      if !stop { StopsAtFirstError(cfg, m, lines[1..], server); }
    }
  }

  /** Without stop-on-error the reading ends only at the limit or at the end of the input. */
  lemma {:induction false} ReadsOn(cfg: Config, s: Stats, lines: seq<Line>, server: Server)
    requires Run(cfg, s, lines, server).Some? && !cfg.stopOnError
    ensures
      var n := Run(cfg, s, lines, server).value.rows;
      n.total == s.rows.total + |lines| || Full(cfg, n)
    decreases lines
  {
    if lines == [] || Full(cfg, s.rows) {
    } else {
      HandleReads(cfg, s, lines[0].row, server);
      ReadsOn(cfg, Handle(cfg, s, lines[0].row, server).0, lines[1..], server);
    }
  }

  /** The limit is kept. */
  lemma {:induction false} ReadsNoMore(cfg: Config, s: Stats, lines: seq<Line>, server: Server)
    requires cfg.maxEvents.Some? && s.rows.total <= cfg.maxEvents.value && Run(cfg, s, lines, server).Some?
    ensures Run(cfg, s, lines, server).value.rows.total <= cfg.maxEvents.value
    decreases lines
  {
    if lines == [] || Full(cfg, s.rows) {
    } else {
      var (m, stop) := Handle(cfg, s, lines[0].row, server);
      if !stop { ReadsNoMore(cfg, m, lines[1..], server); }
    }
  }

  // ----- Event ids -----

  datatype IdempotencyMode = Preserve | Prefix

  datatype Result<T> = Ok(value: T) | Error(message: string)

  function ReplayEventId(eventId: string, mode: IdempotencyMode, prefix: Option<string>): Result<string> {
    if mode == Preserve then Ok(eventId)
    else if prefix.None? || prefix.value == "" then Error("--idempotency-mode prefix requires --event-id-prefix")
    else Ok(prefix.value + "-" + eventId)
  }

  /** The evaluator's way back. */
  function NormalizeEventId(eventId: string, prefix: Option<string>): string {
    if prefix.Some? && prefix.value != "" && prefix.value + "-" <= eventId then eventId[|prefix.value| + 1..]
    else eventId
  }

  /** The start-up check ties the prefix to the mode. */
  predicate ValidPrefix(mode: IdempotencyMode, prefix: Option<string>) {
    mode == Prefix <==> prefix.Some? && prefix.value != ""
  }

  /** Round trip: normalising a replayed id gives the recorded one, so replayed ids join injectively. */
  lemma PrefixRoundTrip(eventId: string, mode: IdempotencyMode, prefix: Option<string>)
    requires ValidPrefix(mode, prefix)
    ensures ReplayEventId(eventId, mode, prefix).Ok?
    ensures ReplayEventId(eventId, mode, prefix).value == if mode == Preserve then eventId else prefix.value + "-" + eventId
    ensures NormalizeEventId(ReplayEventId(eventId, mode, prefix).value, prefix) == eventId
  {
    if mode == Prefix {
      var whole := prefix.value + "-" + eventId;
      assert whole[..|prefix.value| + 1] == prefix.value + "-";
      assert whole[|prefix.value| + 1..] == eventId;
    }
  }

  lemma ReplayedIdsJoinInjectively(a: string, b: string, mode: IdempotencyMode, prefix: Option<string>)
    requires ValidPrefix(mode, prefix)
    ensures ReplayEventId(a, mode, prefix) == ReplayEventId(b, mode, prefix) <==> a == b
    ensures
      var x, y := ReplayEventId(a, mode, prefix).value, ReplayEventId(b, mode, prefix).value;
      NormalizeEventId(x, prefix) == NormalizeEventId(y, prefix) <==> a == b
  {
    PrefixRoundTrip(a, mode, prefix);
    PrefixRoundTrip(b, mode, prefix);
  }

  /** Two ids share a normal form exactly when they are the same or one is the other with the prefix. */
  lemma NormalFormsCollide(a: string, b: string, prefix: string)
    requires prefix != "" && a != b
    ensures NormalizeEventId(a, Some(prefix)) == NormalizeEventId(b, Some(prefix)) <==>
      (a == prefix + "-" + b && !(prefix + "-" <= b)) || (b == prefix + "-" + a && !(prefix + "-" <= a))
  {
    var p := prefix + "-";
    assert p <= a ==> a == p + a[|p|..];
    assert p <= b ==> b == p + b[|p|..];
    assert a == p + b ==> p <= a && a[|p|..] == b;
    assert b == p + a ==> p <= b && b[|p|..] == a;
  }
}
