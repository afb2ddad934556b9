/** The listener as the object Spring calls with a record, and the drill's failure injector. */
module Listener {
  import opened Domain
  import opened RedisWindow
  import opened RuleEngine
  import opened WindowStore
  import opened Consumer
  import opened Convergence

  datatype SendOutcome = Sent | FailedButWritten | NotSent

  /** What the surroundings do to one call: which access throws before it takes effect, how many
      Redis commands get through, what becomes of the DLT send. A Redis failure is not an exception
      here: the store answers it. */
  datatype Environment = Environment(throws: Pc -> bool, redisFailsAt: Option<nat>, send: SendOutcome)

  predicate MayThrow(pc: Pc) { !pc.ReadWindow? && (pc.Command? ==> pc.k == 0) }

  function Remaining(pc: Pc): nat {
    match pc
    case LogCheck => 30
    case LogInsert => 29
    case Precheck => 28
    case Command(k) => if k < COMMANDS then 10 + COMMANDS - k else 10
    case ReadWindow => 9
    case Rules(_) => 8
    case ResultCheck(_) => 6
    case ResultInsert(_) => 5
    case DltFind(_) => 6
    case DltInsert(_) => 5
    case DltPublish(_) => 4
    case Ack => 3
  }

  predicate RedisDown(pc: Pc, env: Environment) {
    env.redisFailsAt.Some? &&
    ((pc.Command? && pc.k == env.redisFailsAt.value) || (pc.ReadWindow? && env.redisFailsAt.value >= COMMANDS))
  }

  /** One call of the listener, access by access from `pc`: the stores it leaves, and whether it
      acknowledged. */
  ghost function Finish(
    s: Store, stack: Stack, src: Source, m: Message, pc: Pc, engine: Engine, env: Environment): (Store, bool)
    decreases Remaining(pc)
  {
    if MayThrow(pc) && env.throws(pc) then (s, false)
    else if RedisDown(pc, env) then Finish(s, stack, src, m, Rules(RedisUnavailable), engine, env)
    else match pc
      case Rules(w) =>
        (match engine(m, w)
         case Evaluated(e) => Finish(s, stack, src, m, ResultCheck(e), engine, env)
         case Thrown(f) => Finish(s, stack, src, m, DltFind(f), engine, env))
      case DltPublish(row) =>
        if env.send == NotSent then (s, false)
        else
          var s' := s.(dltTopic := s.dltTopic + [Envelope(row)]);
          if env.send == FailedButWritten then (s', false) else Finish(s', stack, src, m, Ack, engine, env)
      case Ack => (s.(acked := s.acked + {src}), true)
      case _ =>
        var (s', pc') := Proceed(s, stack, src, m, pc);
        Finish(s', stack, src, m, pc', engine, env)
  }

  /** The action by which a worker continues a call. */
  ghost function NextAction(t: Task, w: Worker, engine: Engine, env: Environment): Action {
    if MayThrow(t.pc) && env.throws(t.pc) then Crash(w)
    else if RedisDown(t.pc, env) then RedisFails(w)
    else if t.pc.Rules? then Decide(w, engine(t.m, t.pc.w))
    else if t.pc.DltPublish? && env.send != Sent then PublishFails(w, env.send == FailedButWritten)
    else Action.Step(w)
  }

  /** What is left of the worker's call. */
  ghost function RestOf(sys: System, stacks: string -> Stack, w: Worker, engine: Engine, env: Environment): (Store, bool)
    requires w in sys.tasks
  {
    var t := sys.tasks[w];
    Finish(sys.store, stacks(w.tp.topic), t.src, t.m, t.pc, engine, env)
  }

  /** After the action the rest of the call is what it was, and closer to its end. */
  ghost predicate Continues(
    sys: System, next: System, stacks: string -> Stack, w: Worker, engine: Engine, env: Environment)
    requires w in sys.tasks
  {
    && next.topics == sys.topics && next.tasks - {w} == sys.tasks - {w}
    && if w in next.tasks then
         && RestOf(sys, stacks, w, engine, env) == RestOf(next, stacks, w, engine, env)
         && Remaining(next.tasks[w].pc) < Remaining(sys.tasks[w].pc)
       else next.store == RestOf(sys, stacks, w, engine, env).0
  }

  lemma ThrowContinues(sys: System, stacks: string -> Stack, w: Worker, engine: Engine, env: Environment)
    requires w in sys.tasks && MayThrow(sys.tasks[w].pc) && env.throws(sys.tasks[w].pc)
    ensures Continues(sys, Act(sys, stacks, Crash(w)), stacks, w, engine, env)
  {
  }

  lemma RedisDownContinues(sys: System, stacks: string -> Stack, w: Worker, engine: Engine, env: Environment)
    requires w in sys.tasks && !(MayThrow(sys.tasks[w].pc) && env.throws(sys.tasks[w].pc)) && RedisDown(sys.tasks[w].pc, env)
    ensures Continues(sys, Act(sys, stacks, RedisFails(w)), stacks, w, engine, env)
  {
  }

  lemma DecisionContinues(sys: System, stacks: string -> Stack, w: Worker, engine: Engine, env: Environment)
    requires w in sys.tasks && sys.tasks[w].pc.Rules? && !env.throws(sys.tasks[w].pc)
    ensures Continues(sys, Act(sys, stacks, Decide(w, engine(sys.tasks[w].m, sys.tasks[w].pc.w))), stacks, w, engine, env)
  {
  }

  lemma FailedSendContinues(sys: System, stacks: string -> Stack, w: Worker, engine: Engine, env: Environment)
    requires w in sys.tasks && sys.tasks[w].pc.DltPublish? && !env.throws(sys.tasks[w].pc) && env.send != Sent
    ensures Continues(sys, Act(sys, stacks, PublishFails(w, env.send == FailedButWritten)), stacks, w, engine, env)
  {
    assert sys.store.dltTopic + [] == sys.store.dltTopic;
  }

  lemma AccessContinues(sys: System, stacks: string -> Stack, w: Worker, engine: Engine, env: Environment)
    requires w in sys.tasks && NextAction(sys.tasks[w], w, engine, env) == Action.Step(w)
    ensures Continues(sys, Act(sys, stacks, Action.Step(w)), stacks, w, engine, env)
  {
  }

  lemma CallContinues(sys: System, stacks: string -> Stack, w: Worker, engine: Engine, env: Environment)
    requires w in sys.tasks
    ensures Continues(sys, Act(sys, stacks, NextAction(sys.tasks[w], w, engine, env)), stacks, w, engine, env)
  {
    var t := sys.tasks[w];
    if MayThrow(t.pc) && env.throws(t.pc) {
      ThrowContinues(sys, stacks, w, engine, env);
    } else if RedisDown(t.pc, env) {
      RedisDownContinues(sys, stacks, w, engine, env);
    } else if t.pc.Rules? {
      DecisionContinues(sys, stacks, w, engine, env);
    } else if t.pc.DltPublish? && env.send != Sent {
      FailedSendContinues(sys, stacks, w, engine, env);
    } else {
      AccessContinues(sys, stacks, w, engine, env);
    }
  }

  /** Every call is a run of the protocol: these actions of one worker lead from the moment the record
      is at `pc` to the stores the call leaves, and the worker is idle again. */
  lemma {:induction false} CallIsARun(
    sys: System, stacks: string -> Stack, w: Worker, engine: Engine, env: Environment)
    returns (acts: seq<Action>)
    requires w in sys.tasks
    ensures Run(sys, stacks, acts) ==
      sys.(store := RestOf(sys, stacks, w, engine, env).0, tasks := sys.tasks - {w})
    decreases Remaining(sys.tasks[w].pc)
  {
    var a := NextAction(sys.tasks[w], w, engine, env);
    var next := Act(sys, stacks, a);
    CallContinues(sys, stacks, w, engine, env);
    OneAct(sys, stacks, a);
    if w in next.tasks {
      var rest := CallIsARun(next, stacks, w, engine, env);
      acts := [a] + rest;
      RunFrom(sys, stacks, a, rest);
    } else {
      acts := [a];
      assert next.tasks == next.tasks - {w};
    }
  }

  lemma OneAct(sys: System, stacks: string -> Stack, a: Action)
    ensures Run(sys, stacks, [a]) == Act(sys, stacks, a)
  {
    assert [a][..0] == [];
    assert Run(sys, stacks, [a][..0]) == sys;
  }

  lemma {:induction false} RunFrom(sys: System, stacks: string -> Stack, a: Action, rest: seq<Action>)
    ensures Run(sys, stacks, [a] + rest) == Run(Act(sys, stacks, a), stacks, rest)
    decreases |rest|
  {
    if rest == [] {
      assert [a] + rest == [a];
      OneAct(sys, stacks, a);
    } else {
      var before := rest[..|rest| - 1];
      RunFrom(sys, stacks, a, before);
      assert ([a] + rest)[..|rest|] == [a] + before;
    }
  }

  class TransactionEventListener {
    var logs: seq<LogRow>
    var results: seq<ResultRow>
    var dltRows: seq<DltRow>
    var dltTopic: seq<Envelope>
    var acked: set<Source>
    const windowStore: RedisRecentTransactionWindowStore
    const group: string
    const engine: Engine

    constructor (windowStore: RedisRecentTransactionWindowStore, group: string, engine: Engine)
      ensures this.windowStore == windowStore && this.group == group && this.engine == engine
      ensures Stores() == Store([], [], [], [], windowStore.Keyspace(), {})
    {
      this.windowStore, this.group, this.engine := windowStore, group, engine;
      logs, results, dltRows, dltTopic, acked := [], [], [], [], {};
    }

    function Stores(): Store
      reads this, windowStore
    {
      Store(logs, results, dltRows, dltTopic, windowStore.Keyspace(), acked)
    }

    function Deployment(): Stack { Stack(windowStore.config, group) }

    ghost function Rest(src: Source, m: Message, pc: Pc, env: Environment): (Store, bool)
      reads this, windowStore
    {
      Finish(Stores(), Deployment(), src, m, pc, engine, env)
    }

    /** Handles one record. The call returns false where an exception gets out: the
        record then stays unacknowledged. */
    method ProcessMessage(src: Source, m: Message, env: Environment) returns (acknowledged: bool)
      modifies this, windowStore
      ensures (Stores(), acknowledged) == old(Rest(src, m, LogCheck, env))
    {
      ghost var outcome := Rest(src, m, LogCheck, env);

      if env.throws(LogCheck) { return false; }
      if !HasLog(logs, src) {
        if env.throws(LogInsert) { return false; }
        logs := InsertLog(logs, LogRowFor(Deployment(), src, m));
      }
      assert Rest(src, m, Precheck, env) == outcome;

      if env.throws(Precheck) { return false; }
      if HasResult(results, m.eventId) {
        acknowledged := Acknowledge(src, m, env);
      } else {
        acknowledged := UpdateWindowAndDecide(src, m, env);
      }
    }

    method UpdateWindowAndDecide(src: Source, m: Message, env: Environment) returns (acknowledged: bool)
      modifies this, windowStore
      ensures (Stores(), acknowledged) ==
        old(Rest(src, m, if IsTooLate(windowStore.config, m) then Rules(TooLate) else Pc.Command(0), env))
    {
      ghost var outcome := Rest(src, m, if IsTooLate(windowStore.config, m) then Rules(TooLate) else Pc.Command(0), env);
      if !IsTooLate(windowStore.config, m) && env.throws(Pc.Command(0)) { return false; }
      RedisPhase(Stores(), Deployment(), src, m, engine, env);
      var w := windowStore.RecordAndGetWindow(m, env.redisFailsAt);
      assert Rest(src, m, Rules(w), env) == outcome;

      if env.throws(Rules(w)) { return false; }
      match engine(m, w)
      case Thrown(f) => acknowledged := RecordDeadLetterAndAcknowledge(src, m, f, env);
      case Evaluated(e) => acknowledged := SaveResultAndAcknowledge(src, m, e, env);
    }

    method SaveResultAndAcknowledge(src: Source, m: Message, e: EngineResult, env: Environment)
      returns (acknowledged: bool)
      modifies this
      ensures (Stores(), acknowledged) == old(Rest(src, m, ResultCheck(e), env))
      ensures results == old(results) || OneResultMore(old(results), results, m, e)
      ensures acknowledged ==> HasResult(results, m.eventId)
    {
      ghost var outcome := Rest(src, m, ResultCheck(e), env);
      if env.throws(ResultCheck(e)) { return false; }
      if !HasResult(results, m.eventId) {
        assert Rest(src, m, ResultInsert(e), env) == outcome;
        if env.throws(ResultInsert(e)) { return false; }
        results := InsertResult(results, ResultRowFor(m, e));
        assert results[|results| - 1].eventId == m.eventId;
      }
      acknowledged := Acknowledge(src, m, env);
    }

    method RecordDeadLetterAndAcknowledge(src: Source, m: Message, f: Failure, env: Environment)
      returns (acknowledged: bool)
      modifies this
      ensures (Stores(), acknowledged) == old(Rest(src, m, DltFind(f), env))
    {
      var row := RecordFailure(src, m, f, env);
      if row.None? { return false; }
      if env.throws(DltPublish(row.value)) || env.send == NotSent { return false; }
      dltTopic := dltTopic + [Envelope(row.value)];
      if env.send == FailedButWritten { return false; }
      acknowledged := Acknowledge(src, m, env);
    }

    /** Finds or saves the DLT row of the record; `None` when an access throws. */
    method RecordFailure(src: Source, m: Message, f: Failure, env: Environment) returns (row: Option<DltRow>)
      modifies this`dltRows
      ensures row.None? ==> (Stores(), false) == old(Rest(src, m, DltFind(f), env))
      ensures row.Some? ==> Rest(src, m, DltPublish(row.value), env) == old(Rest(src, m, DltFind(f), env))
    {
      ghost var outcome := Rest(src, m, DltFind(f), env);
      if env.throws(DltFind(f)) { return None; }
      if HasDlt(dltRows, src) {
        return Some(DltOf(dltRows, src));
      }
      assert Rest(src, m, DltInsert(f), env) == outcome;
      if env.throws(DltInsert(f)) { return None; }
      dltRows := InsertDlt(dltRows, DltRowFor(src, m, f));
      assert dltRows[|dltRows| - 1].src == src;
      return Some(DltOf(dltRows, src));
    }

    method Acknowledge(src: Source, m: Message, env: Environment) returns (acknowledged: bool)
      modifies this`acked
      ensures (Stores(), acknowledged) == old(Rest(src, m, Ack, env))
    {
      if env.throws(Ack) { return false; }
      acked := acked + {src};
      return true;
    }
  }

  lemma RedisStep(s: Store, stack: Stack, src: Source, m: Message, engine: Engine, env: Environment, k: nat)
    requires !env.throws(Pc.Command(0)) && k < COMMANDS && !RedisDown(Pc.Command(k), env)
    ensures Finish(s, stack, src, m, Pc.Command(k), engine, env) ==
      Finish(s.(redis := RedisWindow.Command(s.redis, stack.window, m, k)), stack, src, m,
             if k + 1 < COMMANDS then Pc.Command(k + 1) else ReadWindow, engine, env)
  {
  }

  lemma RedisStops(s: Store, stack: Stack, src: Source, m: Message, pc: Pc, engine: Engine, env: Environment)
    requires !env.throws(Pc.Command(0)) && RedisDown(pc, env)
    ensures Finish(s, stack, src, m, pc, engine, env) == Finish(s, stack, src, m, Rules(RedisUnavailable), engine, env)
  {
  }

  lemma RedisReads(s: Store, stack: Stack, src: Source, m: Message, engine: Engine, env: Environment)
    requires !RedisDown(ReadWindow, env)
    ensures Finish(s, stack, src, m, ReadWindow, engine, env) ==
            Finish(s, stack, src, m, Rules(Read(s.redis, stack.window, m)), engine, env)
  {
  }

  /** The stores after the first `k` commands, and the access that follows them. */
  function AfterCommands(s: Store, stack: Stack, m: Message, k: nat): Store { s.(redis := Prefix(s.redis, stack.window, m, k)) }

  function NextAccess(k: nat): Pc { if k < COMMANDS then Pc.Command(k) else ReadWindow }

  /** How many commands get through, and what the window store then answers. */
  function CommandsSent(env: Environment): nat {
    if env.redisFailsAt.Some? && env.redisFailsAt.value < COMMANDS then env.redisFailsAt.value else COMMANDS
  }

  ghost function StoreAnswer(done: Store, stack: Stack, m: Message, env: Environment): WindowResult {
    if env.redisFailsAt.Some? then RedisUnavailable else Read(done.redis, stack.window, m)
  }

  lemma CommandSent(s: Store, stack: Stack, m: Message, k: nat)
    ensures AfterCommands(s, stack, m, k + 1) ==
      var now := AfterCommands(s, stack, m, k); now.(redis := RedisWindow.Command(now.redis, stack.window, m, k))
  {
  }

  /** One command that gets through: the call goes on from the next access. */
  lemma CommandGoesOn(
    now: Store, next: Store, stack: Stack, src: Source, m: Message, engine: Engine, env: Environment, k: nat, pc: Pc)
    requires !env.throws(Pc.Command(0)) && k < COMMANDS && !RedisDown(Pc.Command(k), env) && pc == NextAccess(k + 1)
    requires next == now.(redis := RedisWindow.Command(now.redis, stack.window, m, k))
    ensures Finish(now, stack, src, m, Pc.Command(k), engine, env) == Finish(next, stack, src, m, pc, engine, env)
  {
    RedisStep(now, stack, src, m, engine, env, k);
  }

  /** As long as commands get through the call goes on. */
  lemma {:induction false} CommandsGoOn(
    s: Store, now: Store, stack: Stack, src: Source, m: Message, engine: Engine, env: Environment, k: nat)
    requires !env.throws(Pc.Command(0)) && k <= CommandsSent(env) && now == AfterCommands(s, stack, m, k)
    ensures Finish(s, stack, src, m, Pc.Command(0), engine, env) == Finish(now, stack, src, m, NextAccess(k), engine, env)
    decreases k
  {
    if k == 0 {
      assert now == s;
    } else {
      var before := AfterCommands(s, stack, m, k - 1);
      CommandsGoOn(s, before, stack, src, m, engine, env, k - 1);
      CommandSent(s, stack, m, k - 1);
      CommandGoesOn(before, now, stack, src, m, engine, env, k - 1, NextAccess(k));
    }
  }

  /** The access after the last command that got through: a failure, or the read. */
  lemma PhaseEnds(done: Store, stack: Stack, src: Source, m: Message, engine: Engine, env: Environment)
    requires !env.throws(Pc.Command(0))
    ensures Finish(done, stack, src, m, NextAccess(CommandsSent(env)), engine, env) ==
            Finish(done, stack, src, m, Rules(StoreAnswer(done, stack, m, env)), engine, env)
  {
    if env.redisFailsAt.Some? {
      RedisStops(done, stack, src, m, NextAccess(CommandsSent(env)), engine, env);
    } else {
      RedisReads(done, stack, src, m, engine, env);
    }
  }

  /** The accesses of the window store, taken together. */
  lemma RedisPhase(s: Store, stack: Stack, src: Source, m: Message, engine: Engine, env: Environment)
    ensures
      var done := AfterCommands(s, stack, m, CommandsSent(env));
      !env.throws(Pc.Command(0)) ==>
        Finish(s, stack, src, m, Pc.Command(0), engine, env) ==
        Finish(done, stack, src, m, Rules(StoreAnswer(done, stack, m, env)), engine, env)
  {
    if !env.throws(Pc.Command(0)) {
      var done := AfterCommands(s, stack, m, CommandsSent(env));
      CommandsGoOn(s, done, stack, src, m, engine, env, CommandsSent(env));
      PhaseEnds(done, stack, src, m, engine, env);
    }
  }

  // ----- The redelivery drill -----

  datatype FailurePoint = BeforeRedisUpdate | AfterRedisUpdateBeforeResult | AfterResultSaveBeforeAck

  datatype DrillConfig = DrillConfig(enabled: bool, eventId: string, point: Option<FailurePoint>, failOnce: bool)

  /** The drill is set on this point of this event. */
  predicate Matches(c: DrillConfig, point: FailurePoint, eventId: string) {
    c.enabled && c.point == Some(point) && !IsBlank(c.eventId) && c.eventId == eventId
  }

  class StatefulRedeliveryFailureInjector {
    var injectedFailures: set<(FailurePoint, string)>
    const config: DrillConfig

    constructor (config: DrillConfig)
      ensures this.config == config && injectedFailures == {}
    {
      this.config, injectedFailures := config, {};
    }

    /** Throws where the drill is set, with fail-once only the first time. */
    method FailIfConfigured(point: FailurePoint, eventId: string) returns (throws: bool)
      modifies this
      ensures throws <==>
        Matches(config, point, eventId) && !(config.failOnce && (point, eventId) in old(injectedFailures))
      ensures injectedFailures == old(injectedFailures) + if throws && config.failOnce then {(point, eventId)} else {}
      ensures (injectedFailures, throws) == Inject(config, old(injectedFailures), point, eventId)
    {
      if !Matches(config, point, eventId) {
        return false;
      }
      if config.failOnce {
        if (point, eventId) in injectedFailures {
          return false;
        }
        injectedFailures := injectedFailures + {(point, eventId)};
      }
      return true;
    }
  }

  function Inject(c: DrillConfig, injected: set<(FailurePoint, string)>, point: FailurePoint, eventId: string)
    : (set<(FailurePoint, string)>, bool)
  {
    if !Matches(c, point, eventId) then (injected, false)
    else if !c.failOnce then (injected, true)
    else if (point, eventId) in injected then (injected, false)
    else (injected + {(point, eventId)}, true)
  }

  /** The number of exceptions the drill injects over a sequence of calls. */
  function Injections(c: DrillConfig, injected: set<(FailurePoint, string)>, calls: seq<(FailurePoint, string)>): nat
    decreases |calls|
  {
    if calls == [] then 0
    else
      var (next, throws) := Inject(c, injected, calls[0].0, calls[0].1);
      (if throws then 1 else 0) + Injections(c, next, calls[1..])
  }

  /** Some call is at the point, and for the event, the drill is set on. */
  predicate IsMet(c: DrillConfig, calls: seq<(FailurePoint, string)>) {
    exists i :: 0 <= i < |calls| && c.point == Some(calls[i].0) && c.eventId == calls[i].1
  }

  /** Fail-once: an enabled drill throws exactly once over any calls that come to its point with its event,
      unless it has thrown before, and otherwise not at all, so redelivery gets through. */
  lemma {:induction false} FailsOnce(
    c: DrillConfig, injected: set<(FailurePoint, string)>, calls: seq<(FailurePoint, string)>)
    requires c.failOnce && c.point.Some?
    ensures
      var armed := c.enabled && (exists i :: 0 <= i < |c.eventId| && !IsWhitespace(c.eventId[i]));
      Injections(c, injected, calls) ==
        if armed && IsMet(c, calls) && (c.point.value, c.eventId) !in injected then 1 else 0
    decreases |calls|
  {
    if calls == [] {
    } else {
      FailsOnce(c, Inject(c, injected, calls[0].0, calls[0].1).0, calls[1..]);
      MetFirstOrLater(c, calls);
    }
  }

  lemma MetFirstOrLater(c: DrillConfig, calls: seq<(FailurePoint, string)>)
    requires calls != []
    ensures IsMet(c, calls) <==> (c.point == Some(calls[0].0) && c.eventId == calls[0].1) || IsMet(c, calls[1..])
  {
    if IsMet(c, calls[1..]) {
      var i :| 0 <= i < |calls[1..]| && c.point == Some(calls[1..][i].0) && c.eventId == calls[1..][i].1;
      assert calls[i + 1] == calls[1..][i];
    }
    if i :| 0 < i < |calls| && c.point == Some(calls[i].0) && c.eventId == calls[i].1 {
      assert calls[1..][i - 1] == calls[i];
    }
  }
}
