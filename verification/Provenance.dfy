/** Where the stored values come from: every result row holds what the engine answered for a delivery of
    its event, every DLT row what the engine threw, and every answer was given for the window the
    delivery met. */
module Provenance {
  import opened Domain
  import opened RedisWindow
  import opened RuleEngine
  import opened Consumer

  // ----- What the engine said -----

  /** Action `k` of the run is the engine's verdict in a delivery of that record. */
  ghost predicate DecidedAt(stacks: string -> Stack, acts: seq<Action>, k: nat, src: Source, m: Message, verdict: Verdict) {
    k < |acts| && acts[k].Decide? && acts[k].verdict == verdict &&
    var tasks := Run(INITIAL, stacks, acts[..k]).tasks;
    acts[k].w in tasks && tasks[acts[k].w].pc.Rules? && tasks[acts[k].w].src == src && tasks[acts[k].w].m == m
  }

  ghost predicate Decided(stacks: string -> Stack, acts: seq<Action>, src: Source, m: Message, verdict: Verdict) {
    exists k: nat :: DecidedAt(stacks, acts, k, src, m, verdict)
  }

  lemma DecidedPersists(stacks: string -> Stack, acts: seq<Action>, a: Action, src: Source, m: Message, verdict: Verdict)
    requires Decided(stacks, acts, src, m, verdict)
    ensures Decided(stacks, acts + [a], src, m, verdict)
  {
    var k: nat :| DecidedAt(stacks, acts, k, src, m, verdict);
    assert (acts + [a])[..k] == acts[..k];
    assert DecidedAt(stacks, acts + [a], k, src, m, verdict);
  }

  lemma DecidedNow(stacks: string -> Stack, acts: seq<Action>, sys: System, w: Worker, verdict: Verdict)
    requires sys == Run(INITIAL, stacks, acts) && w in sys.tasks && sys.tasks[w].pc.Rules?
    ensures Decided(stacks, acts + [Decide(w, verdict)], sys.tasks[w].src, sys.tasks[w].m, verdict)
  {
    assert (acts + [Decide(w, verdict)])[..|acts|] == acts;
    assert DecidedAt(stacks, acts + [Decide(w, verdict)], |acts|, sys.tasks[w].src, sys.tasks[w].m, verdict);
  }

  // ----- Rows and tasks -----

  /** The text kept of an exception: its message, cut to 500 characters, or its type if that is blank. */
  predicate TellsError(text: string, f: Failure) {
    if f.message.None? || (forall i :: 0 <= i < |f.message.value| ==> IsWhitespace(f.message.value[i])) then text == f.errorType
    else IsCutOf(Some(text), f.message, 500)
  }

  ghost predicate ResultTells(stacks: string -> Stack, acts: seq<Action>, row: ResultRow, src: Source, m: Message) {
    Decided(stacks, acts, src, m, Evaluated(row.evaluation)) && IsResultOf(row, m, row.evaluation)
  }

  ghost predicate DltTells(stacks: string -> Stack, acts: seq<Action>, row: DltRow, f: Failure) {
    && Decided(stacks, acts, row.src, row.payload, Thrown(f))
    && row.errorType == f.errorType && TellsError(row.errorMessage, f)
  }

  ghost predicate ResultTraced(stacks: string -> Stack, acts: seq<Action>, row: ResultRow) {
    exists src, m :: ResultTells(stacks, acts, row, src, m)
  }

  ghost predicate DltTraced(stacks: string -> Stack, acts: seq<Action>, row: DltRow) {
    exists f :: DltTells(stacks, acts, row, f)
  }

  predicate LogTraced(stacks: string -> Stack, row: LogRow) { row.group == stacks(row.src.tp.topic).group }

  /** What a delivery is about to store is what the engine answered in it. */
  ghost predicate TaskTraced(stacks: string -> Stack, acts: seq<Action>, w: Worker, t: Task) {
    && t.src.tp == w.tp
    && match t.pc
       case ResultCheck(e) => Decided(stacks, acts, t.src, t.m, Evaluated(e))
       case ResultInsert(e) => Decided(stacks, acts, t.src, t.m, Evaluated(e))
       case DltFind(f) => Decided(stacks, acts, t.src, t.m, Thrown(f))
       case DltInsert(f) => Decided(stacks, acts, t.src, t.m, Thrown(f))
       case _ => true
  }

  ghost predicate TasksTraced(stacks: string -> Stack, acts: seq<Action>, sys: System) {
    forall w :: w in sys.tasks ==> TaskTraced(stacks, acts, w, sys.tasks[w])
  }

  ghost predicate RowsTraced(stacks: string -> Stack, acts: seq<Action>, s: Store) {
    && (forall i :: 0 <= i < |s.logs| ==> LogTraced(stacks, s.logs[i]))
    && (forall i :: 0 <= i < |s.results| ==> ResultTraced(stacks, acts, s.results[i]))
    && (forall i :: 0 <= i < |s.dltRows| ==> DltTraced(stacks, acts, s.dltRows[i]))
  }

  lemma TaskPersists(stacks: string -> Stack, acts: seq<Action>, a: Action, w: Worker, t: Task)
    requires TaskTraced(stacks, acts, w, t)
    ensures TaskTraced(stacks, acts + [a], w, t)
  {
    match t.pc
    case ResultCheck(e) => DecidedPersists(stacks, acts, a, t.src, t.m, Evaluated(e));
    case ResultInsert(e) => DecidedPersists(stacks, acts, a, t.src, t.m, Evaluated(e));
    case DltFind(f) => DecidedPersists(stacks, acts, a, t.src, t.m, Thrown(f));
    case DltInsert(f) => DecidedPersists(stacks, acts, a, t.src, t.m, Thrown(f));
    case _ =>
  }

  lemma ResultPersists(stacks: string -> Stack, acts: seq<Action>, a: Action, row: ResultRow)
    requires ResultTraced(stacks, acts, row)
    ensures ResultTraced(stacks, acts + [a], row)
  {
    var src, m :| ResultTells(stacks, acts, row, src, m);
    DecidedPersists(stacks, acts, a, src, m, Evaluated(row.evaluation));
    assert ResultTells(stacks, acts + [a], row, src, m);
  }

  lemma DltPersists(stacks: string -> Stack, acts: seq<Action>, a: Action, row: DltRow)
    requires DltTraced(stacks, acts, row)
    ensures DltTraced(stacks, acts + [a], row)
  {
    var f :| DltTells(stacks, acts, row, f);
    DecidedPersists(stacks, acts, a, row.src, row.payload, Thrown(f));
    assert DltTells(stacks, acts + [a], row, f);
  }

  // ----- What an action adds -----

  /** The tables after an action: as before, or with the one row its access adds. */
  lemma RowsAdded(sys: System, stacks: string -> Stack, a: Action)
    ensures
      var n := Act(sys, stacks, a);
      var moved := a.Step? && a.w in sys.tasks && !sys.tasks[a.w].pc.Rules?;
      && (n.store.logs == sys.store.logs ||
          (moved && n.store.logs == sys.store.logs + [LogRowFor(stacks(a.w.tp.topic), sys.tasks[a.w].src, sys.tasks[a.w].m)]))
      && (n.store.results == sys.store.results ||
          (moved && sys.tasks[a.w].pc.ResultInsert?
           && n.store.results == sys.store.results + [ResultRowFor(sys.tasks[a.w].m, sys.tasks[a.w].pc.e)]))
      && (n.store.dltRows == sys.store.dltRows ||
          (moved && sys.tasks[a.w].pc.DltInsert?
           && n.store.dltRows == sys.store.dltRows + [DltRowFor(sys.tasks[a.w].src, sys.tasks[a.w].m, sys.tasks[a.w].pc.f)]))
  {
  }

  lemma ErrorTold(f: Failure)
    ensures TellsError(SanitizeErrorMessage(f), f)
  {
    CutIsLimit(Some(SanitizeErrorMessage(f)), f.message, 500);
  }

  lemma RowsStayTraced(stacks: string -> Stack, acts: seq<Action>, sys: System, a: Action)
    requires RowsTraced(stacks, acts, sys.store) && TasksTraced(stacks, acts, sys)
    ensures RowsTraced(stacks, acts + [a], Act(sys, stacks, a).store)
  {
    var n := Act(sys, stacks, a).store;
    RowsAdded(sys, stacks, a);
    forall i | 0 <= i < |n.logs| ensures LogTraced(stacks, n.logs[i]) {
      if i >= |sys.store.logs| { assert TaskTraced(stacks, acts, a.w, sys.tasks[a.w]); }
    }
    forall i | 0 <= i < |n.results| ensures ResultTraced(stacks, acts + [a], n.results[i]) {
      if i < |sys.store.results| {
        ResultPersists(stacks, acts, a, n.results[i]);
      } else {
        NewResultTraced(stacks, acts, a, sys.tasks[a.w], n.results[i]);
      }
    }
    forall i | 0 <= i < |n.dltRows| ensures DltTraced(stacks, acts + [a], n.dltRows[i]) {
      if i < |sys.store.dltRows| {
        DltPersists(stacks, acts, a, n.dltRows[i]);
      } else {
        NewDltTraced(stacks, acts, a, sys.tasks[a.w], n.dltRows[i]);
      }
    }
  }

  lemma NewResultTraced(stacks: string -> Stack, acts: seq<Action>, a: Action, t: Task, row: ResultRow)
    requires a.Step? && t.pc.ResultInsert? && TaskTraced(stacks, acts, a.w, t) && row == ResultRowFor(t.m, t.pc.e)
    ensures ResultTraced(stacks, acts + [a], row)
  {
    DecidedPersists(stacks, acts, a, t.src, t.m, Evaluated(t.pc.e));
    assert ResultTells(stacks, acts + [a], row, t.src, t.m);
  }

  lemma NewDltTraced(stacks: string -> Stack, acts: seq<Action>, a: Action, t: Task, row: DltRow)
    requires a.Step? && t.pc.DltInsert? && TaskTraced(stacks, acts, a.w, t) && row == DltRowFor(t.src, t.m, t.pc.f)
    ensures DltTraced(stacks, acts + [a], row)
  {
    DecidedPersists(stacks, acts, a, t.src, t.m, Thrown(t.pc.f));
    ErrorTold(t.pc.f);
    assert DltTells(stacks, acts + [a], row, t.pc.f);
  }

  lemma TasksStayTraced(stacks: string -> Stack, acts: seq<Action>, sys: System, a: Action)
    requires sys == Run(INITIAL, stacks, acts) && TasksTraced(stacks, acts, sys)
    ensures TasksTraced(stacks, acts + [a], Act(sys, stacks, a))
  {
    var n := Act(sys, stacks, a);
    forall w | w in n.tasks ensures TaskTraced(stacks, acts + [a], w, n.tasks[w]) {
      if w in sys.tasks { TaskPersists(stacks, acts, a, w, sys.tasks[w]); }
      if a.Decide? && a.w == w && w in sys.tasks && sys.tasks[w].pc.Rules? { DecidedNow(stacks, acts, sys, w, a.verdict); }
    }
  }

  lemma {:induction false} Traced(stacks: string -> Stack, acts: seq<Action>)
    ensures RowsTraced(stacks, acts, Run(INITIAL, stacks, acts).store) && TasksTraced(stacks, acts, Run(INITIAL, stacks, acts))
    decreases |acts|
  {
    if acts == [] {
    } else {
      var before, last := acts[..|acts| - 1], acts[|acts| - 1];
      var sys := Run(INITIAL, stacks, before);
      Traced(stacks, before);
      RowsStayTraced(stacks, before, sys, last);
      TasksStayTraced(stacks, before, sys, last);
      assert before + [last] == acts;
    }
  }

  // ----- Main results -----

  /** Over every run, a result row holds exactly what the engine answered in a delivery of its event, and
      names the user, account and trace of that very message. */
  lemma ResultIsDecided(stacks: string -> Stack, acts: seq<Action>, i: nat)
    requires i < |Run(INITIAL, stacks, acts).store.results|
    ensures
      var row := Run(INITIAL, stacks, acts).store.results[i];
      exists src, m :: ResultTells(stacks, acts, row, src, m)
  {
    Traced(stacks, acts);
    assert ResultTraced(stacks, acts, Run(INITIAL, stacks, acts).store.results[i]);
  }

  /** A DLT row holds what the engine threw in a delivery of its record. */
  lemma DltRowIsThrown(stacks: string -> Stack, acts: seq<Action>, i: nat)
    requires i < |Run(INITIAL, stacks, acts).store.dltRows|
    ensures
      var row := Run(INITIAL, stacks, acts).store.dltRows[i];
      exists f :: DltTells(stacks, acts, row, f)
  {
    Traced(stacks, acts);
    assert DltTraced(stacks, acts, Run(INITIAL, stacks, acts).store.dltRows[i]);
  }

  /** A log row names the group of the consumer of its topic. */
  lemma LogRowNamesGroup(stacks: string -> Stack, acts: seq<Action>, i: nat)
    requires i < |Run(INITIAL, stacks, acts).store.logs|
    ensures
      var row := Run(INITIAL, stacks, acts).store.logs[i];
      row.group == stacks(row.src.tp.topic).group
  {
    Traced(stacks, acts);
  }

  // ----- The window a delivery meets -----

  ghost predicate WindowTold(stacks: string -> Stack, w: Worker, t: Task) {
    match t.pc
    case Command(_) => !t.redisFailed && !IsTooLate(stacks(w.tp.topic).window, t.m)
    case ReadWindow => !t.redisFailed && !IsTooLate(stacks(w.tp.topic).window, t.m)
    case Rules(window) =>
      && (window == TooLate <==> IsTooLate(stacks(w.tp.topic).window, t.m))
      && (window == RedisUnavailable <==> t.redisFailed)
    case LogCheck => !t.redisFailed
    case LogInsert => !t.redisFailed
    case Precheck => !t.redisFailed
    case _ => true
  }

  lemma WindowStaysTold(sys: System, stacks: string -> Stack, a: Action)
    requires forall w :: w in sys.tasks ==> WindowTold(stacks, w, sys.tasks[w])
    ensures forall w :: w in Act(sys, stacks, a).tasks ==> WindowTold(stacks, w, Act(sys, stacks, a).tasks[w])
  {
  }

  lemma {:induction false} WindowsTold(stacks: string -> Stack, acts: seq<Action>)
    ensures forall w :: w in Run(INITIAL, stacks, acts).tasks ==> WindowTold(stacks, w, Run(INITIAL, stacks, acts).tasks[w])
    decreases |acts|
  {
    if acts == [] {
    } else {
      WindowsTold(stacks, acts[..|acts| - 1]);
      WindowStaysTold(Run(INITIAL, stacks, acts[..|acts| - 1]), stacks, acts[|acts| - 1]);
    }
  }

  /** The engine is given a skipped window exactly for a live event that is too old, a degraded one exactly
      after a failed Redis access, and a window that was read otherwise. */
  lemma EngineMeetsWindow(stacks: string -> Stack, acts: seq<Action>, w: Worker)
    requires w in Run(INITIAL, stacks, acts).tasks && Run(INITIAL, stacks, acts).tasks[w].pc.Rules?
    ensures
      var t := Run(INITIAL, stacks, acts).tasks[w];
      && (t.pc.w == TooLate <==> IsTooLate(stacks(w.tp.topic).window, t.m))
      && (t.pc.w == RedisUnavailable <==> t.redisFailed)
      && (t.pc.w.Normal? <==> !IsTooLate(stacks(w.tp.topic).window, t.m) && !t.redisFailed)
  {
    WindowsTold(stacks, acts);
    assert WindowTold(stacks, w, Run(INITIAL, stacks, acts).tasks[w]);
  }
}
