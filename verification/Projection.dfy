/** Consumers that own disjoint records, events and keys do not see each other: the part of a run that
    belongs to a region is a run of its own. */
module Projection {
  import opened Domain
  import opened RedisWindow
  import opened RuleEngine
  import opened Consumer
  import opened AckSafety

  /** A region: some partitions with the events and Redis keys of their records. */
  datatype Region = Region(
    namespace: string,
    owns: TopicPartition -> bool,
    event: string -> bool,
    userKey: string -> bool,
    eventKey: string -> bool
  )

  function Filter<T>(rows: seq<T>, keep: T -> bool): seq<T> {
    if rows == [] then [] else
      Filter(rows[..|rows| - 1], keep) + if keep(rows[|rows| - 1]) then [rows[|rows| - 1]] else []
  }

  function Restrict<K, V>(m: map<K, V>, keep: K -> bool): map<K, V> {
    map k | k in m && keep(k) :: m[k]
  }

  function ViewRedis(r: Redis, g: Region): Redis {
    Redis(Restrict(r.zsets, g.userKey), Restrict(r.hashes, g.eventKey))
  }

  function ViewStore(s: Store, g: Region): Store {
    Store(Filter(s.logs, (row: LogRow) => g.owns(row.src.tp)),
          Filter(s.results, (row: ResultRow) => g.event(row.eventId)),
          Filter(s.dltRows, (row: DltRow) => g.owns(row.src.tp)),
          Filter(s.dltTopic, (e: Envelope) => g.owns(e.row.src.tp)),
          ViewRedis(s.redis, g),
          set src | src in s.acked && g.owns(src.tp))
  }

  function ViewTasks(tasks: map<Worker, Task>, g: Region): map<Worker, Task> {
    Restrict(tasks, (w: Worker) => g.owns(w.tp))
  }

  function View(sys: System, g: Region): System {
    System(Restrict(sys.topics, g.owns), ViewStore(sys.store, g), ViewTasks(sys.tasks, g))
  }

  function Home(a: Action): TopicPartition { if a.Produce? then a.tp else a.w.tp }

  /** The actions of a run that belong to the region. */
  function Own(acts: seq<Action>, g: Region): seq<Action> {
    Filter(acts, (a: Action) => g.owns(Home(a)))
  }

  // ----- Separation -----

  /** A record of `tp` lies with its event and keys on the same side of the border. */
  ghost predicate SameSide(g: Region, stacks: string -> Stack, tp: TopicPartition, m: Message) {
    var namespace := stacks(tp.topic).window.namespace;
    && (g.owns(tp) ==> namespace == g.namespace)
    && (g.owns(tp) <==> g.event(m.eventId))
    && (g.owns(tp) <==> g.userKey(UserEventsKey(namespace, m.userId)))
    && (g.owns(tp) <==> g.eventKey(EventKey(namespace, m.eventId)))
  }

  ghost predicate Separated(sys: System, stacks: string -> Stack, g: Region) {
    && TopicsSeparated(sys, stacks, g)
    && (forall key, id :: key in sys.store.redis.zsets && g.userKey(key) && id in sys.store.redis.zsets[key] ==>
          g.eventKey(EventKey(g.namespace, id)))
  }

  // ----- Filtering tables -----

  lemma FilterSnoc<T>(rows: seq<T>, keep: T -> bool, row: T)
    ensures Filter(rows + [row], keep) == Filter(rows, keep) + if keep(row) then [row] else []
  {
    assert (rows + [row])[..|rows|] == rows;
  }

  lemma {:induction false} FilterMembers<T>(rows: seq<T>, keep: T -> bool, row: T)
    ensures row in Filter(rows, keep) <==> row in rows && keep(row)
    decreases |rows|
  {
    if rows == [] {
    } else {
      FilterMembers(rows[..|rows| - 1], keep, row);
      assert rows == rows[..|rows| - 1] + [rows[|rows| - 1]];
    }
  }

  lemma LogVisible(rows: seq<LogRow>, g: Region, src: Source)
    requires g.owns(src.tp)
    ensures HasLog(Filter(rows, (row: LogRow) => g.owns(row.src.tp)), src) == HasLog(rows, src)
  {
    var keep := (row: LogRow) => g.owns(row.src.tp);
    if HasLog(rows, src) {
      var i :| 0 <= i < |rows| && rows[i].src == src;
      FilterMembers(rows, keep, rows[i]);
    }
    if HasLog(Filter(rows, keep), src) {
      var i :| 0 <= i < |Filter(rows, keep)| && Filter(rows, keep)[i].src == src;
      FilterMembers(rows, keep, Filter(rows, keep)[i]);
    }
  }

  lemma ResultVisible(rows: seq<ResultRow>, g: Region, id: string)
    requires g.event(id)
    ensures HasResult(Filter(rows, (row: ResultRow) => g.event(row.eventId)), id) == HasResult(rows, id)
  {
    var keep := (row: ResultRow) => g.event(row.eventId);
    if HasResult(rows, id) {
      var i :| 0 <= i < |rows| && rows[i].eventId == id;
      FilterMembers(rows, keep, rows[i]);
    }
    if HasResult(Filter(rows, keep), id) {
      var i :| 0 <= i < |Filter(rows, keep)| && Filter(rows, keep)[i].eventId == id;
      FilterMembers(rows, keep, Filter(rows, keep)[i]);
    }
  }

  lemma DltVisible(rows: seq<DltRow>, g: Region, src: Source)
    requires g.owns(src.tp)
    ensures HasDlt(Filter(rows, (row: DltRow) => g.owns(row.src.tp)), src) == HasDlt(rows, src)
  {
    var keep := (row: DltRow) => g.owns(row.src.tp);
    if HasDlt(rows, src) {
      var i :| 0 <= i < |rows| && rows[i].src == src;
      FilterMembers(rows, keep, rows[i]);
    }
    if HasDlt(Filter(rows, keep), src) {
      var i :| 0 <= i < |Filter(rows, keep)| && Filter(rows, keep)[i].src == src;
      FilterMembers(rows, keep, Filter(rows, keep)[i]);
    }
  }

  /** With unique source offsets the lookup finds the same row in the filtered table. */
  lemma DltLookupVisible(rows: seq<DltRow>, g: Region, src: Source)
    requires g.owns(src.tp) && HasDlt(rows, src)
    requires forall i, j :: 0 <= i < j < |rows| ==> rows[i].src != rows[j].src
    ensures HasDlt(Filter(rows, (row: DltRow) => g.owns(row.src.tp)), src)
    ensures DltOf(Filter(rows, (row: DltRow) => g.owns(row.src.tp)), src) == DltOf(rows, src)
  {
    var keep := (row: DltRow) => g.owns(row.src.tp);
    DltVisible(rows, g, src);
    var found, here := DltOf(Filter(rows, keep), src), DltOf(rows, src);
    FilterMembers(rows, keep, found);
    var i :| 0 <= i < |rows| && rows[i] == found;
    var j :| 0 <= j < |rows| && rows[j] == here;
    assert i == j;
  }

  // ----- Restricting maps -----

  lemma RestrictWrite<K, V>(m: map<K, V>, keep: K -> bool, k: K, v: V)
    ensures Restrict(m[k := v], keep) == if keep(k) then Restrict(m, keep)[k := v] else Restrict(m, keep)
  {
  }

  lemma RestrictDrop<K, V>(m: map<K, V>, keep: K -> bool, k: K)
    ensures Restrict(m - {k}, keep) == if keep(k) then Restrict(m, keep) - {k} else Restrict(m, keep)
  {
  }

  lemma TaskWrite(tasks: map<Worker, Task>, g: Region, w: Worker, t: Task)
    ensures ViewTasks(tasks[w := t], g) == if g.owns(w.tp) then ViewTasks(tasks, g)[w := t] else ViewTasks(tasks, g)
    ensures ViewTasks(tasks - {w}, g) == if g.owns(w.tp) then ViewTasks(tasks, g) - {w} else ViewTasks(tasks, g)
  {
    RestrictWrite(tasks, (w: Worker) => g.owns(w.tp), w, t);
    RestrictDrop(tasks, (w: Worker) => g.owns(w.tp), w);
  }

  lemma TaskRead(tasks: map<Worker, Task>, g: Region, w: Worker)
    ensures w in ViewTasks(tasks, g) <==> w in tasks && g.owns(w.tp)
    ensures w in ViewTasks(tasks, g) ==> ViewTasks(tasks, g)[w] == tasks[w]
  {
  }

  // ----- Redis -----

  lemma SetWriteInside(r: Redis, g: Region, key: string, members: map<string, int>)
    requires g.userKey(key)
    ensures ViewRedis(r.(zsets := r.zsets[key := members]), g) ==
      ViewRedis(r, g).(zsets := ViewRedis(r, g).zsets[key := members])
    ensures Members(ViewRedis(r, g), key) == Members(r, key)
  {
    RestrictWrite(r.zsets, g.userKey, key, members);
  }

  lemma HashWriteInside(r: Redis, g: Region, key: string, h: EventHash)
    requires g.eventKey(key)
    ensures ViewRedis(r.(hashes := r.hashes[key := h]), g) ==
      ViewRedis(r, g).(hashes := ViewRedis(r, g).hashes[key := h])
  {
    RestrictWrite(r.hashes, g.eventKey, key, h);
  }

  lemma CommandInside(r: Redis, g: Region, c: WindowConfig, m: Message, k: nat)
    requires g.userKey(UserEventsKey(c.namespace, m.userId)) && g.eventKey(EventKey(c.namespace, m.eventId))
    ensures ViewRedis(RedisWindow.Command(r, c, m, k), g) == RedisWindow.Command(ViewRedis(r, g), c, m, k)
  {
    var key := UserEventsKey(c.namespace, m.userId);
    match k
    case 0 =>
      HashWriteInside(r, g, EventKey(c.namespace, m.eventId), EventHash(m.amount, m.currency, m.eventTime, m.userId));
    case 1 => SetWriteInside(r, g, key, Members(r, key)[m.eventId := Score(m)]);
    case 2 => SetWriteInside(r, g, key, Kept(Members(r, key), WindowStart(c, m)));
    case _ =>
  }

  lemma CommandOutside(r: Redis, g: Region, c: WindowConfig, m: Message, k: nat)
    requires !g.userKey(UserEventsKey(c.namespace, m.userId)) && !g.eventKey(EventKey(c.namespace, m.eventId))
    ensures ViewRedis(RedisWindow.Command(r, c, m, k), g) == ViewRedis(r, g)
  {
    var key, eventKey := UserEventsKey(c.namespace, m.userId), EventKey(c.namespace, m.eventId);
    match k
    case 0 => RestrictWrite(r.hashes, g.eventKey, eventKey, EventHash(m.amount, m.currency, m.eventTime, m.userId));
    case 1 => RestrictWrite(r.zsets, g.userKey, key, Members(r, key)[m.eventId := Score(m)]);
    case 2 => RestrictWrite(r.zsets, g.userKey, key, Kept(Members(r, key), WindowStart(c, m)));
    case _ =>
  }

  lemma ReadInside(r: Redis, g: Region, c: WindowConfig, m: Message)
    requires c.namespace == g.namespace && g.userKey(UserEventsKey(c.namespace, m.userId))
    requires forall key, id :: key in r.zsets && g.userKey(key) && id in r.zsets[key] ==> g.eventKey(EventKey(g.namespace, id))
    ensures Read(ViewRedis(r, g), c, m) == Read(r, c, m)
  {
    var key := UserEventsKey(c.namespace, m.userId);
    assert Members(ViewRedis(r, g), key) == Members(r, key);
    var ids := InRange(r, c, m);
    assert InRange(ViewRedis(r, g), c, m) == ids;
    assert ValidAmounts(ViewRedis(r, g), c, ids) == ValidAmounts(r, c, ids);
  }

  // ----- One access -----

  lemma ProceedInside(s: Store, g: Region, stack: Stack, src: Source, m: Message, pc: Pc)
    requires !pc.Rules? && UniqueKeys(s) && g.owns(src.tp) && g.event(m.eventId)
    requires stack.window.namespace == g.namespace
    requires g.userKey(UserEventsKey(g.namespace, m.userId)) && g.eventKey(EventKey(g.namespace, m.eventId))
    requires forall key, id :: key in s.redis.zsets && g.userKey(key) && id in s.redis.zsets[key] ==>
               g.eventKey(EventKey(g.namespace, id))
    requires pc.DltPublish? ==> pc.row.src == src
    ensures
      var (s', pc') := Proceed(s, stack, src, m, pc);
      Proceed(ViewStore(s, g), stack, src, m, pc) == (ViewStore(s', g), pc')
  {
    var (s', pc') := Proceed(s, stack, src, m, pc);
    match pc
    case LogCheck => LogVisible(s.logs, g, src);
    case LogInsert =>
      LogVisible(s.logs, g, src);
      FilterSnoc(s.logs, (row: LogRow) => g.owns(row.src.tp), LogRowFor(stack, src, m));
    case Precheck => ResultVisible(s.results, g, m.eventId);
    case Command(k) => CommandInside(s.redis, g, stack.window, m, k);
    case ReadWindow => ReadInside(s.redis, g, stack.window, m);
    case ResultCheck(e) => ResultVisible(s.results, g, m.eventId);
    case ResultInsert(e) =>
      ResultVisible(s.results, g, m.eventId);
      FilterSnoc(s.results, (row: ResultRow) => g.event(row.eventId), ResultRowFor(m, e));
    case DltFind(f) =>
      DltVisible(s.dltRows, g, src);
      if HasDlt(s.dltRows, src) { DltLookupVisible(s.dltRows, g, src); }
    case DltInsert(f) =>
      DltVisible(s.dltRows, g, src);
      FilterSnoc(s.dltRows, (row: DltRow) => g.owns(row.src.tp), DltRowFor(src, m, f));
      ProceedFacts(s, stack, src, m, pc);
      DltLookupVisible(s'.dltRows, g, src);
    case DltPublish(row) =>
      FilterSnoc(s.dltTopic, (e: Envelope) => g.owns(e.row.src.tp), Envelope(row));
    case Ack => assert ViewStore(s', g).acked == ViewStore(s, g).acked + {src};
  }

  lemma ProceedOutside(s: Store, g: Region, stack: Stack, src: Source, m: Message, pc: Pc)
    requires !pc.Rules? && !g.owns(src.tp) && !g.event(m.eventId)
    requires !g.userKey(UserEventsKey(stack.window.namespace, m.userId))
    requires !g.eventKey(EventKey(stack.window.namespace, m.eventId))
    requires pc.DltPublish? ==> pc.row.src == src
    ensures ViewStore(Proceed(s, stack, src, m, pc).0, g) == ViewStore(s, g)
  {
    match pc
    case LogInsert => FilterSnoc(s.logs, (row: LogRow) => g.owns(row.src.tp), LogRowFor(stack, src, m));
    case Command(k) => CommandOutside(s.redis, g, stack.window, m, k);
    case ResultInsert(e) => FilterSnoc(s.results, (row: ResultRow) => g.event(row.eventId), ResultRowFor(m, e));
    case DltInsert(f) => FilterSnoc(s.dltRows, (row: DltRow) => g.owns(row.src.tp), DltRowFor(src, m, f));
    case DltPublish(row) => FilterSnoc(s.dltTopic, (e: Envelope) => g.owns(e.row.src.tp), Envelope(row));
    case _ =>
  }

  // ----- Runs -----

  lemma TaskSameSide(sys: System, stacks: string -> Stack, g: Region, w: Worker)
    requires Invariant(sys) && Separated(sys, stacks, g) && w in sys.tasks
    ensures SameSide(g, stacks, w.tp, sys.tasks[w].m)
    ensures sys.tasks[w].src.tp == w.tp
    ensures sys.tasks[w].pc.DltPublish? ==> sys.tasks[w].pc.row.src == sys.tasks[w].src
  {
    assert TaskOk(sys, w, sys.tasks[w]);
  }

  /** What a worker's access needs to know of the state: nothing but its own side. */
  ghost predicate Placed(sys: System, stacks: string -> Stack, g: Region, w: Worker) {
    w in sys.tasks ==>
      && SameSide(g, stacks, w.tp, sys.tasks[w].m)
      && sys.tasks[w].src.tp == w.tp
      && (sys.tasks[w].pc.DltPublish? ==> sys.tasks[w].pc.row.src == sys.tasks[w].src)
  }

  lemma AlwaysPlaced(sys: System, stacks: string -> Stack, g: Region, w: Worker)
    requires Invariant(sys) && Separated(sys, stacks, g)
    ensures Placed(sys, stacks, g, w)
  {
    if w in sys.tasks { TaskSameSide(sys, stacks, g, w); }
  }

  lemma StepProjects(sys: System, stacks: string -> Stack, g: Region, w: Worker)
    requires Placed(sys, stacks, g, w) && UniqueKeys(sys.store)
    requires forall key, id :: key in sys.store.redis.zsets && g.userKey(key) && id in sys.store.redis.zsets[key] ==>
               g.eventKey(EventKey(g.namespace, id))
    ensures
      var a := Action.Step(w);
      View(Act(sys, stacks, a), g) == if g.owns(w.tp) then Act(View(sys, g), stacks, a) else View(sys, g)
  {
    TaskRead(sys.tasks, g, w);
    if w in sys.tasks && !sys.tasks[w].pc.Rules? {
      var t, stack := sys.tasks[w], stacks(w.tp.topic);
      TaskWrite(sys.tasks, g, w, t.(pc := Proceed(sys.store, stack, t.src, t.m, t.pc).1));
      if g.owns(w.tp) {
        ProceedInside(sys.store, g, stack, t.src, t.m, t.pc);
      } else {
        ProceedOutside(sys.store, g, stack, t.src, t.m, t.pc);
      }
    }
  }

  lemma PublishFailsProjects(sys: System, stacks: string -> Stack, g: Region, a: Action)
    requires a.PublishFails? && Placed(sys, stacks, g, a.w)
    ensures View(Act(sys, stacks, a), g) == if g.owns(a.w.tp) then Act(View(sys, g), stacks, a) else View(sys, g)
  {
    var w := a.w;
    TaskRead(sys.tasks, g, w);
    if w in sys.tasks && sys.tasks[w].pc.DltPublish? {
      TaskWrite(sys.tasks, g, w, sys.tasks[w]);
      if a.written {
        FilterSnoc(sys.store.dltTopic, (e: Envelope) => g.owns(e.row.src.tp), Envelope(sys.tasks[w].pc.row));
      } else {
        assert sys.store.dltTopic + [] == sys.store.dltTopic;
        assert View(sys, g).store.dltTopic + [] == View(sys, g).store.dltTopic;
      }
    }
  }

  /** A system in which the task of one worker was written or dropped. */
  ghost predicate OneTaskChanged(sys: System, next: System, w: Worker) {
    && next.topics == sys.topics && next.store == sys.store
    && (next.tasks == sys.tasks || next.tasks == sys.tasks - {w} ||
        (w in next.tasks && next.tasks == sys.tasks[w := next.tasks[w]]))
  }

  /** What one worker's own task becomes shows in the view of its side and in no other. */
  lemma OneTaskProjects(sys: System, next: System, g: Region, w: Worker)
    requires OneTaskChanged(sys, next, w)
    ensures !g.owns(w.tp) ==> View(next, g) == View(sys, g)
    ensures g.owns(w.tp) ==> OneTaskChanged(View(sys, g), View(next, g), w)
    ensures g.owns(w.tp) ==> (w in View(next, g).tasks <==> w in next.tasks)
    ensures g.owns(w.tp) && w in next.tasks ==> View(next, g).tasks[w] == next.tasks[w]
    ensures g.owns(w.tp) && w !in next.tasks ==> View(next, g).tasks == ViewTasks(sys.tasks, g) - {w}
    ensures g.owns(w.tp) && w in next.tasks ==> View(next, g).tasks == ViewTasks(sys.tasks, g)[w := next.tasks[w]]
  {
    TaskRead(next.tasks, g, w);
    if w in next.tasks {
      TaskWrite(sys.tasks, g, w, next.tasks[w]);
      assert next.tasks == sys.tasks[w := next.tasks[w]];
    } else {
      DropProjects(sys.tasks, g, w);
      assert next.tasks == sys.tasks - {w};
    }
  }

  lemma DropProjects(tasks: map<Worker, Task>, g: Region, w: Worker)
    ensures ViewTasks(tasks - {w}, g) == if g.owns(w.tp) then ViewTasks(tasks, g) - {w} else ViewTasks(tasks, g)
  {
    RestrictDrop(tasks, (w: Worker) => g.owns(w.tp), w);
  }

  /** The same worker sees the same log and the same task from its own side. */
  lemma OwnSideReads(sys: System, g: Region, w: Worker)
    requires g.owns(w.tp)
    ensures LogOf(View(sys, g), w.tp) == LogOf(sys, w.tp)
    ensures w in View(sys, g).tasks <==> w in sys.tasks
    ensures w in sys.tasks ==> View(sys, g).tasks[w] == sys.tasks[w]
  {
    TaskRead(sys.tasks, g, w);
  }

  lemma DeliverProjects(sys: System, stacks: string -> Stack, g: Region, w: Worker, offset: nat)
    ensures View(Act(sys, stacks, Deliver(w, offset)), g) ==
      if g.owns(w.tp) then Act(View(sys, g), stacks, Deliver(w, offset)) else View(sys, g)
  {
    OneTaskProjects(sys, Act(sys, stacks, Deliver(w, offset)), g, w);
    if g.owns(w.tp) { OwnSideReads(sys, g, w); }
  }

  lemma DecideProjects(sys: System, stacks: string -> Stack, g: Region, w: Worker, verdict: Verdict)
    ensures View(Act(sys, stacks, Decide(w, verdict)), g) ==
      if g.owns(w.tp) then Act(View(sys, g), stacks, Decide(w, verdict)) else View(sys, g)
  {
    OneTaskProjects(sys, Act(sys, stacks, Decide(w, verdict)), g, w);
    if g.owns(w.tp) { OwnSideReads(sys, g, w); }
  }

  lemma RedisFailsProjects(sys: System, stacks: string -> Stack, g: Region, w: Worker)
    ensures View(Act(sys, stacks, RedisFails(w)), g) ==
      if g.owns(w.tp) then Act(View(sys, g), stacks, RedisFails(w)) else View(sys, g)
  {
    OneTaskProjects(sys, Act(sys, stacks, RedisFails(w)), g, w);
    if g.owns(w.tp) { OwnSideReads(sys, g, w); }
  }

  lemma CrashProjects(sys: System, stacks: string -> Stack, g: Region, w: Worker)
    ensures View(Act(sys, stacks, Crash(w)), g) ==
      if g.owns(w.tp) then Act(View(sys, g), stacks, Crash(w)) else View(sys, g)
  {
    OneTaskProjects(sys, Act(sys, stacks, Crash(w)), g, w);
    if g.owns(w.tp) { OwnSideReads(sys, g, w); }
  }

  lemma ActProjects(sys: System, stacks: string -> Stack, g: Region, a: Action)
    requires Invariant(sys) && Separated(sys, stacks, g)
    ensures View(Act(sys, stacks, a), g) == if g.owns(Home(a)) then Act(View(sys, g), stacks, a) else View(sys, g)
  {
    if a.Produce? {
      RestrictWrite(sys.topics, g.owns, a.tp, LogOf(sys, a.tp) + [a.m]);
      assert g.owns(a.tp) ==> LogOf(View(sys, g), a.tp) == LogOf(sys, a.tp);
    } else {
      AlwaysPlaced(sys, stacks, g, a.w);
      if a.Step? {
        StepProjects(sys, stacks, g, a.w);
      } else if a.PublishFails? {
        PublishFailsProjects(sys, stacks, g, a);
      } else if a.Deliver? {
        DeliverProjects(sys, stacks, g, a.w, a.offset);
      } else if a.Decide? {
        DecideProjects(sys, stacks, g, a.w, a.verdict);
      } else if a.RedisFails? {
        RedisFailsProjects(sys, stacks, g, a.w);
      } else {
        CrashProjects(sys, stacks, g, a.w);
      }
    }
  }

  /** The run of the system so far stays separated: only records of the region write its sets. */
  lemma SetsStaySeparated(sys: System, stacks: string -> Stack, g: Region, a: Action)
    requires Invariant(sys) && Separated(sys, stacks, g)
    ensures
      var r := Act(sys, stacks, a).store.redis;
      forall key, id :: key in r.zsets && g.userKey(key) && id in r.zsets[key] ==> g.eventKey(EventKey(g.namespace, id))
  {
    if a.Step? && a.w in sys.tasks && sys.tasks[a.w].pc.Command? {
      TaskSameSide(sys, stacks, g, a.w);
    }
  }

  ghost predicate TopicsSeparated(sys: System, stacks: string -> Stack, g: Region) {
    forall tp, i :: 0 <= i < |LogOf(sys, tp)| ==> SameSide(g, stacks, tp, LogOf(sys, tp)[i])
  }

  lemma SeparatedBefore(a: System, b: System, stacks: string -> Stack, g: Region)
    requires Extends(a, b) && TopicsSeparated(b, stacks, g)
    ensures TopicsSeparated(a, stacks, g)
  {
    forall tp, i | 0 <= i < |LogOf(a, tp)| ensures SameSide(g, stacks, tp, LogOf(a, tp)[i]) {
      assert LogOf(a, tp) <= LogOf(b, tp);
      assert LogOf(a, tp)[i] == LogOf(b, tp)[i];
    }
  }

  /** The part of a run that belongs to the region is the run of the region's own actions. Logs only
      grow, so it is enough that the topics are separated at the end. */
  lemma {:induction false} RunProjects(sys: System, stacks: string -> Stack, g: Region, acts: seq<Action>)
    requires Invariant(sys) && Separated(sys, stacks, g)
    requires TopicsSeparated(Run(sys, stacks, acts), stacks, g)
    ensures Separated(Run(sys, stacks, acts), stacks, g)
    ensures View(Run(sys, stacks, acts), g) == Run(View(sys, g), stacks, Own(acts, g))
    decreases |acts|
  {
    if acts == [] {
    } else {
      var before, last := acts[..|acts| - 1], acts[|acts| - 1];
      var mid := Run(sys, stacks, before);
      ActExtends(mid, stacks, last);
      SeparatedBefore(mid, Run(sys, stacks, acts), stacks, g);
      RunProjects(sys, stacks, g, before);
      Reachable(sys, stacks, before);
      SetsStaySeparated(mid, stacks, g, last);
      ActProjects(mid, stacks, g, last);
      RunSnoc(View(sys, g), stacks, Own(before, g), last);
    }
  }

  lemma RunSnoc(sys: System, stacks: string -> Stack, acts: seq<Action>, a: Action)
    ensures Run(sys, stacks, acts + [a]) == Act(Run(sys, stacks, acts), stacks, a)
    ensures Run(sys, stacks, acts + []) == Run(sys, stacks, acts)
  {
    assert (acts + [a])[..|acts|] == acts;
    assert acts + [] == acts;
  }
}
