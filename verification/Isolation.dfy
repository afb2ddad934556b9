/** Live and replay, and any two partitions, do not see each other: derived from the start-up checks,
    the key layout, record keys, topic-preserving reprocessing and the uniqueness of receipts. */
module Isolation {
  import opened Domain
  import opened RedisWindow
  import Intake
  import opened Consumer
  import AckSafety
  import opened Projection
  import opened Convergence
  import DltAdmin
  import opened StreamConfig
  import opened EndToEnd

  /** Both stacks started. */
  predicate Deployed(u: Setup) {
    Started(u.stacks(DltAdmin.LIVE_TOPIC), DltAdmin.LIVE_TOPIC) && Started(u.stacks(DltAdmin.REPLAY_TOPIC), DltAdmin.REPLAY_TOPIC)
  }

  predicate ProducerStarted(topic: string) {
    ValidateProducer(Live, topic) == Accepted || ValidateProducer(Replay, topic) == Accepted
  }

  /** Every intake instance that took a request had started. */
  predicate IntakeStarted(acts: seq<Intake.Action>) {
    forall i :: 0 <= i < |acts| && acts[i].Begin? ==> ProducerStarted(acts[i].topic)
  }

  /** No message of a rolled-back intake transaction is on a topic. */
  ghost predicate IntakeCommits(s: Intake.State) {
    forall id :: Intake.UndoneWrites(s, id) == 0
  }

  ghost predicate Assumed(u: Setup, events: seq<Event>) {
    && Deployed(u) && IntakeStarted(IntakeTrace(events))
    && IntakeCommits(EndToEnd.Run(u, events).intake)
  }

  // ----- Topics and events -----

  ghost predicate TopicsSupported(s: Intake.State) {
    && (forall i :: 0 <= i < |s.sent| ==> DltAdmin.Supported(s.sent[i].topic))
    && (forall t :: t in s.open ==> DltAdmin.Supported(s.open[t].topic))
  }

  lemma {:induction false} OnlySupportedTopics(acts: seq<Intake.Action>)
    requires IntakeStarted(acts)
    ensures TopicsSupported(Intake.Run(Intake.EMPTY, acts))
    decreases |acts|
  {
    if acts == [] {
    } else {
      OnlySupportedTopics(acts[..|acts| - 1]);
      ActSupported(Intake.Run(Intake.EMPTY, acts[..|acts| - 1]), acts[|acts| - 1]);
    }
  }

  lemma ActSupported(s: Intake.State, a: Intake.Action)
    requires TopicsSupported(s) && (a.Begin? ==> ProducerStarted(a.topic))
    ensures TopicsSupported(Intake.Act(s, a))
  {
  }

  /** The intake send behind a record. */
  lemma Origin(u: Setup, events: seq<Event>, tp: TopicPartition, i: nat) returns (k: nat)
    requires IntakeStarted(IntakeTrace(events)) && i < |LogOf(EndToEnd.Run(u, events).consumer, tp)|
    ensures
      var w := EndToEnd.Run(u, events);
      var m := LogOf(w.consumer, tp)[i];
      && k < |w.intake.sent| && w.intake.sent[k] == Intake.Sent(tp.topic, m)
      && Place(u, tp.topic, m) == tp && DltAdmin.Supported(tp.topic)
  {
    EndToEnd.Reachable(u, events);
    PartsRunOnTheirOwn(u, events);
    OnlySupportedTopics(IntakeTrace(events));
    var w := EndToEnd.Run(u, events);
    var m := LogOf(w.consumer, tp)[i];
    assert HasOrigin(u, w, tp, m);
    k :| 0 <= k < |w.intake.sent| && w.intake.sent[k] == Intake.Sent(tp.topic, m);
  }

  lemma SameSend(u: Setup, events: seq<Event>, i: nat, j: nat)
    requires IntakeCommits(EndToEnd.Run(u, events).intake)
    requires
      var sent := EndToEnd.Run(u, events).intake.sent;
      i < |sent| && j < |sent| && sent[i].m.eventId == sent[j].m.eventId
    ensures i == j
  {
    PartsRunOnTheirOwn(u, events);
    Intake.EventIdDeterminesMessage(IntakeTrace(events), i, j);
  }

  /** While intake commits, all records of an event, reprocessed ones included, are one message on one
      partition of one topic. */
  lemma EventHasOneHome(u: Setup, events: seq<Event>, a: Source, b: Source)
    requires Assumed(u, events)
    requires
      var sys := EndToEnd.Run(u, events).consumer;
      && a.offset < |LogOf(sys, a.tp)| && b.offset < |LogOf(sys, b.tp)|
      && LogOf(sys, a.tp)[a.offset].eventId == LogOf(sys, b.tp)[b.offset].eventId
    ensures a.tp == b.tp
    ensures LogOf(EndToEnd.Run(u, events).consumer, a.tp)[a.offset] == LogOf(EndToEnd.Run(u, events).consumer, b.tp)[b.offset]
  {
    var i := Origin(u, events, a.tp, a.offset);
    var j := Origin(u, events, b.tp, b.offset);
    SameSend(u, events, i, j);
  }

  // ----- Regions -----

  /** Some partitions of one topic. */
  datatype Part = Part(topic: string, mine: nat -> bool)

  /** Intake sent the event to this part, or to the topic but beside the part. */
  ghost predicate HasSend(u: Setup, w: World, part: Part, id: string, inside: bool) {
    exists k :: 0 <= k < |w.intake.sent| && SendIs(u, w.intake.sent[k], part, id, inside)
  }

  predicate SendIs(u: Setup, x: Intake.Sent, part: Part, id: string, inside: bool) {
    x.topic == part.topic && x.m.eventId == id && part.mine(u.partitionOf(x.m.userId)) == inside
  }

  ghost predicate IsUserKey(u: Setup, namespace: string, part: Part, key: string) {
    exists user :: key == UserEventsKey(namespace, user) && part.mine(u.partitionOf(user))
  }

  ghost predicate IsEventKey(u: Setup, w: World, namespace: string, part: Part, key: string) {
    exists id :: key == EventKey(namespace, id) && !HasSend(u, w, part, id, false)
  }

  /** The part with its events and keys; for a whole topic that is its whole Redis namespace. */
  ghost function RegionOf(u: Setup, w: World, part: Part): Region {
    var namespace := u.stacks(part.topic).window.namespace;
    Region(
      namespace,
      (tp: TopicPartition) => tp.topic == part.topic && part.mine(tp.partition),
      id => HasSend(u, w, part, id, true),
      key => IsUserKey(u, namespace, part, key),
      key => IsEventKey(u, w, namespace, part, key))
  }

  lemma NamespacesApart(u: Setup, a: string, b: string)
    requires Deployed(u) && DltAdmin.Supported(a) && DltAdmin.Supported(b)
    ensures u.stacks(a).window.namespace in {"live", "replay"}
    ensures u.stacks(a).window.namespace == u.stacks(b).window.namespace <==> a == b
  {
    StartedConsumersAreApart(u.stacks(a), a, u.stacks(b), b);
  }

  lemma EventOnItsSide(u: Setup, events: seq<Event>, part: Part, tp: TopicPartition, i: nat)
    requires Assumed(u, events) && i < |LogOf(EndToEnd.Run(u, events).consumer, tp)|
    ensures
      var w := EndToEnd.Run(u, events);
      var id := LogOf(w.consumer, tp)[i].eventId;
      && (HasSend(u, w, part, id, true) <==> tp.topic == part.topic && part.mine(tp.partition))
      && (HasSend(u, w, part, id, false) <==> tp.topic == part.topic && !part.mine(tp.partition))
  {
    var w := EndToEnd.Run(u, events);
    var k := Origin(u, events, tp, i);
    var id := LogOf(w.consumer, tp)[i].eventId;
    forall inside | HasSend(u, w, part, id, inside) ensures SendIs(u, w.intake.sent[k], part, id, inside) {
      var j :| 0 <= j < |w.intake.sent| && SendIs(u, w.intake.sent[j], part, id, inside);
      SameSend(u, events, j, k);
    }
    assert tp.topic == part.topic ==> SendIs(u, w.intake.sent[k], part, id, part.mine(tp.partition));
  }

  lemma UserKeyOnItsSide(u: Setup, part: Part, topic: string, user: string)
    requires Deployed(u) && DltAdmin.Supported(part.topic) && DltAdmin.Supported(topic)
    ensures IsUserKey(u, u.stacks(part.topic).window.namespace, part, UserEventsKey(u.stacks(topic).window.namespace, user))
      <==> topic == part.topic && part.mine(u.partitionOf(user))
  {
    var here, there := u.stacks(part.topic).window.namespace, u.stacks(topic).window.namespace;
    NamespacesApart(u, part.topic, topic);
    NamespacesApart(u, topic, part.topic);
    if IsUserKey(u, here, part, UserEventsKey(there, user)) {
      var other :| UserEventsKey(there, user) == UserEventsKey(here, other) && part.mine(u.partitionOf(other));
      KeysNeverCollide(there, here, user, other, "", "");
    }
  }

  lemma EventKeyOnItsSide(u: Setup, w: World, part: Part, topic: string, id: string)
    requires Deployed(u) && DltAdmin.Supported(part.topic) && DltAdmin.Supported(topic)
    ensures IsEventKey(u, w, u.stacks(part.topic).window.namespace, part, EventKey(u.stacks(topic).window.namespace, id))
      <==> topic == part.topic && !HasSend(u, w, part, id, false)
  {
    var here, there := u.stacks(part.topic).window.namespace, u.stacks(topic).window.namespace;
    NamespacesApart(u, part.topic, topic);
    NamespacesApart(u, topic, part.topic);
    if IsEventKey(u, w, here, part, EventKey(there, id)) {
      var other :| EventKey(there, id) == EventKey(here, other) && !HasSend(u, w, part, other, false);
      KeysNeverCollide(there, here, "", "", id, other);
    }
  }

  /** Every record lies with its event and keys on one side of the part's border. */
  lemma PartIsSeparated(u: Setup, events: seq<Event>, part: Part)
    requires Assumed(u, events) && DltAdmin.Supported(part.topic)
    ensures TopicsSeparated(EndToEnd.Run(u, events).consumer, u.stacks, RegionOf(u, EndToEnd.Run(u, events), part))
  {
    var w := EndToEnd.Run(u, events);
    var g := RegionOf(u, w, part);
    forall tp, i | 0 <= i < |LogOf(w.consumer, tp)| ensures SameSide(g, u.stacks, tp, LogOf(w.consumer, tp)[i]) {
      var k := Origin(u, events, tp, i);
      var m := LogOf(w.consumer, tp)[i];
      EventOnItsSide(u, events, part, tp, i);
      UserKeyOnItsSide(u, part, tp.topic, m.userId);
      EventKeyOnItsSide(u, w, part, tp.topic, m.eventId);
    }
  }

  // ----- Main results -----

  ghost function LiveRegion(u: Setup, w: World): Region {
    RegionOf(u, w, Part(DltAdmin.LIVE_TOPIC, _ => true))
  }

  /** Non-interference: in any world run the live part of every table and of Redis is what the actions
      on the live topic alone lead to. */
  lemma ReplayLeavesLiveAlone(u: Setup, events: seq<Event>)
    requires Assumed(u, events)
    ensures
      var w := EndToEnd.Run(u, events);
      var g := LiveRegion(u, w);
      View(w.consumer, g) == Consumer.Run(INITIAL, u.stacks, Own(ConsumerTrace(u, events), g))
  {
    var g := LiveRegion(u, EndToEnd.Run(u, events));
    PartsRunOnTheirOwn(u, events);
    PartIsSeparated(u, events, Part(DltAdmin.LIVE_TOPIC, _ => true));
    InitialView(g);
    RunProjects(INITIAL, u.stacks, g, ConsumerTrace(u, events));
  }

  /** The live region is the live topic with the whole `live` namespace and nothing of `replay`. */
  lemma LiveRegionIsTheNamespace(u: Setup, w: World, id: string)
    requires Deployed(u)
    ensures
      var g := LiveRegion(u, w);
      && (forall tp :: g.owns(tp) <==> tp.topic == DltAdmin.LIVE_TOPIC)
      && g.userKey(UserEventsKey("live", id)) && g.eventKey(EventKey("live", id))
      && !g.userKey(UserEventsKey("replay", id)) && !g.eventKey(EventKey("replay", id))
  {
    var part := Part(DltAdmin.LIVE_TOPIC, _ => true);
    assert u.stacks(DltAdmin.LIVE_TOPIC).window.namespace == "live";
    assert u.stacks(DltAdmin.REPLAY_TOPIC).window.namespace == "replay" by {
      assert |DltAdmin.LIVE_TOPIC| != |DltAdmin.REPLAY_TOPIC|;
    }
    assert DltAdmin.REPLAY_TOPIC != DltAdmin.LIVE_TOPIC by { assert |DltAdmin.LIVE_TOPIC| != |DltAdmin.REPLAY_TOPIC|; }
    UserKeyOnItsSide(u, part, DltAdmin.LIVE_TOPIC, id);
    UserKeyOnItsSide(u, part, DltAdmin.REPLAY_TOPIC, id);
    EventKeyOnItsSide(u, w, part, DltAdmin.LIVE_TOPIC, id);
    EventKeyOnItsSide(u, w, part, DltAdmin.REPLAY_TOPIC, id);
  }

  ghost function PartitionRegion(u: Setup, w: World, tp: TopicPartition): Region {
    RegionOf(u, w, Part(tp.topic, p => p == tp.partition))
  }

  lemma PartitionIsSeparated(u: Setup, events: seq<Event>, tp: TopicPartition)
    requires Assumed(u, events) && DltAdmin.Supported(tp.topic)
    ensures
      var w := EndToEnd.Run(u, events);
      var g := PartitionRegion(u, w, tp);
      && w.consumer == Consumer.Run(INITIAL, u.stacks, ConsumerTrace(u, events))
      && TopicsSeparated(w.consumer, u.stacks, g) && forall t :: g.owns(t) <==> t == tp
  {
    PartsRunOnTheirOwn(u, events);
    PartIsSeparated(u, events, Part(tp.topic, p => p == tp.partition));
  }

  /** Convergence of the deployed system: once a partition's records are all acknowledged, its part of
      the tables and of Redis is that of one crash-free pass over its log, whatever crashed and was
      redelivered there and whatever happened on the other partitions and stacks. */
  lemma PartitionsConverge(u: Setup, events: seq<Event>, tp: TopicPartition, engine: Engine)
    requires Assumed(u, events) && DltAdmin.Supported(tp.topic) && u.stacks(tp.topic).window.window >= 0
    requires DisciplinedIn(INITIAL, u.stacks, engine, PartitionRegion(u, EndToEnd.Run(u, events), tp), ConsumerTrace(u, events))
    requires AllAcknowledged(EndToEnd.Run(u, events).consumer, tp)
    ensures
      var w := EndToEnd.Run(u, events);
      Converged(ViewStore(w.consumer.store, PartitionRegion(u, w, tp)),
                CrashFree(u.stacks(tp.topic), tp, LogOf(w.consumer, tp), engine))
  {
    PartitionIsSeparated(u, events, tp);
    CrashesLeaveNoTrace(u.stacks, tp, engine, PartitionRegion(u, EndToEnd.Run(u, events), tp), ConsumerTrace(u, events));
  }
}
