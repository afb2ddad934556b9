/** The start-up checks that tie each stream mode to its topic, consumer group and Redis namespace. */
module StreamConfig {
  import opened DltAdmin
  import opened Consumer

  datatype Mode = Live | Replay

  datatype Validation = Accepted | Refused(message: string)

  const LIVE_GROUP := "fraud-event-consumer"
  const REPLAY_GROUP := "fraud-event-replay-consumer"
  const LIVE_NAMESPACE := "live"
  const REPLAY_NAMESPACE := "replay"

  function ValidateConsumer(mode: Mode, namespace: string, topic: string, group: string): Validation {
    if mode == Live then ValidateLive(topic, group, namespace) else ValidateReplay(topic, group, namespace)
  }

  function ValidateLive(topic: string, group: string, namespace: string): Validation {
    if topic != LIVE_TOPIC then Refused("LIVE stream mode must consume " + LIVE_TOPIC)
    else if group != LIVE_GROUP then Refused("LIVE stream mode must use consumer group " + LIVE_GROUP)
    else if namespace != LIVE_NAMESPACE then Refused("LIVE stream mode must use Redis namespace " + LIVE_NAMESPACE)
    else Accepted
  }

  function ValidateReplay(topic: string, group: string, namespace: string): Validation {
    if topic != REPLAY_TOPIC then Refused("REPLAY stream mode must consume " + REPLAY_TOPIC)
    else if group != REPLAY_GROUP then Refused("REPLAY stream mode must use consumer group " + REPLAY_GROUP)
    else if namespace != REPLAY_NAMESPACE then Refused("REPLAY stream mode must use Redis namespace " + REPLAY_NAMESPACE)
    else Accepted
  }

  function ValidateProducer(mode: Mode, topic: string): Validation {
    if mode == Live && topic != LIVE_TOPIC then Refused("LIVE stream mode must publish to " + LIVE_TOPIC)
    else if mode == Replay && topic != REPLAY_TOPIC then Refused("REPLAY stream mode must publish to " + REPLAY_TOPIC)
    else Accepted
  }

  function ModeOf(stack: Stack): Mode { if stack.window.replay then Replay else Live }

  /** The stack that reads `topic` passed its start-up check. */
  predicate Started(stack: Stack, topic: string) {
    ValidateConsumer(ModeOf(stack), stack.window.namespace, topic, stack.group) == Accepted
  }

  /** A consumer starts exactly with the topic, the group and the namespace of its mode. */
  lemma StartsIff(stack: Stack, topic: string)
    ensures Started(stack, topic) <==>
      if stack.window.replay
      then topic == "transaction-events-replay" && stack.group == "fraud-event-replay-consumer" && stack.window.namespace == "replay"
      else topic == "transaction-events" && stack.group == "fraud-event-consumer" && stack.window.namespace == "live"
    ensures ValidateProducer(ModeOf(stack), topic) == Accepted <==>
      topic == if stack.window.replay then "transaction-events-replay" else "transaction-events"
  {
  }

  /** Two consumers that started share their topic, their group or their namespace only if they run in
      the same mode, and then they share all three: a topic has one stack. */
  lemma StartedConsumersAreApart(a: Stack, topicA: string, b: Stack, topicB: string)
    requires Started(a, topicA) && Started(b, topicB)
    ensures topicA == topicB <==> ModeOf(a) == ModeOf(b)
    ensures a.group == b.group <==> ModeOf(a) == ModeOf(b)
    ensures a.window.namespace == b.window.namespace <==> ModeOf(a) == ModeOf(b)
  {
    assert LIVE_GROUP[12] != REPLAY_GROUP[12];
    assert |LIVE_TOPIC| != |REPLAY_TOPIC|;
    assert |LIVE_NAMESPACE| != |REPLAY_NAMESPACE|;
  }

  /** A producer and a consumer that started are on one topic exactly when they run in one mode. */
  lemma ProducerReachesItsMode(mode: Mode, topic: string, stack: Stack, consumed: string)
    requires ValidateProducer(mode, topic) == Accepted && Started(stack, consumed)
    ensures topic == consumed <==> mode == ModeOf(stack)
    ensures Supported(topic)
  {
    assert |LIVE_TOPIC| != |REPLAY_TOPIC|;
  }
}
