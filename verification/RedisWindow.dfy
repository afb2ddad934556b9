/** The sliding window kept in Redis: one sorted set per user and one hash per event, the commands
    that one delivery issues, and the answer it reads back. */
module RedisWindow {
  import opened Domain

  const NANOS_PER_MILLI := 1_000_000

  datatype WindowConfig = WindowConfig(
    window: int,
    ttl: int,
    allowedLateness: int,
    namespace: string,
    replay: bool
  )

  datatype EventHash = EventHash(amount: real, currency: string, eventTime: int, userId: string)

  /** The keyspace. Sorted-set keys and hash keys are different strings (see KeysNeverCollide), so
      the two families are kept as two maps. */
  datatype Redis = Redis(zsets: map<string, map<string, int>>, hashes: map<string, EventHash>)

  datatype WindowResult =
    | Normal(count: nat, sum: real)
    | RedisUnavailable
    | TooLate
  {
    predicate Degraded() { !Normal? }
  }

  const EMPTY := Redis(map[], map[])

  // ----- Keys -----

  function UserEventsKey(namespace: string, userId: string): string {
    "fraud:tx:" + namespace + ":user:" + userId + ":events"
  }

  function EventKey(namespace: string, eventId: string): string {
    "fraud:tx:" + namespace + ":event:" + eventId
  }

  lemma UserKeyInjective(namespace: string, u: string, v: string)
    requires UserEventsKey(namespace, u) == UserEventsKey(namespace, v)
    ensures u == v
  {
    var n := |"fraud:tx:" + namespace + ":user:"|;
    var a, b := UserEventsKey(namespace, u), UserEventsKey(namespace, v);
    assert a[n..|a| - 7] == u;
    assert b[n..|b| - 7] == v;
  }

  lemma EventKeyInjective(namespace: string, e: string, f: string)
    requires EventKey(namespace, e) == EventKey(namespace, f)
    ensures e == f
  {
    var n := |"fraud:tx:" + namespace + ":event:"|;
    assert EventKey(namespace, e)[n..] == e;
    assert EventKey(namespace, f)[n..] == f;
  }

  /** The two deployed namespaces share no key, and no sorted-set key is ever a hash key. */
  lemma KeysNeverCollide(n1: string, n2: string, u: string, v: string, e: string, f: string)
    requires n1 in {"live", "replay"} && n2 in {"live", "replay"}
    ensures UserEventsKey(n1, u) == UserEventsKey(n2, v) <==> n1 == n2 && u == v
    ensures EventKey(n1, e) == EventKey(n2, f) <==> n1 == n2 && e == f
    ensures UserEventsKey(n1, u) != EventKey(n2, e)
  {
    if n1 != n2 {
      assert UserEventsKey(n1, u)[9] == n1[0] && UserEventsKey(n2, v)[9] == n2[0];
      assert EventKey(n1, e)[9] == n1[0] && EventKey(n2, f)[9] == n2[0];
      assert EventKey(n2, e)[9] == n2[0];
    } else {
      if UserEventsKey(n1, u) == UserEventsKey(n2, v) { UserKeyInjective(n1, u, v); }
      if EventKey(n1, e) == EventKey(n2, f) { EventKeyInjective(n1, e, f); }
      assert UserEventsKey(n1, u)[10 + |n1|] == 'u';
      assert EventKey(n2, e)[10 + |n1|] == 'e';
    }
  }

  // ----- The lateness gate and the event-time bounds -----

  function Millis(nanos: int): int { nanos / NANOS_PER_MILLI }

  function Score(m: Message): int { Millis(m.eventTime) }

  function WindowStart(c: WindowConfig, m: Message): int { Millis(m.eventTime - c.window) }

  predicate IsTooLate(c: WindowConfig, m: Message) {
    var lateness := m.receivedAt - m.eventTime;
    !c.replay && lateness >= 0 && lateness > c.allowedLateness
  }

  // ----- The commands of one delivery -----

  function Members(r: Redis, key: string): map<string, int> {
    if key in r.zsets then r.zsets[key] else map[]
  }

  function PutHash(r: Redis, c: WindowConfig, m: Message): Redis {
    r.(hashes := r.hashes[EventKey(c.namespace, m.eventId) :=
                            EventHash(m.amount, m.currency, m.eventTime, m.userId)])
  }

  function AddMember(r: Redis, c: WindowConfig, m: Message): Redis {
    var key := UserEventsKey(c.namespace, m.userId);
    r.(zsets := r.zsets[key := Members(r, key)[m.eventId := Score(m)]])
  }

  /** Removes the scores in [0, windowStart - 1]: a negative score is never removed. */
  function Prune(r: Redis, c: WindowConfig, m: Message): Redis {
    var key := UserEventsKey(c.namespace, m.userId);
    r.(zsets := r.zsets[key := Kept(Members(r, key), WindowStart(c, m))])
  }

  function Kept(members: map<string, int>, start: int): map<string, int> {
    map id | id in members && !(0 <= members[id] <= start - 1) :: members[id]
  }

  /** The mutating commands in the order they are sent; 3 and 4 only set key deadlines, which
      TtlTransparency accounts for. */
  const COMMANDS := 5

  function Command(r: Redis, c: WindowConfig, m: Message, k: nat): Redis {
    match k
    case 0 => PutHash(r, c, m)
    case 1 => AddMember(r, c, m)
    case 2 => Prune(r, c, m)
    case _ => r
  }

  /** The keyspace after the first `k` commands. */
  function Prefix(r: Redis, c: WindowConfig, m: Message, k: nat): Redis {
    if k == 0 then r else Command(Prefix(r, c, m, k - 1), c, m, k - 1)
  }

  /** The keyspace after one complete call. */
  function Apply(r: Redis, c: WindowConfig, m: Message): Redis {
    if IsTooLate(c, m) then r else Prefix(r, c, m, COMMANDS)
  }

  // ----- The answer -----

  function InRange(r: Redis, c: WindowConfig, m: Message): set<string> {
    var members := Members(r, UserEventsKey(c.namespace, m.userId));
    set id | id in members && WindowStart(c, m) <= members[id] <= Score(m)
  }

  /** The amounts of those ids whose hash is there; the others are left out of count and sum. */
  function ValidAmounts(r: Redis, c: WindowConfig, ids: set<string>): map<string, real> {
    map id | id in ids && EventKey(c.namespace, id) in r.hashes :: r.hashes[EventKey(c.namespace, id)].amount
  }

  ghost function Total(amounts: map<string, real>): real {
    if amounts == map[] then 0.0 else
      var id :| id in amounts;
      amounts[id] + Total(amounts - {id})
  }

  ghost function Read(r: Redis, c: WindowConfig, m: Message): WindowResult {
    var amounts := ValidAmounts(r, c, InRange(r, c, m));
    Normal(|amounts|, Total(amounts))
  }

  /** The answer of one complete call. */
  ghost function Answer(r: Redis, c: WindowConfig, m: Message): WindowResult {
    if IsTooLate(c, m) then TooLate else Read(Apply(r, c, m), c, m)
  }

  /** The lateness gate: a live event is skipped exactly when its receipt came later than allowed after
      it, a replayed one never; whatever is not skipped leaves its hash. */
  lemma GateIff(r: Redis, c: WindowConfig, m: Message)
    ensures Answer(r, c, m) == TooLate <==>
      !c.replay && m.receivedAt >= m.eventTime && m.receivedAt - m.eventTime > c.allowedLateness
    ensures Answer(r, c, m) == TooLate ==> Apply(r, c, m) == r
    ensures Answer(r, c, m) != TooLate ==>
      && Answer(r, c, m).Normal? && EventKey(c.namespace, m.eventId) in Apply(r, c, m).hashes
      && Apply(r, c, m).hashes[EventKey(c.namespace, m.eventId)] == EventHash(m.amount, m.currency, m.eventTime, m.userId)
  {
    if !IsTooLate(c, m) { HashStays(r, c, m, COMMANDS); }
  }

  lemma {:induction false} HashStays(r: Redis, c: WindowConfig, m: Message, k: nat)
    requires k > 0
    ensures Prefix(r, c, m, k).hashes ==
      r.hashes[EventKey(c.namespace, m.eventId) := EventHash(m.amount, m.currency, m.eventTime, m.userId)]
  {
    if k == 1 {
      assert Prefix(r, c, m, 0) == r;
    } else {
      HashStays(r, c, m, k - 1);
    }
  }

  lemma {:induction false} TotalPick(amounts: map<string, real>, id: string)
    requires id in amounts
    ensures Total(amounts) == amounts[id] + Total(amounts - {id})
    decreases |amounts|
  {
    var first :| first in amounts && Total(amounts) == amounts[first] + Total(amounts - {first});
    if first != id {
      TotalPick(amounts - {first}, id);
      TotalPick(amounts - {id}, first);
      assert amounts - {first} - {id} == amounts - {id} - {first};
    }
  }
}
