/** The Redis-backed window store as the object that issues the commands one by one. */
module WindowStore {
  import opened Domain
  import opened RedisWindow

  /** `count` and `sum` are what the hashes of `ids` add up to. */
  ghost predicate AddsUp(r: Redis, c: WindowConfig, ids: set<string>, count: nat, sum: real) {
    var amounts := ValidAmounts(r, c, ids);
    count == |amounts| && sum == Total(amounts)
  }

  lemma AddsUpNext(r: Redis, c: WindowConfig, ids: set<string>, id: string, count: nat, sum: real)
    requires id !in ids && AddsUp(r, c, ids, count, sum)
    ensures
      var key := EventKey(c.namespace, id);
      && (key in r.hashes ==> AddsUp(r, c, ids + {id}, count + 1, sum + r.hashes[key].amount))
      && (key !in r.hashes ==> AddsUp(r, c, ids + {id}, count, sum))
  {
    var key := EventKey(c.namespace, id);
    var all, rest := ValidAmounts(r, c, ids + {id}), ValidAmounts(r, c, ids);
    assert rest == all - {id};
    if key in r.hashes {
      TotalPick(all, id);
      SizeOfRest(all, id);
    } else {
      assert all - {id} == all;
    }
  }

  lemma MoveOut<T>(all: set<T>, rest: set<T>, x: T)
    requires x in rest && rest <= all
    ensures all - rest + {x} == all - (rest - {x})
    ensures x !in all - rest
  {
  }

  lemma SizeOfRest(all: map<string, real>, id: string)
    requires id in all
    ensures |all| == |all - {id}| + 1
  {
    assert all.Keys == (all - {id}).Keys + {id};
  }

  class RedisRecentTransactionWindowStore {
    var zsets: map<string, map<string, int>>
    var hashes: map<string, EventHash>
    const config: WindowConfig

    constructor (config: WindowConfig)
      ensures this.config == config && Keyspace() == EMPTY
    {
      this.config := config;
      zsets, hashes := map[], map[];
    }

    function Keyspace(): Redis
      reads this
    {
      Redis(zsets, hashes)
    }

    /** Records `m` and reads its window back. `failsAt` is the number of commands that took effect
        before the connection failed; from COMMANDS on, the failure hits the reads. Every Redis
        exception is caught and answered as RedisUnavailable. */
    method RecordAndGetWindow(m: Message, failsAt: Option<nat>) returns (w: WindowResult)
      modifies this
      ensures IsTooLate(config, m) ==> w == TooLate && Keyspace() == old(Keyspace())
      ensures !IsTooLate(config, m) && failsAt.None? ==>
        Keyspace() == Apply(old(Keyspace()), config, m) && w == Answer(old(Keyspace()), config, m)
      ensures !IsTooLate(config, m) && failsAt.Some? ==>
        && w == RedisUnavailable
        && Keyspace() == Prefix(old(Keyspace()), config, m,
                                if failsAt.value < COMMANDS then failsAt.value else COMMANDS)
      ensures config.replay && failsAt.None? ==>
        && w.Normal? && EventKey(config.namespace, m.eventId) in hashes
        && hashes[EventKey(config.namespace, m.eventId)] == EventHash(m.amount, m.currency, m.eventTime, m.userId)
      ensures !config.replay && config.allowedLateness >= 0 ==>
        (w == TooLate <==> m.receivedAt - m.eventTime > config.allowedLateness)
      ensures w != TooLate ==> (w == RedisUnavailable <==> failsAt.Some?)
    {
      GateIff(Keyspace(), config, m);
      if IsTooLate(config, m) {
        return TooLate;
      }
      var sent := IssueCommands(m, failsAt);
      if !sent { return RedisUnavailable; }
      w := SumWindow(m, UserEventsKey(config.namespace, m.userId));
    }

    /** The commands that record `m`, one by one; false where the connection fails. */
    method IssueCommands(m: Message, failsAt: Option<nat>) returns (sent: bool)
      modifies this
      ensures sent <==> failsAt.None?
      ensures Keyspace() == Prefix(old(Keyspace()), config, m,
                                   if failsAt.Some? && failsAt.value < COMMANDS then failsAt.value else COMMANDS)
    {
      ghost var r0 := Keyspace();
      var userKey := UserEventsKey(config.namespace, m.userId);
      var eventKey := EventKey(config.namespace, m.eventId);

      if failsAt == Some(0) { return false; }
      hashes := hashes[eventKey := EventHash(m.amount, m.currency, m.eventTime, m.userId)];
      assert Keyspace() == Prefix(r0, config, m, 1);
      if failsAt == Some(1) { return false; }
      var members := if userKey in zsets then zsets[userKey] else map[];
      zsets := zsets[userKey := members[m.eventId := Score(m)]];
      assert Keyspace() == Prefix(r0, config, m, 2);
      if failsAt == Some(2) { return false; }
      zsets := zsets[userKey := Kept(zsets[userKey], WindowStart(config, m))];
      assert Keyspace() == Prefix(r0, config, m, 3);
      // The two expire commands leave the contents alone.
      assert Prefix(r0, config, m, 4) == Prefix(r0, config, m, 3);
      assert Prefix(r0, config, m, 5) == Prefix(r0, config, m, 4);
      return failsAt.None?;
    }

    /** Reads the range and adds up the amounts that are still there. */
    method SumWindow(m: Message, userKey: string) returns (w: WindowResult)
      requires userKey == UserEventsKey(config.namespace, m.userId)
      ensures w == Read(Keyspace(), config, m)
    {
      ghost var r := Keyspace();
      var ids := InRange(Keyspace(), config, m);
      var rest := ids;
      assert ids - rest == {};
      var count: nat, sum := 0, 0.0;
      while rest != {}
        invariant rest <= ids
        invariant AddsUp(r, config, ids - rest, count, sum)
        decreases rest
      {
        var id :| id in rest;
        var key := EventKey(config.namespace, id);
        AddsUpNext(r, config, ids - rest, id, count, sum);
        MoveOut(ids, rest, id);
        if key in hashes {
          count, sum := count + 1, sum + hashes[key].amount;
        }
        rest := rest - {id};
      }
      assert ids - rest == ids;
      w := Normal(count, sum);
    }
  }
}
