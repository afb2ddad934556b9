/** Calls that stop after any prefix of their commands: what they leave behind, and why a later
    complete call for the same message makes up for them. */
module PartialFailure {
  import opened Domain
  import opened RedisWindow
  import opened WindowHistory

  /** A call for `m` of which the first `sent` commands took effect; COMMANDS is a complete call. */
  datatype Call = Call(m: Message, sent: nat)

  function Leave(r: Redis, c: WindowConfig, call: Call): Redis
    requires call.sent <= COMMANDS
  {
    if IsTooLate(c, call.m) then r else Prefix(r, c, call.m, call.sent)
  }

  function LeaveAll(c: WindowConfig, calls: seq<Call>): Redis
    requires forall i :: 0 <= i < |calls| ==> calls[i].sent <= COMMANDS
  {
    if calls == [] then EMPTY else Leave(LeaveAll(c, calls[..|calls| - 1]), c, calls[|calls| - 1])
  }

  function Messages(calls: seq<Call>): seq<Message> {
    seq(|calls|, i requires 0 <= i < |calls| => calls[i].m)
  }

  // ----- Hash before member -----

  /** Every member of every sorted set has its hash. */
  ghost predicate MembersHashed(c: WindowConfig, r: Redis) {
    forall key, id :: key in r.zsets && id in r.zsets[key] ==> EventKey(c.namespace, id) in r.hashes
  }

  lemma CommandKeepsHashed(r: Redis, c: WindowConfig, m: Message, k: nat)
    requires MembersHashed(c, r)
    requires k == 1 ==> EventKey(c.namespace, m.eventId) in r.hashes
    ensures MembersHashed(c, Command(r, c, m, k))
  {
  }

  lemma {:induction false} PrefixKeepsHashed(r: Redis, c: WindowConfig, m: Message, k: nat)
    requires MembersHashed(c, r)
    ensures MembersHashed(c, Prefix(r, c, m, k))
    ensures k > 0 ==> EventKey(c.namespace, m.eventId) in Prefix(r, c, m, k).hashes
  {
    if k == 0 {
    } else {
      PrefixKeepsHashed(r, c, m, k - 1);
      CommandKeepsHashed(Prefix(r, c, m, k - 1), c, m, k - 1);
    }
  }

  /** Whatever prefixes the calls got through, no member is ever without its amount. */
  lemma {:induction false} MembersAlwaysHashed(c: WindowConfig, calls: seq<Call>)
    requires forall i :: 0 <= i < |calls| ==> calls[i].sent <= COMMANDS
    ensures MembersHashed(c, LeaveAll(c, calls))
    decreases |calls|
  {
    if calls == [] {
    } else {
      var last := calls[|calls| - 1];
      MembersAlwaysHashed(c, calls[..|calls| - 1]);
      PrefixKeepsHashed(LeaveAll(c, calls[..|calls| - 1]), c, last.m, last.sent);
    }
  }

  // ----- Repeating commands -----

  /** A command that was already sent changes nothing when it is sent again. */
  lemma Redo(r: Redis, c: WindowConfig, m: Message, k: nat, sent: nat)
    requires c.window >= 0 && k < sent <= COMMANDS
    ensures Command(Prefix(r, c, m, sent), c, m, k) == Prefix(r, c, m, sent)
  {
    WindowStartBeforeScore(c, m);
    PrefixForm(r, c, m, sent);
    var p := Prefix(r, c, m, sent);
    var userKey := UserEventsKey(c.namespace, m.userId);
    match k
    case 0 =>
      assert p.hashes[EventKey(c.namespace, m.eventId)] == EventHash(m.amount, m.currency, m.eventTime, m.userId);
    case 1 =>
      assert p.zsets[userKey][m.eventId] == Score(m);
      assert p.zsets[userKey][m.eventId := Score(m)] == p.zsets[userKey];
    case 2 =>
      assert Kept(p.zsets[userKey], WindowStart(c, m)) == p.zsets[userKey];
    case _ =>
  }

  /** What a prefix holds under the keys of its own message. */
  lemma PrefixForm(r: Redis, c: WindowConfig, m: Message, k: nat)
    requires c.window >= 0 && k <= COMMANDS
    ensures
      var p, userKey, eventKey := Prefix(r, c, m, k), UserEventsKey(c.namespace, m.userId), EventKey(c.namespace, m.eventId);
      var added := Members(r, userKey)[m.eventId := Score(m)];
      && p.hashes == (if k == 0 then r.hashes
                      else r.hashes[eventKey := EventHash(m.amount, m.currency, m.eventTime, m.userId)])
      && p.zsets == (if k <= 1 then r.zsets
                     else if k == 2 then r.zsets[userKey := added]
                     else r.zsets[userKey := Kept(added, WindowStart(c, m))])
      && (k >= 2 ==> m.eventId in p.zsets[userKey] && p.zsets[userKey][m.eventId] == Score(m))
  {
    WindowStartBeforeScore(c, m);
    var r1 := PutHash(r, c, m);
    assert Prefix(r, c, m, 0) == r;
    assert Prefix(r, c, m, 1) == r1;
    assert Prefix(r, c, m, 2) == AddMember(r1, c, m);
    assert Prefix(r, c, m, 3) == Prune(AddMember(r1, c, m), c, m);
    assert Prefix(r, c, m, 4) == Prefix(r, c, m, 3);
    assert Prefix(r, c, m, 5) == Prefix(r, c, m, 4);
  }

  lemma {:induction false} ResumeCommands(r: Redis, c: WindowConfig, m: Message, sent: nat, k: nat)
    requires c.window >= 0 && sent <= COMMANDS && k <= COMMANDS
    ensures Prefix(Prefix(r, c, m, sent), c, m, k) == Prefix(r, c, m, if k < sent then sent else k)
  {
    if k == 0 {
    } else {
      ResumeCommands(r, c, m, sent, k - 1);
      if k - 1 < sent {
        Redo(r, c, m, k - 1, sent);
      }
    }
  }

  /** The failed call `sent` commands into `m` leaves no trace after a complete call for `m`: same
      keyspace, same answer as if it had never been made. */
  lemma CompleteCallAbsorbsPartial(r: Redis, c: WindowConfig, m: Message, sent: nat)
    requires c.window >= 0 && sent <= COMMANDS
    ensures Apply(Leave(r, c, Call(m, sent)), c, m) == Apply(r, c, m)
    ensures Answer(Leave(r, c, Call(m, sent)), c, m) == Answer(r, c, m)
  {
    ResumeCommands(r, c, m, sent, COMMANDS);
  }

  // ----- What partial calls may show -----

  /** Members and hashes only ever tell what some delivered message said. */
  ghost predicate Sound(c: WindowConfig, log: seq<Message>, r: Redis) {
    && (forall u, id :: id in Members(r, UserEventsKey(c.namespace, u)) ==>
          InLog(c, log, u, id, Members(r, UserEventsKey(c.namespace, u))[id]))
    && (forall i :: 0 <= i < |log| && EventKey(c.namespace, log[i].eventId) in r.hashes ==>
          r.hashes[EventKey(c.namespace, log[i].eventId)].amount == log[i].amount)
    && (forall key :: key in r.hashes ==> HashOfLog(c, log, key))
  }

  ghost predicate InLog(c: WindowConfig, log: seq<Message>, u: string, id: string, score: int) {
    exists i :: 0 <= i < |log| && Touches(c, log[i], u) && log[i].eventId == id && Score(log[i]) == score
  }

  ghost predicate HashOfLog(c: WindowConfig, log: seq<Message>, key: string) {
    exists i :: 0 <= i < |log| && key == EventKey(c.namespace, log[i].eventId)
  }

  lemma LogGrows(c: WindowConfig, log: seq<Message>, m: Message)
    ensures forall u, id, score :: InLog(c, log, u, id, score) ==> InLog(c, log + [m], u, id, score)
    ensures forall key :: HashOfLog(c, log, key) ==> HashOfLog(c, log + [m], key)
    ensures !IsTooLate(c, m) ==> InLog(c, log + [m], m.userId, m.eventId, Score(m))
    ensures HashOfLog(c, log + [m], EventKey(c.namespace, m.eventId))
  {
    var l := log + [m];
    forall u, id, score | InLog(c, log, u, id, score) ensures InLog(c, l, u, id, score) {
      var i :| 0 <= i < |log| && Touches(c, log[i], u) && log[i].eventId == id && Score(log[i]) == score;
      assert l[i] == log[i];
    }
    forall key | HashOfLog(c, log, key) ensures HashOfLog(c, l, key) {
      var i :| 0 <= i < |log| && key == EventKey(c.namespace, log[i].eventId);
      assert l[i] == log[i];
    }
    assert l[|log|] == m;
  }

  lemma SoundHashes(c: WindowConfig, log: seq<Message>, m: Message, r: Redis)
    requires Sound(c, log, r) && OneMeaning(log + [m])
    ensures EventKey(c.namespace, m.eventId) in r.hashes ==>
      r.hashes[EventKey(c.namespace, m.eventId)].amount == m.amount
  {
    var key, l := EventKey(c.namespace, m.eventId), log + [m];
    if key in r.hashes {
      assert HashOfLog(c, log, key);
      var i :| 0 <= i < |log| && key == EventKey(c.namespace, log[i].eventId);
      EventKeyInjective(c.namespace, m.eventId, log[i].eventId);
      assert l[i] == log[i] && l[|log|] == m;
    }
  }

  /** A member after a call cut short was a member before, or is the call's own event. */
  lemma MemberOfPrefix(r: Redis, c: WindowConfig, m: Message, k: nat, u: string, id: string)
    requires c.window >= 0 && k <= COMMANDS
    requires id in Members(Prefix(r, c, m, k), UserEventsKey(c.namespace, u))
    ensures
      var key := UserEventsKey(c.namespace, u);
      var score := Members(Prefix(r, c, m, k), key)[id];
      || (id in Members(r, key) && Members(r, key)[id] == score)
      || (u == m.userId && id == m.eventId && score == Score(m))
  {
    PrefixForm(r, c, m, k);
    if UserEventsKey(c.namespace, u) == UserEventsKey(c.namespace, m.userId) {
      UserKeyInjective(c.namespace, u, m.userId);
    }
  }

  lemma PrefixHashesSound(c: WindowConfig, log: seq<Message>, r: Redis, m: Message, k: nat, i: nat)
    requires c.window >= 0 && k <= COMMANDS
    requires Sound(c, log, r) && OneMeaning(log + [m]) && i <= |log|
    ensures
      var l, p := log + [m], Prefix(r, c, m, k);
      EventKey(c.namespace, l[i].eventId) in p.hashes ==>
        p.hashes[EventKey(c.namespace, l[i].eventId)].amount == l[i].amount
  {
    var l := log + [m];
    PrefixForm(r, c, m, k);
    SoundHashes(c, log, m, r);
    if EventKey(c.namespace, l[i].eventId) == EventKey(c.namespace, m.eventId) {
      EventKeyInjective(c.namespace, l[i].eventId, m.eventId);
      assert l[|log|] == m;
      assert l[i] == m;
    } else {
      assert l[i] == log[i];
    }
  }

  /** A call that stops anywhere keeps the keyspace within what the log says. */
  lemma LeaveKeepsSound(c: WindowConfig, log: seq<Message>, r: Redis, call: Call)
    requires c.window >= 0 && call.sent <= COMMANDS
    requires Sound(c, log, r) && OneMeaning(log + [call.m])
    ensures Sound(c, log + [call.m], Leave(r, c, call))
  {
    var m, l, p := call.m, log + [call.m], Leave(r, c, call);
    var sent := if IsTooLate(c, m) then 0 else call.sent;
    assert p == Prefix(r, c, m, sent);
    LogGrows(c, log, m);
    PrefixForm(r, c, m, sent);
    forall u, id | id in Members(p, UserEventsKey(c.namespace, u))
      ensures InLog(c, l, u, id, Members(p, UserEventsKey(c.namespace, u))[id])
    {
      MemberOfPrefix(r, c, m, sent, u, id);
    }
    forall i | 0 <= i < |l| && EventKey(c.namespace, l[i].eventId) in p.hashes
      ensures p.hashes[EventKey(c.namespace, l[i].eventId)].amount == l[i].amount
    {
      PrefixHashesSound(c, log, r, m, sent, i);
    }
  }

  lemma {:induction false} LeaveAllSound(c: WindowConfig, calls: seq<Call>)
    requires c.window >= 0
    requires forall i :: 0 <= i < |calls| ==> calls[i].sent <= COMMANDS
    requires OneMeaning(Messages(calls))
    ensures Sound(c, Messages(calls), LeaveAll(c, calls))
    decreases |calls|
  {
    if calls == [] {
    } else {
      var before, last := calls[..|calls| - 1], calls[|calls| - 1];
      assert Messages(calls) == Messages(before) + [last.m];
      OneMeaningOfPrefix(Messages(before), last.m);
      LeaveAllSound(c, before);
      LeaveKeepsSound(c, Messages(before), LeaveAll(c, before), last);
    }
  }

  lemma OneMeaningOfPrefix(h: seq<Message>, m: Message)
    requires OneMeaning(h + [m])
    ensures OneMeaning(h)
  {
    assert forall i :: 0 <= i < |h| ==> (h + [m])[i] == h[i];
  }

  /** After any calls, complete or cut short, the amounts a complete call reads are among those the
      full log gives for the window. */
  lemma AmountsWithinLog(c: WindowConfig, calls: seq<Call>, m: Message)
    requires c.window >= 0 && !IsTooLate(c, m)
    requires forall i :: 0 <= i < |calls| ==> calls[i].sent <= COMMANDS
    requires OneMeaning(Messages(calls) + [m])
    ensures
      var r, l := Apply(LeaveAll(c, calls), c, m), Messages(calls) + [m];
      var amounts, full := ValidAmounts(r, c, InRange(r, c, m)), LoggedAmounts(l, FullIds(c, l, m));
      && amounts.Keys <= full.Keys
      && forall id :: id in amounts ==> amounts[id] == full[id]
  {
    var log, l := Messages(calls), Messages(calls) + [m];
    var r := Apply(LeaveAll(c, calls), c, m);
    OneMeaningOfPrefix(log, m);
    LeaveAllSound(c, calls);
    LeaveKeepsSound(c, log, LeaveAll(c, calls), Call(m, COMMANDS));
    forall id | id in InRange(r, c, m) && EventKey(c.namespace, id) in r.hashes
      ensures id in FullIds(c, l, m) && r.hashes[EventKey(c.namespace, id)].amount == LoggedAmount(l, id)
    {
      var score := Members(r, UserEventsKey(c.namespace, m.userId))[id];
      assert InLog(c, l, m.userId, id, score);
      var i :| 0 <= i < |l| && Touches(c, l[i], m.userId) && l[i].eventId == id && Score(l[i]) == score;
      LoggedAmountIs(l, i);
      assert InWindow(c, m, l[i]);
    }
  }
}
