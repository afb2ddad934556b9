/** Losing window members can only make the engine milder: the stored or degraded window never
    flags more than the user's full event log would. */
module NeverOverFlags {
  import opened Domain
  import opened RedisWindow
  import opened WindowHistory
  import opened PartialFailure
  import opened RuleEngine

  lemma {:induction false} TotalMonotone(a: map<string, real>, b: map<string, real>)
    requires a.Keys <= b.Keys
    requires forall id :: id in b ==> b[id] >= 0.0
    requires forall id :: id in a ==> a[id] == b[id]
    ensures 0.0 <= Total(a) <= Total(b)
    decreases |b|
  {
    if b == map[] {
      assert a == b;
    } else {
      var id :| id in b;
      TotalPick(b, id);
      if id in a {
        TotalPick(a, id);
      } else {
        assert a - {id} == a;
      }
      TotalMonotone(a - {id}, b - {id});
    }
  }

  lemma SmallerMap<K, V>(a: map<K, V>, b: set<K>)
    requires a.Keys <= b
    ensures |a| <= |b|
  {
    assert |a| == |a.Keys|;
    assert b == a.Keys + (b - a.Keys);
  }

  lemma ReadWithinFullLog(c: WindowConfig, calls: seq<Call>, m: Message)
    requires c.window >= 0 && !IsTooLate(c, m)
    requires forall i :: 0 <= i < |calls| ==> calls[i].sent <= COMMANDS
    requires OneMeaning(Messages(calls) + [m])
    requires m.amount > 0.0 && forall i :: 0 <= i < |calls| ==> calls[i].m.amount > 0.0
    ensures
      var l := Messages(calls) + [m];
      WindowAtMost(Answer(LeaveAll(c, calls), c, m), LogAnswer(l, FullIds(c, l, m)))
  {
    var l := Messages(calls) + [m];
    var full := FullIds(c, l, m);
    var r := Apply(LeaveAll(c, calls), c, m);
    var amounts := ValidAmounts(r, c, InRange(r, c, m));
    AmountsWithinLog(c, calls, m);
    forall id | id in full ensures LoggedAmount(l, id) >= 0.0 {
      var i :| 0 <= i < |l| && l[i].eventId == id;
      LoggedAmountIs(l, i);
    }
    SmallerMap(amounts, full);
    TotalMonotone(amounts, LoggedAmounts(l, full));
  }

  /** Whatever Redis answered for `m` after any calls, complete or cut short by a failure — its
      pruned window, a freshness skip or an outage — score and decision stay at or below those that
      the user's full event log would give. */
  lemma NeverMoreThanFullLog(
    c: WindowConfig, ec: EngineConfig, injected: seq<Rule>, calls: seq<Call>, m: Message, w: WindowResult)
    requires c.window >= 0
    requires forall i :: 0 <= i < |calls| ==> calls[i].sent <= COMMANDS
    requires OneMeaning(Messages(calls) + [m])
    requires m.amount > 0.0 && forall i :: 0 <= i < |calls| ==> calls[i].m.amount > 0.0
    requires w == Answer(LeaveAll(c, calls), c, m) || w == RedisUnavailable
    ensures
      var l := Messages(calls) + [m];
      var stored := Evaluate(ec, injected, m, Some(w));
      var ideal := Evaluate(ec, injected, m, Some(LogAnswer(l, FullIds(c, l, m))));
      stored.riskScore <= ideal.riskScore && Severity(stored.decision) <= Severity(ideal.decision)
  {
    var l := Messages(calls) + [m];
    var full := FullIds(c, l, m);
    if !w.Degraded() {
      ReadWithinFullLog(c, calls, m);
    }
    MonotoneInWindow(ec, injected, m, w, LogAnswer(l, full));
  }
}
