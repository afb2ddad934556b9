/** The rule engine: stateless rules in class-name order, two window rules, a capped score. */
module RuleEngine {
  import opened Domain
  import opened RedisWindow

  datatype RuleCode =
    | AmountThreshold
    | NightTimeTransaction
    | SuspiciousLocation
    | RapidTransactionCount
    | WindowAmountSum
    | HighAmount
    | Velocity
    | NewDevice
    | LocationChange

  /** The injected stateless rule beans. */
  datatype Rule = AmountThresholdRule | NightTimeTransactionRule | SuspiciousLocationRule

  datatype RiskLevel = Low | Medium | High
  datatype Decision = Approve | Review | Block

  datatype RuleEvaluation = RuleEvaluation(code: RuleCode, matched: bool, score: int, reason: string)

  /** The two limits, each with the plain text it has in a reason. */
  datatype EngineConfig = EngineConfig(
    maxEvents: int,
    maxEventsText: string,
    amountThreshold: real,
    amountThresholdText: string
  )

  datatype EngineResult = EngineResult(
    riskScore: int,
    riskLevel: RiskLevel,
    decision: Decision,
    matchedRules: seq<RuleCode>,
    skippedRules: seq<RuleCode>,
    degraded: bool,
    reason: string
  )

  const MAX_RISK_SCORE := 100
  const RAPID_TRANSACTION_COUNT_SCORE := 30
  const WINDOW_AMOUNT_SUM_SCORE := 40
  const NANOS_PER_HOUR := 3_600_000_000_000

  // ----- Stateless rules -----

  function LocalHour(m: Message): int { (m.eventTime + m.utcOffset) / NANOS_PER_HOUR % 24 }

  function EvaluateRule(rule: Rule, m: Message): RuleEvaluation {
    match rule
    case AmountThresholdRule =>
      if m.amount >= 1_000_000.0
      then RuleEvaluation(AmountThreshold, true, 50, "amount >= 1000000 KRW")
      else RuleEvaluation(AmountThreshold, false, 0, "amount below threshold")
    case NightTimeTransactionRule =>
      if 0 <= LocalHour(m) <= 5
      then RuleEvaluation(NightTimeTransaction, true, 20, "eventTime hour between 0 and 5")
      else RuleEvaluation(NightTimeTransaction, false, 0, "eventTime outside night window")
    case SuspiciousLocationRule =>
      if m.location.Some? && UpperCase(Trim(m.location.value)) in {"UNKNOWN", "FOREIGN", "HIGH_RISK"}
      then RuleEvaluation(SuspiciousLocation, true, 30, "location is UNKNOWN, FOREIGN, or HIGH_RISK")
      else RuleEvaluation(SuspiciousLocation, false, 0, "location is not suspicious")
  }

  /** Upper-casing of the ASCII letters. */
  function UpperCase(s: string): string {
    seq(|s|, i requires 0 <= i < |s| => if 'a' <= s[i] <= 'z' then s[i] - 'a' + 'A' else s[i])
  }

  // ----- Rule order -----

  /** The position of the rule's class name in alphabetical order. */
  function Rank(rule: Rule): nat {
    match rule
    case AmountThresholdRule => 0
    case NightTimeTransactionRule => 1
    case SuspiciousLocationRule => 2
  }

  function Insert(rule: Rule, sorted: seq<Rule>): seq<Rule> {
    if sorted == [] || Rank(rule) <= Rank(sorted[0]) then [rule] + sorted
    else [sorted[0]] + Insert(rule, sorted[1..])
  }

  function SortByName(rules: seq<Rule>): seq<Rule> {
    if rules == [] then [] else Insert(rules[0], SortByName(rules[1..]))
  }

  ghost predicate Ordered(rules: seq<Rule>) {
    forall i, j :: 0 <= i < j < |rules| ==> Rank(rules[i]) <= Rank(rules[j])
  }

  lemma {:induction false} InsertAdds(rule: Rule, sorted: seq<Rule>)
    ensures multiset(Insert(rule, sorted)) == multiset(sorted) + multiset{rule}
    decreases |sorted|
  {
    if sorted == [] || Rank(rule) <= Rank(sorted[0]) {
    } else {
      InsertAdds(rule, sorted[1..]);
      assert sorted == [sorted[0]] + sorted[1..];
    }
  }

  lemma {:induction false} InsertKeepsOrder(rule: Rule, sorted: seq<Rule>)
    requires Ordered(sorted)
    ensures Ordered(Insert(rule, sorted))
    ensures Insert(rule, sorted)[0] == rule || (sorted != [] && Insert(rule, sorted)[0] == sorted[0])
    decreases |sorted|
  {
    if sorted == [] || Rank(rule) <= Rank(sorted[0]) {
    } else {
      InsertKeepsOrder(rule, sorted[1..]);
    }
  }

  lemma {:induction false} SortSorts(rules: seq<Rule>, sorted: seq<Rule>)
    requires sorted == SortByName(rules)
    ensures Ordered(sorted) && multiset(sorted) == multiset(rules)
    decreases |rules|
  {
    if rules == [] {
    } else {
      var rest := SortByName(rules[1..]);
      SortSorts(rules[1..], rest);
      InsertKeepsOrder(rules[0], rest);
      InsertAdds(rules[0], rest);
      SameHead(rules);
    }
  }

  lemma SameHead<T>(s: seq<T>)
    requires s != []
    ensures multiset(s) == multiset(s[1..]) + multiset{s[0]}
  {
    assert s == [s[0]] + s[1..];
  }

  lemma {:induction false} OrderedIsUnique(a: seq<Rule>, b: seq<Rule>)
    requires Ordered(a) && Ordered(b) && multiset(a) == multiset(b)
    ensures a == b
    decreases |a|
  {
    SameLength(a, b);
    if a == [] {
    } else {
      FirstIsSmallest(a, b);
      FirstIsSmallest(b, a);
      SameTails(a, b);
      OrderedIsUnique(a[1..], b[1..]);
      SameFromTails(a, b);
    }
  }

  lemma FirstIsSmallest(a: seq<Rule>, b: seq<Rule>)
    requires Ordered(a) && multiset(a) == multiset(b) && a != [] && b != []
    ensures Rank(a[0]) <= Rank(b[0])
  {
    assert b[0] in multiset(b);
    var i :| 0 <= i < |a| && a[i] == b[0];
  }

  lemma SameLength<T>(a: seq<T>, b: seq<T>)
    requires multiset(a) == multiset(b)
    ensures |a| == |b|
  {
    assert |a| == |multiset(a)| && |b| == |multiset(b)|;
  }

  lemma SameTails<T>(a: seq<T>, b: seq<T>)
    requires multiset(a) == multiset(b) && a != [] && b != [] && a[0] == b[0]
    ensures multiset(a[1..]) == multiset(b[1..])
  {
    assert a == [a[0]] + a[1..] && b == [b[0]] + b[1..];
    assert multiset(a[1..]) == multiset(a) - multiset{a[0]};
    assert multiset(b[1..]) == multiset(b) - multiset{b[0]};
  }

  lemma SameFromTails<T>(a: seq<T>, b: seq<T>)
    requires a != [] && b != [] && a[0] == b[0] && a[1..] == b[1..]
    ensures a == b
  {
    assert a == [a[0]] + a[1..] && b == [b[0]] + b[1..];
  }

  // ----- Evaluation -----

  function EvaluateAll(rules: seq<Rule>, m: Message): seq<RuleEvaluation> {
    seq(|rules|, i requires 0 <= i < |rules| => EvaluateRule(rules[i], m))
  }

  /** The window rules; `None` is a call without a window. */
  function WindowEvaluations(c: EngineConfig, w: Option<WindowResult>): seq<RuleEvaluation> {
    if w.None? || w.value.Degraded() then []
    else
      var rapid := w.value.count >= c.maxEvents;
      var large := w.value.sum >= c.amountThreshold;
      [ RuleEvaluation(RapidTransactionCount, rapid, if rapid then RAPID_TRANSACTION_COUNT_SCORE else 0,
                       "transaction count in sliding window >= " + c.maxEventsText),
        RuleEvaluation(WindowAmountSum, large, if large then WINDOW_AMOUNT_SUM_SCORE else 0,
                       "amount sum in sliding window >= " + c.amountThresholdText) ]
  }

  function MatchedScore(es: seq<RuleEvaluation>): int {
    if es == [] then 0 else (if es[0].matched then es[0].score else 0) + MatchedScore(es[1..])
  }

  function MatchedCodes(es: seq<RuleEvaluation>): seq<RuleCode> {
    if es == [] then [] else (if es[0].matched then [es[0].code] else []) + MatchedCodes(es[1..])
  }

  function MatchedReasons(es: seq<RuleEvaluation>): seq<string> {
    if es == [] then [] else (if es[0].matched then [es[0].reason] else []) + MatchedReasons(es[1..])
  }

  function Join(parts: seq<string>, separator: string): string {
    if parts == [] then ""
    else if |parts| == 1 then parts[0]
    else parts[0] + separator + Join(parts[1..], separator)
  }

  function Reason(es: seq<RuleEvaluation>, w: Option<WindowResult>): string {
    var reasons := MatchedReasons(es);
    var matched := if reasons == [] then "No fraud rule matched" else Join(reasons, "; ");
    match w
    case None => matched
    case Some(Normal(_, _)) => matched
    case Some(RedisUnavailable) => matched + "; Redis unavailable: Redis sliding window unavailable"
    case Some(TooLate) =>
      matched + "; Freshness policy skip: Event exceeded allowed lateness; Redis sliding window skipped"
  }

  function LevelOf(score: int): RiskLevel {
    if score <= 29 then Low else if score <= 69 then Medium else High
  }

  function DecisionOf(level: RiskLevel): Decision {
    match level case Low => Approve case Medium => Review case High => Block
  }

  function Evaluate(c: EngineConfig, injected: seq<Rule>, m: Message, w: Option<WindowResult>): EngineResult {
    var es := EvaluateAll(SortByName(injected), m) + WindowEvaluations(c, w);
    var total := MatchedScore(es);
    var score := if total < MAX_RISK_SCORE then total else MAX_RISK_SCORE;
    var degraded := w.Some? && w.value.Degraded();
    EngineResult(score, LevelOf(score), DecisionOf(LevelOf(score)), MatchedCodes(es),
                 if degraded then [RapidTransactionCount, WindowAmountSum] else [],
                 degraded, Reason(es, w))
  }

  // ----- Properties -----

  /** The order in which the rule beans are injected does not show in any field of the result. */
  lemma RuleOrderIsIrrelevant(c: EngineConfig, r1: seq<Rule>, r2: seq<Rule>, m: Message, w: Option<WindowResult>)
    requires multiset(r1) == multiset(r2)
    ensures Evaluate(c, r1, m, w) == Evaluate(c, r2, m, w)
  {
    SortSorts(r1, SortByName(r1));
    SortSorts(r2, SortByName(r2));
    OrderedIsUnique(SortByName(r1), SortByName(r2));
  }

  lemma {:induction false} MatchedScoreAppend(a: seq<RuleEvaluation>, b: seq<RuleEvaluation>)
    ensures MatchedScore(a + b) == MatchedScore(a) + MatchedScore(b)
    decreases |a|
  {
    if a == [] {
      assert a + b == b;
    } else {
      assert (a + b)[1..] == a[1..] + b;
      MatchedScoreAppend(a[1..], b);
    }
  }

  lemma {:induction false} RuleScoresNonNegative(rules: seq<Rule>, m: Message)
    ensures MatchedScore(EvaluateAll(rules, m)) >= 0
    decreases |rules|
  {
    if rules == [] {
    } else {
      assert EvaluateAll(rules, m)[1..] == EvaluateAll(rules[1..], m);
      RuleScoresNonNegative(rules[1..], m);
    }
  }

  /** What the window adds to the uncapped score. */
  function WindowScore(c: EngineConfig, w: Option<WindowResult>): (s: int)
    ensures 0 <= s <= 70
  {
    if w.None? || w.value.Degraded() then 0
    else (if w.value.count >= c.maxEvents then 30 else 0) + (if w.value.sum >= c.amountThreshold then 40 else 0)
  }

  lemma PairScore(a: RuleEvaluation, b: RuleEvaluation)
    ensures MatchedScore([a, b]) == (if a.matched then a.score else 0) + (if b.matched then b.score else 0)
  {
    assert [a, b][1..] == [b];
    assert MatchedScore([b]) == if b.matched then b.score else 0;
  }

  lemma UncappedScore(c: EngineConfig, injected: seq<Rule>, m: Message, w: Option<WindowResult>)
    ensures
      var rules := MatchedScore(EvaluateAll(SortByName(injected), m));
      && rules >= 0
      && Evaluate(c, injected, m, w).riskScore ==
           if rules + WindowScore(c, w) < 100 then rules + WindowScore(c, w) else 100
  {
    var es := WindowEvaluations(c, w);
    MatchedScoreAppend(EvaluateAll(SortByName(injected), m), es);
    RuleScoresNonNegative(SortByName(injected), m);
    if es != [] {
      PairScore(es[0], es[1]);
      assert es == [es[0], es[1]];
    }
  }

  /** The stored score always satisfies the table's range check. */
  lemma ScoreWithinRange(c: EngineConfig, injected: seq<Rule>, m: Message, w: Option<WindowResult>)
    ensures 0 <= Evaluate(c, injected, m, w).riskScore <= 100
  {
    UncappedScore(c, injected, m, w);
  }

  function Severity(d: Decision): nat {
    match d case Approve => 0 case Review => 1 case Block => 2
  }

  /** `a` holds no more than `b`: a degraded window is below every window. */
  predicate WindowAtMost(a: WindowResult, b: WindowResult) {
    a.Degraded() || (b.Normal? && a.count <= b.count && a.sum <= b.sum)
  }

  /** The stored level and decision are those of the stored score. */
  lemma LevelFollowsScore(c: EngineConfig, injected: seq<Rule>, m: Message, w: Option<WindowResult>)
    ensures
      var r := Evaluate(c, injected, m, w);
      && (r.riskLevel == Low <==> r.riskScore < 30) && (r.riskLevel == High <==> r.riskScore >= 70)
      && (r.decision == Approve <==> r.riskScore < 30) && (r.decision == Block <==> r.riskScore >= 70)
  {
  }

  lemma WindowScoreMonotone(c: EngineConfig, a: WindowResult, b: WindowResult)
    requires WindowAtMost(a, b)
    ensures WindowScore(c, Some(a)) <= WindowScore(c, Some(b))
  {
  }

  /** Score and decision are monotone in the window. */
  lemma MonotoneInWindow(c: EngineConfig, injected: seq<Rule>, m: Message, a: WindowResult, b: WindowResult)
    requires WindowAtMost(a, b)
    ensures
      var ra, rb := Evaluate(c, injected, m, Some(a)), Evaluate(c, injected, m, Some(b));
      ra.riskScore <= rb.riskScore && Severity(ra.decision) <= Severity(rb.decision)
  {
    UncappedScore(c, injected, m, Some(a));
    UncappedScore(c, injected, m, Some(b));
    WindowScoreMonotone(c, a, b);
    LevelFollowsScore(c, injected, m, Some(a));
    LevelFollowsScore(c, injected, m, Some(b));
  }

  // ----- What the matched rules explain -----

  /** The published weight of a rule. */
  function Weight(code: RuleCode): nat {
    match code
    case AmountThreshold => 50
    case NightTimeTransaction => 20
    case SuspiciousLocation => 30
    case RapidTransactionCount => 30
    case WindowAmountSum => 40
    case _ => 0
  }

  function WeightSum(codes: seq<RuleCode>): nat { if codes == [] then 0 else Weight(codes[0]) + WeightSum(codes[1..]) }

  predicate WellScored(es: seq<RuleEvaluation>) {
    forall i :: 0 <= i < |es| && es[i].matched ==> es[i].score == Weight(es[i].code)
  }

  lemma {:induction false} MatchedWeights(es: seq<RuleEvaluation>)
    requires WellScored(es)
    ensures MatchedScore(es) == WeightSum(MatchedCodes(es))
    decreases |es|
  {
    if es == [] {
    } else {
      MatchedWeights(es[1..]);
      if es[0].matched {
        assert MatchedCodes(es)[1..] == MatchedCodes(es[1..]);
      } else {
        assert MatchedCodes(es) == MatchedCodes(es[1..]);
      }
    }
  }

  // ----- What the reason and the list say -----

  /** The published text of a rule. */
  function Text(c: EngineConfig, code: RuleCode): string {
    match code
    case AmountThreshold => "amount >= 1000000 KRW"
    case NightTimeTransaction => "eventTime hour between 0 and 5"
    case SuspiciousLocation => "location is UNKNOWN, FOREIGN, or HIGH_RISK"
    case RapidTransactionCount => "transaction count in sliding window >= " + c.maxEventsText
    case WindowAmountSum => "amount sum in sliding window >= " + c.amountThresholdText
    case _ => ""
  }

  function Texts(c: EngineConfig, codes: seq<RuleCode>): seq<string> {
    if codes == [] then [] else [Text(c, codes[0])] + Texts(c, codes[1..])
  }

  predicate WellWorded(c: EngineConfig, es: seq<RuleEvaluation>) {
    forall i :: 0 <= i < |es| && es[i].matched ==> es[i].reason == Text(c, es[i].code)
  }

  lemma {:induction false} MatchedTexts(c: EngineConfig, es: seq<RuleEvaluation>)
    requires WellWorded(c, es)
    ensures MatchedReasons(es) == Texts(c, MatchedCodes(es))
    decreases |es|
  {
    if es == [] {
    } else {
      MatchedTexts(c, es[1..]);
      if es[0].matched {
        assert MatchedCodes(es)[1..] == MatchedCodes(es[1..]);
      } else {
        assert MatchedCodes(es) == MatchedCodes(es[1..]);
      }
    }
  }

  lemma RulesWorded(c: EngineConfig, rules: seq<Rule>, m: Message)
    ensures WellWorded(c, EvaluateAll(rules, m))
  {
    forall i | 0 <= i < |rules| && EvaluateRule(rules[i], m).matched
      ensures EvaluateRule(rules[i], m).reason == Text(c, EvaluateRule(rules[i], m).code)
    {
    }
  }

  lemma WindowWorded(c: EngineConfig, w: Option<WindowResult>)
    ensures WellWorded(c, WindowEvaluations(c, w))
  {
  }

  lemma WordedConcat(c: EngineConfig, a: seq<RuleEvaluation>, b: seq<RuleEvaluation>)
    requires WellWorded(c, a) && WellWorded(c, b)
    ensures WellWorded(c, a + b)
  {
  }

  /** What a reason adds about the window. */
  function Remark(w: Option<WindowResult>): string {
    if w.Some? && w.value.RedisUnavailable? then "; Redis unavailable: Redis sliding window unavailable"
    else if w.Some? && w.value.TooLate?
    then "; Freshness policy skip: Event exceeded allowed lateness; Redis sliding window skipped"
    else ""
  }

  function ListText(texts: seq<string>): string {
    if texts == [] then "No fraud rule matched" else Join(texts, "; ")
  }

  lemma AddNothing<T>(s: seq<T>)
    ensures s + [] == s
  {
  }

  lemma ReasonParts(es: seq<RuleEvaluation>, w: Option<WindowResult>)
    ensures Reason(es, w) == ListText(MatchedReasons(es)) + Remark(w)
  {
    if w.None? || w.value.Normal? { AddNothing(ListText(MatchedReasons(es))); }
  }

  /** The stored reason explains the stored list: the texts of the matched rules in their order, and after
      them what was wrong with the window, if anything. */
  lemma ReasonIsExplained(c: EngineConfig, injected: seq<Rule>, m: Message, w: Option<WindowResult>)
    ensures
      var r := Evaluate(c, injected, m, w);
      r.reason == ListText(Texts(c, r.matchedRules)) + Remark(w)
  {
    var es := EvaluateAll(SortByName(injected), m) + WindowEvaluations(c, w);
    RulesWorded(c, SortByName(injected), m);
    WindowWorded(c, w);
    WordedConcat(c, EvaluateAll(SortByName(injected), m), WindowEvaluations(c, w));
    MatchedTexts(c, es);
    ReasonParts(es, w);
  }

  function Place(code: RuleCode): nat {
    match code
    case AmountThreshold => 0
    case NightTimeTransaction => 1
    case SuspiciousLocation => 2
    case RapidTransactionCount => 3
    case WindowAmountSum => 4
    case _ => 5
  }

  predicate InPlace(codes: seq<RuleCode>) {
    forall i, j :: 0 <= i < j < |codes| ==> Place(codes[i]) <= Place(codes[j])
  }

  predicate EvaluatedInPlace(es: seq<RuleEvaluation>) {
    forall i, j :: 0 <= i < j < |es| ==> Place(es[i].code) <= Place(es[j].code)
  }

  lemma {:induction false} CodesInPlace(es: seq<RuleEvaluation>)
    requires EvaluatedInPlace(es)
    ensures InPlace(MatchedCodes(es))
    decreases |es|
  {
    if es == [] {
    } else {
      var rest := MatchedCodes(es[1..]);
      CodesInPlace(es[1..]);
      forall k | 0 <= k < |rest| ensures Place(es[0].code) <= Place(rest[k]) {
        CodesMatch(es[1..], rest[k]);
        var i :| 0 <= i < |es[1..]| && es[1..][i].matched && es[1..][i].code == rest[k];
        assert es[i + 1].code == rest[k];
      }
    }
  }

  lemma EvaluationsInPlace(c: EngineConfig, rules: seq<Rule>, m: Message, w: Option<WindowResult>)
    requires Ordered(rules)
    ensures EvaluatedInPlace(EvaluateAll(rules, m) + WindowEvaluations(c, w))
  {
    var stateless, window := EvaluateAll(rules, m), WindowEvaluations(c, w);
    forall i | 0 <= i < |rules| ensures Place(stateless[i].code) == Rank(rules[i]) {}
    assert forall i :: 0 <= i < |window| ==> Place(window[i].code) == 3 + i;
  }

  /** The matched rules are listed in class-name order, the two window rules last. */
  lemma MatchedInOrder(c: EngineConfig, injected: seq<Rule>, m: Message, w: Option<WindowResult>)
    ensures InPlace(Evaluate(c, injected, m, w).matchedRules)
  {
    SortSorts(injected, SortByName(injected));
    EvaluationsInPlace(c, SortByName(injected), m, w);
    CodesInPlace(EvaluateAll(SortByName(injected), m) + WindowEvaluations(c, w));
  }

  lemma AllWellScored(c: EngineConfig, rules: seq<Rule>, m: Message, w: Option<WindowResult>)
    ensures WellScored(EvaluateAll(rules, m) + WindowEvaluations(c, w))
  {
  }

  /** The score is the weight of the matched rules, capped at 100: the stored list explains the stored score. */
  lemma ScoreIsExplained(c: EngineConfig, injected: seq<Rule>, m: Message, w: Option<WindowResult>)
    ensures
      var r := Evaluate(c, injected, m, w);
      r.riskScore == if WeightSum(r.matchedRules) < 100 then WeightSum(r.matchedRules) else 100
  {
    AllWellScored(c, SortByName(injected), m, w);
    MatchedWeights(EvaluateAll(SortByName(injected), m) + WindowEvaluations(c, w));
  }

  /** Where day `d` of the local calendar begins. */
  function Midnight(d: int): int { d * 86_400_000_000_000 }

  /** By the event's own clock it is before six in the morning. */
  ghost predicate AtNight(m: Message) {
    exists d :: Midnight(d) <= m.eventTime + m.utcOffset < Midnight(d) + 21_600_000_000_000
  }

  /** The hour of the day is that of the time since midnight. */
  lemma HourSinceMidnight(local: int, d: int, rest: int)
    requires local == Midnight(d) + rest && 0 <= rest < 86_400_000_000_000
    ensures local / NANOS_PER_HOUR % 24 == rest / NANOS_PER_HOUR
  {
    var hours := rest / NANOS_PER_HOUR;
    Quotient(local, 24 * d + hours, rest % NANOS_PER_HOUR);
    assert (24 * d + hours) % 24 == hours;
  }

  lemma Quotient(n: int, q: int, r: int)
    requires n == NANOS_PER_HOUR * q + r && 0 <= r < NANOS_PER_HOUR
    ensures n / NANOS_PER_HOUR == q
  {
  }

  lemma EarlyHours(rest: int)
    requires 0 <= rest
    ensures rest / NANOS_PER_HOUR <= 5 <==> rest < 21_600_000_000_000
  {
  }

  lemma NightIff(m: Message)
    ensures 0 <= LocalHour(m) <= 5 <==> AtNight(m)
  {
    var local := m.eventTime + m.utcOffset;
    var day := local / 86_400_000_000_000;
    HourSinceMidnight(local, day, local - Midnight(day));
    EarlyHours(local - Midnight(day));
    if AtNight(m) {
      var d :| Midnight(d) <= local < Midnight(d) + 21_600_000_000_000;
      HourSinceMidnight(local, d, local - Midnight(d));
      EarlyHours(local - Midnight(d));
    }
  }

  predicate SameIgnoringCase(s: string, word: string) {
    |s| == |word| &&
    forall i :: 0 <= i < |s| ==> s[i] == word[i] || ('a' <= s[i] <= 'z' && s[i] - 'a' + 'A' == word[i])
  }

  predicate SaysAt(text: string, word: string, i: nat, j: nat) {
    i <= j <= |text| && Padding(text[..i]) && Padding(text[j..]) && SameIgnoringCase(text[i..j], word)
  }

  /** The text is the word in any case, with nothing but blanks and control characters around it. */
  ghost predicate Says(text: string, word: string) {
    exists i: nat, j: nat :: SaysAt(text, word, i, j)
  }

  lemma UpperCaseIff(s: string, word: string)
    requires forall i :: 0 <= i < |word| ==> !('a' <= word[i] <= 'z')
    ensures UpperCase(s) == word <==> SameIgnoringCase(s, word)
  {
    if SameIgnoringCase(s, word) {
      forall i | 0 <= i < |s| ensures UpperCase(s)[i] == word[i] {}
    }
    if UpperCase(s) == word {
      forall i | 0 <= i < |s| ensures s[i] == word[i] || ('a' <= s[i] <= 'z' && s[i] - 'a' + 'A' == word[i]) {
        assert UpperCase(s)[i] == word[i];
      }
    }
  }

  predicate PlainWord(word: string) {
    word != "" && forall i :: 0 <= i < |word| ==> word[i] > ' ' && !('a' <= word[i] <= 'z')
  }

  lemma SaidIsTrimmed(text: string, word: string, i: nat, j: nat)
    requires PlainWord(word) && SaysAt(text, word, i, j)
    ensures UpperCase(Trim(text)) == word
  {
    var core := text[i..j];
    assert core[0] == text[i] && core[|core| - 1] == text[j - 1];
    SliceIsTrim(text, i, j);
    UpperCaseIff(core, word);
  }

  lemma SaysIff(text: string, word: string)
    requires PlainWord(word)
    ensures UpperCase(Trim(text)) == word <==> Says(text, word)
  {
    if Says(text, word) {
      var i: nat, j: nat :| SaysAt(text, word, i, j);
      SaidIsTrimmed(text, word, i, j);
    }
    if UpperCase(Trim(text)) == word {
      var i, j := TrimIsSlice(text);
      UpperCaseIff(text[i..j], word);
      assert SaysAt(text, word, i, j);
    }
  }

  /** What the message must be for a stateless rule. */
  ghost predicate Meets(rule: Rule, m: Message) {
    match rule
    case AmountThresholdRule => m.amount >= 1_000_000.0
    case NightTimeTransactionRule => AtNight(m)
    case SuspiciousLocationRule =>
      m.location.Some? &&
      (Says(m.location.value, "UNKNOWN") || Says(m.location.value, "FOREIGN") || Says(m.location.value, "HIGH_RISK"))
  }

  lemma MeetsIff(rule: Rule, m: Message)
    ensures EvaluateRule(rule, m).matched <==> Meets(rule, m)
  {
    NightIff(m);
    if m.location.Some? { SuspiciousIff(m.location.value); }
  }

  lemma SuspiciousIff(location: string)
    ensures UpperCase(Trim(location)) in {"UNKNOWN", "FOREIGN", "HIGH_RISK"} <==>
      Says(location, "UNKNOWN") || Says(location, "FOREIGN") || Says(location, "HIGH_RISK")
  {
    SaysIff(location, "UNKNOWN");
    SaysIff(location, "FOREIGN");
    SaysIff(location, "HIGH_RISK");
  }

  /** When a rule should match, rule by rule. */
  ghost predicate Fires(c: EngineConfig, injected: seq<Rule>, m: Message, w: Option<WindowResult>, code: RuleCode) {
    match code
    case AmountThreshold => AmountThresholdRule in injected && Meets(AmountThresholdRule, m)
    case NightTimeTransaction => NightTimeTransactionRule in injected && Meets(NightTimeTransactionRule, m)
    case SuspiciousLocation => SuspiciousLocationRule in injected && Meets(SuspiciousLocationRule, m)
    case RapidTransactionCount => w.Some? && w.value.Normal? && w.value.count >= c.maxEvents
    case WindowAmountSum => w.Some? && w.value.Normal? && w.value.sum >= c.amountThreshold
    case _ => false
  }

  predicate MatchesCode(es: seq<RuleEvaluation>, code: RuleCode) {
    exists i :: 0 <= i < |es| && es[i].matched && es[i].code == code
  }

  lemma {:induction false} CodesMatch(es: seq<RuleEvaluation>, code: RuleCode)
    ensures code in MatchedCodes(es) <==> MatchesCode(es, code)
    decreases |es|
  {
    if es == [] {
    } else {
      var rest := es[1..];
      CodesMatch(rest, code);
      if MatchesCode(rest, code) {
        var i :| 0 <= i < |rest| && rest[i].matched && rest[i].code == code;
        assert es[i + 1] == rest[i];
      }
      if MatchesCode(es, code) && !(es[0].matched && es[0].code == code) {
        var i :| 0 <= i < |es| && es[i].matched && es[i].code == code;
        assert rest[i - 1] == es[i];
      }
    }
  }

  lemma SortKeepsMembers(rules: seq<Rule>, rule: Rule)
    ensures rule in SortByName(rules) <==> rule in rules
  {
    SortSorts(rules, SortByName(rules));
    assert rule in multiset(SortByName(rules)) <==> rule in multiset(rules);
  }

  function RuleOf(code: RuleCode): Option<Rule> {
    match code
    case AmountThreshold => Some(AmountThresholdRule)
    case NightTimeTransaction => Some(NightTimeTransactionRule)
    case SuspiciousLocation => Some(SuspiciousLocationRule)
    case _ => None
  }

  lemma StatelessMatch(rules: seq<Rule>, m: Message, code: RuleCode)
    ensures MatchesCode(EvaluateAll(rules, m), code) <==>
      RuleOf(code).Some? && RuleOf(code).value in rules && EvaluateRule(RuleOf(code).value, m).matched
  {
    var es := EvaluateAll(rules, m);
    if RuleOf(code).Some? && RuleOf(code).value in rules && EvaluateRule(RuleOf(code).value, m).matched {
      var i :| 0 <= i < |rules| && rules[i] == RuleOf(code).value;
      assert es[i].matched && es[i].code == code;
    }
    if MatchesCode(es, code) {
      var i :| 0 <= i < |es| && es[i].matched && es[i].code == code;
      assert RuleOf(code) == Some(rules[i]);
    }
  }

  lemma WindowMatch(c: EngineConfig, w: Option<WindowResult>, code: RuleCode)
    ensures MatchesCode(WindowEvaluations(c, w), code) <==>
      && w.Some? && w.value.Normal?
      && ((code == RapidTransactionCount && w.value.count >= c.maxEvents) ||
          (code == WindowAmountSum && w.value.sum >= c.amountThreshold))
  {
    var es := WindowEvaluations(c, w);
    if w.Some? && w.value.Normal? {
      assert es[0].code == RapidTransactionCount && es[1].code == WindowAmountSum;
    }
  }

  lemma MatchesConcat(a: seq<RuleEvaluation>, b: seq<RuleEvaluation>, code: RuleCode)
    ensures MatchesCode(a + b, code) <==> MatchesCode(a, code) || MatchesCode(b, code)
  {
    var es := a + b;
    if MatchesCode(a, code) {
      var i :| 0 <= i < |a| && a[i].matched && a[i].code == code;
      assert es[i] == a[i];
    }
    if MatchesCode(b, code) {
      var i :| 0 <= i < |b| && b[i].matched && b[i].code == code;
      assert es[|a| + i] == b[i];
    }
  }

  lemma ListedIff(c: EngineConfig, injected: seq<Rule>, m: Message, w: Option<WindowResult>, code: RuleCode)
    ensures code in Evaluate(c, injected, m, w).matchedRules <==>
      MatchesCode(EvaluateAll(SortByName(injected), m), code) || MatchesCode(WindowEvaluations(c, w), code)
  {
    var es := EvaluateAll(SortByName(injected), m);
    CodesMatch(es + WindowEvaluations(c, w), code);
    MatchesConcat(es, WindowEvaluations(c, w), code);
  }

  /** A rule is listed as matched exactly when it should be. */
  lemma MatchedIff(c: EngineConfig, injected: seq<Rule>, m: Message, w: Option<WindowResult>, code: RuleCode)
    ensures code in Evaluate(c, injected, m, w).matchedRules <==> Fires(c, injected, m, w, code)
  {
    ListedIff(c, injected, m, w, code);
    StatelessMatch(SortByName(injected), m, code);
    WindowMatch(c, w, code);
    if RuleOf(code).Some? {
      SortKeepsMembers(injected, RuleOf(code).value);
      MeetsIff(RuleOf(code).value, m);
    }
  }

  /** Only the event's own clock counts: moving the instant back and the offset forward by as much changes
      nothing in the result. */
  lemma LocalClockDecides(c: EngineConfig, injected: seq<Rule>, m: Message, w: Option<WindowResult>, x: int)
    ensures Evaluate(c, injected, m.(eventTime := m.eventTime - x, utcOffset := m.utcOffset + x), w) == Evaluate(c, injected, m, w)
  {
    var n := m.(eventTime := m.eventTime - x, utcOffset := m.utcOffset + x);
    var rules := SortByName(injected);
    forall i | 0 <= i < |rules| ensures EvaluateRule(rules[i], n) == EvaluateRule(rules[i], m) {
      assert LocalHour(n) == LocalHour(m);
    }
    assert EvaluateAll(rules, n) == EvaluateAll(rules, m);
  }

  /** A degraded window lists the two window rules as skipped and never as matched; any other lists none. */
  lemma SkippedIff(c: EngineConfig, injected: seq<Rule>, m: Message, w: Option<WindowResult>, code: RuleCode)
    ensures
      var r := Evaluate(c, injected, m, w);
      && (r.degraded <==> w.Some? && !w.value.Normal?)
      && (code in r.skippedRules <==> r.degraded && (code == RapidTransactionCount || code == WindowAmountSum))
      && (code in r.skippedRules ==> code !in r.matchedRules)
  {
    MatchedIff(c, injected, m, w, code);
  }
}
