/** Evaluation of replayed detections against the fraud labels: the counting loop, what its counters
    mean as sets of events, and how the two threshold policies compare. */
module Evaluator {
  import opened Counting
  import opened Domain

  datatype Level = Low | Medium | High | Critical

  function Rank(level: Level): nat {
    match level case Low => 0 case Medium => 1 case High => 2 case Critical => 3
  }

  datatype Decision = Allow | Review | Block

  datatype Label = Label(isFraud: bool)

  datatype Detection = Detection(level: Level, score: Option<real>, ruleVersion: Option<string>)

  datatype Policy = Policy(medium: real, high: real, fallback: Level, review: set<Level>, block: set<Level>)

  const THRESHOLD_V1 := Policy(50.0, 80.0, Medium, {Medium, High, Critical}, {High, Critical})
  const THRESHOLD_STRICT := Policy(70.0, 90.0, High, {High, Critical}, {Critical})

  predicate IsPredictedPositive(d: Detection, policy: Policy) {
    if d.score.Some? then d.score.value >= policy.medium else Rank(d.level) >= Rank(policy.fallback)
  }

  function ActionDecisionFor(d: Detection, policy: Policy): Decision {
    if d.score.Some? then
      if d.score.value >= policy.high then Block
      else if d.score.value >= policy.medium then Review
      else Allow
    else if d.level in policy.block then Block
    else if d.level in policy.review then Review
    else Allow
  }

  // ----- What is counted -----

  /** Everything one evaluation reads. */
  datatype Input<!Id(==)> = Input(
    labels: map<Id, Label>, results: map<Id, Detection>, rejected: set<Id>, policy: Policy, includeMissing: bool)
  {
    predicate Judged(id: Id) { id in labels && id !in rejected && id in results }
    predicate Absent(id: Id) { id in labels && id !in rejected && id !in results }
    predicate Counts(id: Id) { Judged(id) || (includeMissing && Absent(id)) }
    predicate Positive(id: Id) { Judged(id) && IsPredictedPositive(results[id], policy) }
    predicate Decided(id: Id, decision: Decision) { Judged(id) && ActionDecisionFor(results[id], policy) == decision }

    /** When a label counts as `what`. */
    predicate Holds(what: Counted, id: Id) {
      match what
      case Fraud => id in labels && labels[id].isFraud
      case NonFraud => id in labels && !labels[id].isFraud
      case Excluded => id in labels && id in rejected
      case Missing => Absent(id)
      case MissingFraud => Absent(id) && labels[id].isFraud
      case MissingNonFraud => Absent(id) && !labels[id].isFraud
      case Evaluated => Counts(id)
      case TruePositive => Positive(id) && labels[id].isFraud
      case FalsePositive => Positive(id) && !labels[id].isFraud
      case FalseNegative => Counts(id) && !Positive(id) && labels[id].isFraud
      case TrueNegative => Counts(id) && !Positive(id) && !labels[id].isFraud
      case Reviewed => Decided(id, Review) || Decided(id, Block)
      case Blocked => Decided(id, Block)
      case Scored => Judged(id) && results[id].score.Some?
      case Unscored => Judged(id) && results[id].score.None?
      case Versioned => Judged(id) && results[id].ruleVersion.Some?
      case Unversioned => Judged(id) && results[id].ruleVersion.None?
      case AtLevel(level) => Judged(id) && results[id].level == level
      case FraudAt(level) => Judged(id) && results[id].level == level && labels[id].isFraud
      case NonFraudAt(level) => Judged(id) && results[id].level == level && !labels[id].isFraud
    }
  }

  /** The counters of an evaluation. */
  datatype Counted =
    | Fraud | NonFraud | Excluded | Missing | MissingFraud | MissingNonFraud | Evaluated
    | TruePositive | FalsePositive | FalseNegative | TrueNegative
    | Reviewed | Blocked | Scored | Unscored | Versioned | Unversioned
    | AtLevel(level: Level) | FraudAt(level: Level) | NonFraudAt(level: Level)

  /** How many of the elements satisfy the condition. */
  function Size<T(==)>(ids: set<T>, p: T -> bool): nat { |set id | id in ids && p(id)| }

  lemma SizeInsert<T>(ids: set<T>, x: T, p: T -> bool)
    requires x !in ids
    ensures Size(ids + {x}, p) == Size(ids, p) + One(p(x))
  {
    var before, after := set id | id in ids && p(id), set id | id in ids + {x} && p(id);
    if p(x) { assert after == before + {x}; } else { assert after == before; }
  }

  lemma SizeEmpty<T>(p: T -> bool)
    ensures Size({}, p) == 0
  {
    var nothing: set<T> := {};
    assert (set id | id in nothing && p(id)) == {};
  }

  function Test<Id>(i: Input<Id>, what: Counted): Id -> bool { id => i.Holds(what, id) }

  /** How many of these labels count as `what`. */
  function Tally<Id>(i: Input<Id>, ids: set<Id>, what: Counted): nat { Size(ids, Test(i, what)) }

  /** How many of all labels count as `what`. */
  function Total<Id>(i: Input<Id>, what: Counted): nat { Tally(i, i.labels.Keys, what) }

  lemma OneMore<Id>(i: Input<Id>, ids: set<Id>, x: Id)
    requires x !in ids
    ensures forall what :: Tally(i, ids + {x}, what) == Tally(i, ids, what) + One(i.Holds(what, x))
  {
    forall what ensures Tally(i, ids + {x}, what) == Tally(i, ids, what) + One(i.Holds(what, x)) {
      SizeInsert(ids, x, Test(i, what));
    }
  }

  lemma NothingCounted<Id>(i: Input<Id>)
    ensures forall what :: Tally(i, {}, what) == 0
  {
    forall what ensures Tally(i, {}, what) == 0 { SizeEmpty(Test(i, what)); }
  }

  // ----- The loop -----

  class EvaluationStats {
    var totalLabels: nat
    var totalResults: nat
    var matchedResults: nat
    var unmatchedResults: nat
    var totalFraudLabels: nat
    var totalNonFraudLabels: nat
    var excludedReplayRejected: nat
    var missingResults: nat
    var missingFraudLabels: nat
    var missingNonFraudLabels: nat
    var evaluatedEvents: nat
    var evaluatedWithRiskScore: nat
    var evaluatedWithoutRiskScore: nat
    var evaluatedWithRuleVersion: nat
    var evaluatedWithoutRuleVersion: nat
    var reviewCandidateEvents: nat
    var blockedCandidateEvents: nat
    var truePositive: nat
    var falsePositive: nat
    var trueNegative: nat
    var falseNegative: nat
    var riskLevelCounts: map<Level, nat>
    var fraudByRiskLevel: map<Level, nat>
    var nonFraudByRiskLevel: map<Level, nat>

    /** The field that counts `what`. */
    function Counter(what: Counted): nat
      reads this
    {
      match what
      case Fraud => totalFraudLabels
      case NonFraud => totalNonFraudLabels
      case Excluded => excludedReplayRejected
      case Missing => missingResults
      case MissingFraud => missingFraudLabels
      case MissingNonFraud => missingNonFraudLabels
      case Evaluated => evaluatedEvents
      case TruePositive => truePositive
      case FalsePositive => falsePositive
      case FalseNegative => falseNegative
      case TrueNegative => trueNegative
      case Reviewed => reviewCandidateEvents
      case Blocked => blockedCandidateEvents
      case Scored => evaluatedWithRiskScore
      case Unscored => evaluatedWithoutRiskScore
      case Versioned => evaluatedWithRuleVersion
      case Unversioned => evaluatedWithoutRuleVersion
      case AtLevel(level) => CountOf(riskLevelCounts, level)
      case FraudAt(level) => CountOf(fraudByRiskLevel, level)
      case NonFraudAt(level) => CountOf(nonFraudByRiskLevel, level)
    }

    constructor (labels: nat, results: nat, matched: nat, unmatched: nat, fraud: nat, nonFraud: nat)
      ensures totalLabels == labels && totalResults == results && matchedResults == matched && unmatchedResults == unmatched
      ensures forall what ::
        Counter(what) == if what == Fraud then fraud else if what == NonFraud then nonFraud else 0
    {
      totalLabels, totalResults, matchedResults, unmatchedResults := labels, results, matched, unmatched;
      totalFraudLabels, totalNonFraudLabels := fraud, nonFraud;
      excludedReplayRejected, missingResults, missingFraudLabels, missingNonFraudLabels := 0, 0, 0, 0;
      evaluatedEvents, evaluatedWithRiskScore, evaluatedWithoutRiskScore := 0, 0, 0;
      evaluatedWithRuleVersion, evaluatedWithoutRuleVersion := 0, 0;
      reviewCandidateEvents, blockedCandidateEvents := 0, 0;
      truePositive, falsePositive, trueNegative, falseNegative := 0, 0, 0, 0;
      riskLevelCounts, fraudByRiskLevel, nonFraudByRiskLevel := map[], map[], map[];
    }

    /** A label whose event was rejected before the replay. */
    method CountExcluded<Id>(i: Input<Id>, eventId: Id)
      requires i.Holds(Excluded, eventId)
      modifies this
      ensures forall what :: !Upfront(what) ==> Counter(what) == old(Counter(what)) + One(i.Holds(what, eventId))
      ensures forall what :: Upfront(what) ==> Counter(what) == old(Counter(what))
      ensures unchanged(`totalLabels, `totalResults, `matchedResults, `unmatchedResults)
    {
      excludedReplayRejected := excludedReplayRejected + 1;
    }

    /** A label whose event was replayed but has no detection. */
    method CountMissing<Id>(i: Input<Id>, eventId: Id)
      requires i.Holds(Missing, eventId)
      modifies this
      ensures forall what :: !Upfront(what) ==> Counter(what) == old(Counter(what)) + One(i.Holds(what, eventId))
      ensures forall what :: Upfront(what) ==> Counter(what) == old(Counter(what))
      ensures unchanged(`totalLabels, `totalResults, `matchedResults, `unmatchedResults)
    {
      CountAbsence(i, eventId);
      if i.includeMissing { CountAsNegative(i, eventId); }
    }

    method CountAbsence<Id>(i: Input<Id>, eventId: Id)
      requires i.Holds(Missing, eventId)
      modifies this
      ensures forall what :: Counter(what) == old(Counter(what)) + One(OfAbsence(what) && i.Holds(what, eventId))
      ensures unchanged(`totalLabels, `totalResults, `matchedResults, `unmatchedResults)
    {
      missingResults := missingResults + 1;
      if i.labels[eventId].isFraud {
        missingFraudLabels := missingFraudLabels + 1;
      } else {
        missingNonFraudLabels := missingNonFraudLabels + 1;
      }
    }

    method CountAsNegative<Id>(i: Input<Id>, eventId: Id)
      requires i.Holds(Missing, eventId) && i.includeMissing
      modifies this
      ensures forall what ::
        Counter(what) == old(Counter(what)) + One(!OfAbsence(what) && !Upfront(what) && i.Holds(what, eventId))
      ensures unchanged(`totalLabels, `totalResults, `matchedResults, `unmatchedResults)
    {
      evaluatedEvents := evaluatedEvents + 1;
      if i.labels[eventId].isFraud {
        falseNegative := falseNegative + 1;
      } else {
        trueNegative := trueNegative + 1;
      }
    }

    /** A label whose event was judged by a detection. */
    method CountJudged<Id>(i: Input<Id>, eventId: Id)
      requires i.Judged(eventId)
      modifies this
      ensures forall what :: !Upfront(what) ==> Counter(what) == old(Counter(what)) + One(i.Holds(what, eventId))
      ensures forall what :: Upfront(what) ==> Counter(what) == old(Counter(what))
      ensures unchanged(`totalLabels, `totalResults, `matchedResults, `unmatchedResults)
    {
      CountDetection(i, eventId);
      CountLevel(i, eventId);
      CountLabelAtLevel(i, eventId);
      CountDecision(i, eventId);
      CountOutcome(i, eventId);
    }

    method CountDetection<Id>(i: Input<Id>, eventId: Id)
      requires i.Judged(eventId)
      modifies this
      ensures forall what :: Counter(what) == old(Counter(what)) + One(OfDetection(what) && i.Holds(what, eventId))
      ensures unchanged(`totalLabels, `totalResults, `matchedResults, `unmatchedResults)
    {
      var result := i.results[eventId];
      evaluatedEvents := evaluatedEvents + 1;
      if result.score.None? {
        evaluatedWithoutRiskScore := evaluatedWithoutRiskScore + 1;
      } else {
        evaluatedWithRiskScore := evaluatedWithRiskScore + 1;
      }
      if result.ruleVersion.None? {
        evaluatedWithoutRuleVersion := evaluatedWithoutRuleVersion + 1;
      } else {
        evaluatedWithRuleVersion := evaluatedWithRuleVersion + 1;
      }
    }

    method CountLevel<Id>(i: Input<Id>, eventId: Id)
      requires i.Judged(eventId)
      modifies this
      ensures forall what :: Counter(what) == old(Counter(what)) + One(OfLevel(what) && i.Holds(what, eventId))
      ensures unchanged(`totalLabels, `totalResults, `matchedResults, `unmatchedResults)
    {
      riskLevelCounts := Bump(riskLevelCounts, i.results[eventId].level);
    }

    method CountLabelAtLevel<Id>(i: Input<Id>, eventId: Id)
      requires i.Judged(eventId)
      modifies this
      ensures forall what :: Counter(what) == old(Counter(what)) + One(OfLabelAtLevel(what) && i.Holds(what, eventId))
      ensures unchanged(`totalLabels, `totalResults, `matchedResults, `unmatchedResults)
    {
      var level := i.results[eventId].level;
      if i.labels[eventId].isFraud {
        fraudByRiskLevel := Bump(fraudByRiskLevel, level);
      } else {
        nonFraudByRiskLevel := Bump(nonFraudByRiskLevel, level);
      }
    }

    method CountDecision<Id>(i: Input<Id>, eventId: Id)
      requires i.Judged(eventId)
      modifies this
      ensures forall what :: Counter(what) == old(Counter(what)) + One(OfDecision(what) && i.Holds(what, eventId))
      ensures unchanged(`totalLabels, `totalResults, `matchedResults, `unmatchedResults)
    {
      var decision := ActionDecisionFor(i.results[eventId], i.policy);
      if decision == Review || decision == Block {
        reviewCandidateEvents := reviewCandidateEvents + 1;
      }
      if decision == Block {
        blockedCandidateEvents := blockedCandidateEvents + 1;
      }
    }

    method CountOutcome<Id>(i: Input<Id>, eventId: Id)
      requires i.Judged(eventId)
      modifies this
      ensures forall what :: Counter(what) == old(Counter(what)) + One(OfOutcome(what) && i.Holds(what, eventId))
      ensures unchanged(`totalLabels, `totalResults, `matchedResults, `unmatchedResults)
    {
      var predictedPositive := IsPredictedPositive(i.results[eventId], i.policy);
      if i.labels[eventId].isFraud {
        if predictedPositive {
          truePositive := truePositive + 1;
        } else {
          falseNegative := falseNegative + 1;
        }
      } else {
        if predictedPositive {
          falsePositive := falsePositive + 1;
        } else {
          trueNegative := trueNegative + 1;
        }
      }
    }


    /** One turn of the loop. */
    method CountRow<Id>(i: Input<Id>, eventId: Id)
      requires eventId in i.labels
      modifies this
      ensures forall what :: !Upfront(what) ==> Counter(what) == old(Counter(what)) + One(i.Holds(what, eventId))
      ensures forall what :: Upfront(what) ==> Counter(what) == old(Counter(what))
      ensures unchanged(`totalLabels, `totalResults, `matchedResults, `unmatchedResults)
    {
      if eventId in i.rejected {
        CountExcluded(i, eventId);
      } else if eventId !in i.results {
        CountMissing(i, eventId);
      } else {
        CountJudged(i, eventId);
      }
    }

    /** Every counter of the loop is the size of its set among `ids`. */
    ghost predicate Counts<Id>(i: Input<Id>, ids: set<Id>)
      reads this
    {
      forall what :: Counter(what) == if Upfront(what) then Total(i, what) else Tally(i, ids, what)
    }
  }

  /** Taken over all labels before the loop starts. */
  predicate Upfront(what: Counted) { what == Fraud || what == NonFraud }

  /** What a missing event adds to whether or not missing events are evaluated. */
  predicate OfAbsence(what: Counted) { what.Missing? || what.MissingFraud? || what.MissingNonFraud? }

  // What a judged event can add to, in five groups.

  predicate OfDetection(what: Counted) {
    what.Evaluated? || what.Scored? || what.Unscored? || what.Versioned? || what.Unversioned?
  }

  predicate OfLevel(what: Counted) { what.AtLevel? }

  predicate OfLabelAtLevel(what: Counted) { what.FraudAt? || what.NonFraudAt? }

  predicate OfDecision(what: Counted) { what.Reviewed? || what.Blocked? }

  predicate OfOutcome(what: Counted) {
    what.TruePositive? || what.FalsePositive? || what.TrueNegative? || what.FalseNegative?
  }

  /** The loop visits each label once, in whatever order; every counter is the size of a set of labels. */
  method EvaluateRows<Id>(i: Input<Id>) returns (stats: EvaluationStats)
    ensures fresh(stats)
    ensures stats.totalLabels == |i.labels| && stats.totalResults == |i.results|
    ensures stats.matchedResults == |i.labels.Keys * i.results.Keys|
    ensures stats.unmatchedResults == |i.results.Keys - i.labels.Keys|
    ensures forall what :: stats.Counter(what) == Total(i, what)
  {
    stats := new EvaluationStats(
      |i.labels|, |i.results|, |i.labels.Keys * i.results.Keys|, |i.results.Keys - i.labels.Keys|,
      Total(i, Fraud), Total(i, NonFraud));
    CountAll(i, stats);
  }

  method CountAll<Id>(i: Input<Id>, stats: EvaluationStats)
    requires forall what :: stats.Counter(what) == if Upfront(what) then Total(i, what) else 0
    modifies stats
    ensures forall what :: stats.Counter(what) == Total(i, what)
    ensures unchanged(stats`totalLabels, stats`totalResults, stats`matchedResults, stats`unmatchedResults)
  {
    var rest := i.labels.Keys;
    ghost var done: set<Id> := {};
    NothingCounted(i);
    while rest != {}
      invariant done + rest == i.labels.Keys && done !! rest && stats.Counts(i, done)
      invariant unchanged(stats`totalLabels, stats`totalResults, stats`matchedResults, stats`unmatchedResults)
      decreases |rest|
    {
      var eventId :| eventId in rest;
      rest := rest - {eventId};
      OneMore(i, done, eventId);
      stats.CountRow(i, eventId);
      done := done + {eventId};
    }
    assert done == i.labels.Keys;
  }

  // ----- What the counters add up to -----

  /** Disjoint conditions add up. */
  lemma Splits<T>(ids: set<T>, whole: T -> bool, a: T -> bool, b: T -> bool)
    requires forall id :: id in ids ==> (whole(id) <==> a(id) || b(id)) && !(a(id) && b(id))
    ensures Size(ids, whole) == Size(ids, a) + Size(ids, b)
  {
    var x, y := set id | id in ids && a(id), set id | id in ids && b(id);
    assert (set id | id in ids && whole(id)) == x + y;
    assert x !! y;
  }

  lemma Grows<T>(ids: set<T>, a: T -> bool, b: T -> bool)
    requires forall id :: id in ids && a(id) ==> b(id)
    ensures Size(ids, a) <= Size(ids, b)
  {
    Subset((set id | id in ids && a(id)), (set id | id in ids && b(id)));
  }

  lemma {:induction false} Subset<T>(a: set<T>, b: set<T>)
    requires a <= b
    ensures |a| <= |b|
  {
    if a == {} {
    } else {
      var x :| x in a;
      Subset(a - {x}, b - {x});
    }
  }

  lemma Same<T>(ids: set<T>, a: T -> bool, b: T -> bool)
    requires forall id :: id in ids ==> a(id) == b(id)
    ensures Size(ids, a) == Size(ids, b)
  {
    assert (set id | id in ids && a(id)) == (set id | id in ids && b(id));
  }

  lemma Whole<T>(ids: set<T>)
    ensures Size(ids, _ => true) == |ids|
  {
    assert (set id | id in ids && (_ => true)(id)) == ids;
  }

  /** The confusion matrix covers exactly the evaluated events. */
  lemma MatrixIsEvaluated<Id>(i: Input<Id>)
    ensures Total(i, TruePositive) + Total(i, FalsePositive) + Total(i, TrueNegative) + Total(i, FalseNegative)
            == Total(i, Evaluated)
  {
    var k := i.labels.Keys;
    Splits(k, i.Positive, Test(i, TruePositive), Test(i, FalsePositive));
    Splits(k, id => i.Counts(id) && !i.Positive(id), Test(i, TrueNegative), Test(i, FalseNegative));
    Splits(k, Test(i, Evaluated), i.Positive, id => i.Counts(id) && !i.Positive(id));
  }

  /** Every label is evaluated, excluded as rejected before the replay, or missing and not counted. */
  lemma LabelsAreAccountedFor<Id>(i: Input<Id>)
    ensures |i.labels| == Total(i, Evaluated) + Total(i, Excluded) + if i.includeMissing then 0 else Total(i, Missing)
  {
    var k := i.labels.Keys;
    Whole(k);
    Splits(k, _ => true, Test(i, Excluded), id => i.Judged(id) || i.Absent(id));
    if i.includeMissing {
      Same(k, id => i.Judged(id) || i.Absent(id), Test(i, Evaluated));
    } else {
      Splits(k, id => i.Judged(id) || i.Absent(id), Test(i, Evaluated), Test(i, Missing));
    }
  }

  lemma LabelsSplit<Id>(i: Input<Id>)
    ensures |i.labels| == Total(i, Fraud) + Total(i, NonFraud)
  {
    Whole(i.labels.Keys);
    Splits(i.labels.Keys, _ => true, Test(i, Fraud), Test(i, NonFraud));
  }

  lemma MissingSplit<Id>(i: Input<Id>)
    ensures Total(i, Missing) == Total(i, MissingFraud) + Total(i, MissingNonFraud)
  {
    Splits(i.labels.Keys, Test(i, Missing), Test(i, MissingFraud), Test(i, MissingNonFraud));
  }

  /** The counts of a level split by label. */
  lemma LevelSplits<Id>(i: Input<Id>, level: Level)
    ensures Total(i, AtLevel(level)) == Total(i, FraudAt(level)) + Total(i, NonFraudAt(level))
  {
    Splits(i.labels.Keys, Test(i, AtLevel(level)), Test(i, FraudAt(level)), Test(i, NonFraudAt(level)));
  }

  /** The number of labels that a detection judged. */
  function JudgedCount<Id>(i: Input<Id>): nat { Size(i.labels.Keys, i.Judged) }

  /** The levels cover the judged events. */
  lemma LevelsCover<Id>(i: Input<Id>)
    ensures Total(i, AtLevel(Low)) + Total(i, AtLevel(Medium)) + Total(i, AtLevel(High)) + Total(i, AtLevel(Critical))
            == JudgedCount(i)
  {
    var k := i.labels.Keys;
    var lower := (id: Id) => i.Judged(id) && Rank(i.results[id].level) <= 1;
    var upper := (id: Id) => i.Judged(id) && Rank(i.results[id].level) >= 2;
    Splits(k, lower, Test(i, AtLevel(Low)), Test(i, AtLevel(Medium)));
    Splits(k, upper, Test(i, AtLevel(High)), Test(i, AtLevel(Critical)));
    Splits(k, i.Judged, lower, upper);
  }

  /** So do the two kinds of scores and of versions. */
  lemma ScoresAndVersionsCover<Id>(i: Input<Id>)
    ensures Total(i, Scored) + Total(i, Unscored) == JudgedCount(i)
    ensures Total(i, Versioned) + Total(i, Unversioned) == JudgedCount(i)
  {
    Splits(i.labels.Keys, i.Judged, Test(i, Scored), Test(i, Unscored));
    Splits(i.labels.Keys, i.Judged, Test(i, Versioned), Test(i, Unversioned));
  }

  // ----- Policies -----

  /** The fallback levels of a policy say the same for prediction and for action. */
  predicate Consistent(policy: Policy) {
    && policy.medium <= policy.high
    && forall level :: Rank(level) >= Rank(policy.fallback) <==> level in policy.review + policy.block
  }

  lemma BothPoliciesConsistent()
    ensures Consistent(THRESHOLD_V1) && Consistent(THRESHOLD_STRICT)
  {
  }

  /** A policy predicts fraud exactly for what it sends to review or blocks, on every detection, just
      when it is consistent. */
  lemma PredictionMeetsAction(policy: Policy)
    ensures Consistent(policy) <==>
      forall d: Detection :: IsPredictedPositive(d, policy) <==> ActionDecisionFor(d, policy) != Allow
  {
    if forall d: Detection :: IsPredictedPositive(d, policy) <==> ActionDecisionFor(d, policy) != Allow {
      var atHigh := Detection(Low, Some(policy.high), None);
      assert ActionDecisionFor(atHigh, policy) == Block && IsPredictedPositive(atHigh, policy);
      forall level ensures Rank(level) >= Rank(policy.fallback) <==> level in policy.review + policy.block {
        assert IsPredictedPositive(Detection(level, None, None), policy) <==>
          ActionDecisionFor(Detection(level, None, None), policy) != Allow;
      }
    }
  }

  /** What the two shipped policies say of a detection: by its score where it has one, by its level otherwise. */
  lemma ShippedDecisions(d: Detection)
    ensures
      var strict := ActionDecisionFor(d, THRESHOLD_STRICT);
      var v1 := ActionDecisionFor(d, THRESHOLD_V1);
      && (d.score.Some? ==>
            && (v1 == Block <==> d.score.value >= 80.0) && (v1 == Allow <==> d.score.value < 50.0)
            && (strict == Block <==> d.score.value >= 90.0) && (strict == Allow <==> d.score.value < 70.0)
            && (IsPredictedPositive(d, THRESHOLD_V1) <==> d.score.value >= 50.0)
            && (IsPredictedPositive(d, THRESHOLD_STRICT) <==> d.score.value >= 70.0))
      && (d.score.None? ==>
            && (v1 == Block <==> d.level == High || d.level == Critical) && (v1 == Allow <==> d.level == Low)
            && (strict == Block <==> d.level == Critical) && (strict == Allow <==> d.level == Low || d.level == Medium)
            && (IsPredictedPositive(d, THRESHOLD_V1) <==> d.level != Low)
            && (IsPredictedPositive(d, THRESHOLD_STRICT) <==> d.level == High || d.level == Critical))
  {
    assert d.level == Low || d.level == Medium || d.level == High || d.level == Critical;
  }

  /** Under a consistent policy the predicted positives are the review candidates. */
  lemma PositivesAreReviewed<Id>(i: Input<Id>)
    requires Consistent(i.policy)
    ensures Total(i, TruePositive) + Total(i, FalsePositive) == Total(i, Reviewed)
  {
    PredictionMeetsAction(i.policy);
    Splits(i.labels.Keys, Test(i, Reviewed), Test(i, TruePositive), Test(i, FalsePositive));
  }

  /** `q` asks for at least as much as `p` everywhere. */
  predicate Stricter(p: Policy, q: Policy) {
    && p.medium <= q.medium && p.high <= q.high && p.medium <= p.high
    && Rank(p.fallback) <= Rank(q.fallback)
    && q.block <= p.block && q.review <= p.review + p.block
  }

  lemma StrictIsStricter()
    ensures Stricter(THRESHOLD_V1, THRESHOLD_STRICT)
  {
  }

  function SafeRatio(numerator: nat, denominator: nat): Option<real> {
    if denominator == 0 then None else Some(numerator as real / denominator as real)
  }

  /** Under both shipped policies TP + FP is the number of review candidates. */
  lemma ShippedPositivesAreReviewed<Id>(i: Input<Id>)
    requires i.policy == THRESHOLD_V1 || i.policy == THRESHOLD_STRICT
    ensures Total(i, TruePositive) + Total(i, FalsePositive) == Total(i, Reviewed)
  {
    BothPoliciesConsistent();
    PositivesAreReviewed(i);
  }

  function Recall<Id>(i: Input<Id>): Option<real> {
    SafeRatio(Total(i, TruePositive), Total(i, TruePositive) + Total(i, FalseNegative))
  }

  lemma StricterFlagsFewer(p: Policy, q: Policy, d: Detection)
    requires Stricter(p, q)
    ensures IsPredictedPositive(d, q) ==> IsPredictedPositive(d, p)
    ensures ActionDecisionFor(d, q) == Block ==> ActionDecisionFor(d, p) == Block
    ensures ActionDecisionFor(d, q) != Allow ==> ActionDecisionFor(d, p) != Allow
  {
  }

  predicate Flagged(what: Counted) {
    what == TruePositive || what == FalsePositive || what == Reviewed || what == Blocked
  }

  lemma StricterCountsFewer<Id>(i: Input<Id>, q: Policy, what: Counted)
    requires Stricter(i.policy, q) && Flagged(what)
    ensures Total(i.(policy := q), what) <= Total(i, what)
  {
    var j := i.(policy := q);
    forall id | id in i.labels.Keys && j.Holds(what, id) ensures i.Holds(what, id) {
      StricterFlagsFewer(i.policy, q, i.results[id]);
    }
    Grows(i.labels.Keys, Test(j, what), Test(i, what));
  }

  /** The frauds that recall is taken over do not depend on the policy. */
  lemma FraudsEvaluated<Id>(i: Input<Id>, q: Policy)
    ensures
      var j := i.(policy := q);
      Total(i, TruePositive) + Total(i, FalseNegative) == Total(j, TruePositive) + Total(j, FalseNegative)
  {
    var j := i.(policy := q);
    var frauds := (id: Id) => i.Counts(id) && i.labels[id].isFraud;
    Splits(i.labels.Keys, frauds, Test(i, TruePositive), Test(i, FalseNegative));
    Splits(i.labels.Keys, frauds, Test(j, TruePositive), Test(j, FalseNegative));
  }

  /** A stricter policy never has more true or false positives, review or block candidates, nor a higher
      recall; whether recall is defined does not depend on the policy. */
  lemma StricterNeverRaises<Id>(i: Input<Id>, q: Policy)
    requires Stricter(i.policy, q)
    ensures
      var j := i.(policy := q);
      && (forall what :: Flagged(what) ==> Total(j, what) <= Total(i, what))
      && RatioAtMost(Recall(j), Recall(i))
  {
    forall what | Flagged(what) ensures Total(i.(policy := q), what) <= Total(i, what) { StricterCountsFewer(i, q, what); }
    RecallFalls(i, q);
  }

  /** Defined together, and then the first is no more than the second. */
  predicate RatioAtMost(a: Option<real>, b: Option<real>) {
    (a.Some? <==> b.Some?) && (a.Some? ==> a.value <= b.value)
  }

  lemma RecallFalls<Id>(i: Input<Id>, q: Policy)
    requires Stricter(i.policy, q)
    ensures RatioAtMost(Recall(i.(policy := q)), Recall(i))
  {
    var j := i.(policy := q);
    StricterCountsFewer(i, q, TruePositive);
    FraudsEvaluated(i, q);
    RatioGrows(Total(j, TruePositive), Total(i, TruePositive), Total(i, TruePositive) + Total(i, FalseNegative));
  }

  lemma RatioGrows(a: nat, b: nat, n: nat)
    requires a <= b
    ensures RatioAtMost(SafeRatio(a, n), SafeRatio(b, n))
  {
  }

  /** Moving from threshold-v1 to threshold-strict-v1 never raises what is flagged, nor recall. */
  lemma StrictNeverRaises<Id>(i: Input<Id>)
    requires i.policy == THRESHOLD_V1
    ensures
      var j := i.(policy := THRESHOLD_STRICT);
      && (forall what :: Flagged(what) ==> Total(j, what) <= Total(i, what))
      && RatioAtMost(Recall(j), Recall(i))
  {
    StrictIsStricter();
    StricterNeverRaises(i, THRESHOLD_STRICT);
  }
}
