/** efficacy.py, `_rate` and `compute_metrics`: rates over the full set of run outcomes. */
module Efficacy {
  import opened Options
  import opened Sorting
  import opened Wilson

  datatype RunResult = Completed | Failed | Abandoned | Cancelled | Inconclusive
  datatype HumanAction = Merged | Declined | Overridden | NoAction

  /** The fields of a run outcome that the rates read. */
  datatype Outcome = Outcome(
    result: RunResult,
    verificationPassed: Option<bool>,
    reviewFindings: Option<int>,
    repairRounds: int,
    merged: bool,
    humanAction: HumanAction,
    escapedDefect: bool,
    reopened: bool,
    policyViolations: int)

  datatype Metric = Metric(name: string, value: real, numerator: nat, denominator: nat, interval: Interval)

  /** `_rate`. */
  function RateMetric(name: string, numerator: nat, denominator: nat, sqrt: real -> real): Metric
  {
    Metric(name, if denominator > 0 then Round4(Rate(numerator, denominator)) else 0.0, numerator, denominator,
           WilsonInterval(numerator, denominator, sqrt))
  }

  /** `sum(1 for item in items if keep(item))`. */
  function CountIf(items: seq<Outcome>, keep: Outcome -> bool): nat
  {
    if items == [] then 0 else (if keep(items[0]) then 1 else 0) + CountIf(items[1..], keep)
  }

  /** One rate: the outcomes it is about, and which of those count as a success. */
  datatype RateRule = RateRule(name: string, about: Outcome -> bool, success: Outcome -> bool)

  /** The eight rates, in the order the source builds them. */
  function RateRules(): seq<RateRule>
  {
    var all := (o: Outcome) => true;
    var merged := (o: Outcome) => o.merged;
    [ RateRule("task_completion_rate", all, (o: Outcome) => o.result.Completed? && o.merged),
      RateRule("first_pass_verification_rate", all,
               (o: Outcome) => o.verificationPassed == Some(true) && o.repairRounds == 0),
      RateRule("first_pass_review_acceptance_rate", (o: Outcome) => o.reviewFindings.Some?,
               (o: Outcome) => o.reviewFindings == Some(0) && o.repairRounds == 0),
      RateRule("repair_success_rate", (o: Outcome) => o.repairRounds > 0, (o: Outcome) => o.result.Completed?),
      RateRule("escaped_defect_rate", merged, (o: Outcome) => o.escapedDefect),
      RateRule("reopened_rate", merged, (o: Outcome) => o.reopened),
      RateRule("human_intervention_rate", all, (o: Outcome) => o.humanAction.Overridden?),
      RateRule("policy_violation_rate", all, (o: Outcome) => o.policyViolations > 0) ]
  }

  /** One entry of `compute_metrics`. */
  function ComputeRate(outcomes: seq<Outcome>, rule: RateRule, sqrt: real -> real): Metric
  {
    var about := Filter(outcomes, rule.about);
    RateMetric(rule.name, CountIf(about, rule.success), |about|, sqrt)
  }

  lemma {:induction false} CountAtMost(items: seq<Outcome>, keep: Outcome -> bool)
    ensures CountIf(items, keep) <= |items|
  {
    if items != [] { CountAtMost(items[1..], keep); }
  }

  lemma {:induction false} CountConcat(a: seq<Outcome>, b: seq<Outcome>, keep: Outcome -> bool)
    ensures CountIf(a + b, keep) == CountIf(a, keep) + CountIf(b, keep)
  {
    if a == [] {
      assert a + b == b;
    } else {
      CountConcat(a[1..], b, keep);
      assert (a + b)[1..] == a[1..] + b;
    }
  }

  lemma RateInUnit(numerator: nat, denominator: nat)
    requires denominator > 0 && numerator <= denominator
    ensures 0.0 <= Rate(numerator, denominator) <= 1.0
  {
    var p, d := Rate(numerator, denominator), denominator as real;
    assert p * d == numerator as real;
    Cancel(0.0, p, d);
    Cancel(p, 1.0, d);
  }

  /** A reported rate is a rate: it counts a part of what it is about, its value is in [0, 1], and from ten
      outcomes on its interval stays in [0, 1] and contains the value as reported, rounding included. */
  lemma ReportedRateIsSound(outcomes: seq<Outcome>, rule: RateRule, sqrt: real -> real)
    requires TakesRoots(sqrt)
    ensures var m := ComputeRate(outcomes, rule, sqrt);
      && m.numerator <= m.denominator <= |outcomes|
      && 0.0 <= m.value <= 1.0
      && (m.interval.Interval? <==> m.denominator >= MIN_CI_SAMPLE)
      && (m.interval.Interval? ==> 0.0 <= m.interval.low <= m.value <= m.interval.high <= 1.0)
  {
    var about := Filter(outcomes, rule.about);
    FilterMembers(outcomes, rule.about);
    CountAtMost(about, rule.success);
    var k, n := CountIf(about, rule.success), |about|;
    if n > 0 {
      var p := Rate(k, n);
      RateInUnit(k, n);
      RoundKeepsUnit(p);
      IntervalContainsRate(p, n, sqrt);
      IntervalInUnit(p, n, sqrt);
      var low, high := Center(p, n) - Spread(p, n, sqrt), Center(p, n) + Spread(p, n, sqrt);
      RoundMonotone(low, p);
      RoundMonotone(p, high);
      RoundKeepsUnit(low);
      RoundKeepsUnit(high);
    }
  }

  /** Pooling cohorts pools their counts: no outcome is counted twice, and none is left out. */
  lemma PooledRatesAdd(a: seq<Outcome>, b: seq<Outcome>, rule: RateRule, sqrt: real -> real)
    ensures var m, x, y := ComputeRate(a + b, rule, sqrt), ComputeRate(a, rule, sqrt), ComputeRate(b, rule, sqrt);
      m.numerator == x.numerator + y.numerator && m.denominator == x.denominator + y.denominator
  {
    FilterConcat(a, b, rule.about);
    CountConcat(Filter(a, rule.about), Filter(b, rule.about), rule.success);
  }

  lemma {:induction false} CountReordered(a: seq<Outcome>, b: seq<Outcome>, keep: Outcome -> bool)
    requires multiset(a) == multiset(b)
    ensures CountIf(a, keep) == CountIf(b, keep)
  {
    assert |a| == |multiset(a)| == |multiset(b)| == |b|;
    if a != [] {
      var i := MatchHead(a, b);
      var before, after := b[..i], b[i + 1..];
      assert b == before + ([b[i]] + after);
      CountReordered(a[1..], before + after, keep);
      CountConcat(before, after, keep);
      CountConcat(before, [b[i]] + after, keep);
      assert ([b[i]] + after)[1..] == after;
    }
  }

  /** The order in which outcomes were recorded changes no metric. */
  lemma MetricsOrderFree(a: seq<Outcome>, b: seq<Outcome>, rule: RateRule, sqrt: real -> real)
    requires multiset(a) == multiset(b)
    ensures ComputeRate(a, rule, sqrt) == ComputeRate(b, rule, sqrt)
  {
    FilterMultiset(a, b, rule.about);
    var x, y := Filter(a, rule.about), Filter(b, rule.about);
    assert |x| == |multiset(x)| == |multiset(y)| == |y|;
    CountReordered(x, y, rule.success);
  }

  /** The completion rate cannot be raised by more unsuccessful runs: every run stays in its denominator. */
  lemma NoRunLeavesTheDenominator(outcomes: seq<Outcome>, extra: Outcome, sqrt: real -> real)
    requires !(extra.result.Completed? && extra.merged)
    ensures var rule := RateRules()[0];
      var before, now := ComputeRate(outcomes, rule, sqrt), ComputeRate(outcomes + [extra], rule, sqrt);
      && before.denominator == |outcomes| && now.denominator == |outcomes| + 1
      && now.numerator == before.numerator && now.value <= before.value
  {
    var rule := RateRules()[0];
    PooledRatesAdd(outcomes, [extra], rule, sqrt);
    KeepsAll(outcomes, rule.about);
    KeepsAll([extra], rule.about);
    var k, n := CountIf(outcomes, rule.success), |outcomes|;
    assert CountIf([extra], rule.success) == 0;
    CountAtMost(outcomes, rule.success);
    if n > 0 {
      RateFalls(k, n);
      RoundMonotone(Rate(k, n + 1), Rate(k, n));
    } else {
      assert Rate(0, 1) == 0.0 && NearestEven(0.0) == 0;
    }
  }

  lemma {:induction false} KeepsAll(outcomes: seq<Outcome>, keep: Outcome -> bool)
    requires forall o :: keep(o)
    ensures Filter(outcomes, keep) == outcomes
  {
    if outcomes != [] { KeepsAll(outcomes[1..], keep); }
  }

  lemma RateFalls(k: nat, n: nat)
    requires n > 0
    ensures Rate(k, n + 1) <= Rate(k, n)
  {
    var x, y := n as real, (n + 1) as real;
    var p, q := Rate(k, n), Rate(k, n + 1);
    assert p * x == k as real && q * y == k as real;
    Cancel(0.0, p, x);
    ProductAtLeast(x, y, p);
    assert p * y >= q * y;
    Cancel(q, p, y);
  }

  // ---- what each rate counts ----

  /** The places of the outcomes that meet the condition. */
  ghost function Places(outcomes: seq<Outcome>, keep: Outcome -> bool): set<int>
  {
    set i | 0 <= i < |outcomes| && keep(outcomes[i])
  }

  lemma {:induction false} CountsPlaces(outcomes: seq<Outcome>, about: Outcome -> bool, success: Outcome -> bool)
    ensures CountIf(Filter(outcomes, about), success) == |Places(outcomes, (o: Outcome) => about(o) && success(o))|
    ensures |Filter(outcomes, about)| == |Places(outcomes, about)|
  {
    if outcomes != [] {
      var n, last := |outcomes| - 1, outcomes[|outcomes| - 1];
      var init := outcomes[..n];
      var both := (o: Outcome) => about(o) && success(o);
      assert outcomes == init + [last];
      CountsPlaces(init, about, success);
      FilterConcat(init, [last], about);
      assert [last][1..] == [];
      CountConcat(Filter(init, about), Filter([last], about), success);
      PlacesGrow(init, last, about);
      PlacesGrow(init, last, both);
    }
  }

  lemma PlacesGrow(init: seq<Outcome>, last: Outcome, keep: Outcome -> bool)
    ensures |Places(init + [last], keep)| == |Places(init, keep)| + if keep(last) then 1 else 0
  {
    var outcomes := init + [last];
    if keep(last) {
      assert Places(outcomes, keep) == Places(init, keep) + {|init|};
    } else {
      assert Places(outcomes, keep) == Places(init, keep);
    }
  }

  /** A metric is the number of outcomes that succeed over the number it is about, and the quotient to four places. */
  lemma MetricCounts(outcomes: seq<Outcome>, rule: RateRule, sqrt: real -> real)
    ensures var m := ComputeRate(outcomes, rule, sqrt);
      && m.name == rule.name
      && m.denominator == |Places(outcomes, rule.about)|
      && m.numerator == |Places(outcomes, (o: Outcome) => rule.about(o) && rule.success(o))|
      && m.value == if m.denominator == 0 then 0.0 else Round4(m.numerator as real / m.denominator as real)
  {
    CountsPlaces(outcomes, rule.about, rule.success);
  }

  /** The eight definitions: every run counts for completion, verification, intervention and policy; the others are
      about the reviewed, the repaired, and the merged. A success counts once however it is reported. */
  lemma RatesMean(o: Outcome)
    ensures var r := RateRules();
      && |r| == 8
      && (r[0].about(o) && (r[0].success(o) <==> o.result == Completed && o.merged))
      && (r[1].about(o) && (r[1].success(o) <==> o.verificationPassed == Some(true) && o.repairRounds == 0))
      && ((r[2].about(o) <==> o.reviewFindings != None) &&
          (r[2].success(o) <==> o.reviewFindings == Some(0) && o.repairRounds == 0))
      && ((r[3].about(o) <==> o.repairRounds > 0) && (r[3].success(o) <==> o.result == Completed))
      && ((r[4].about(o) <==> o.merged) && (r[4].success(o) <==> o.escapedDefect))
      && ((r[5].about(o) <==> o.merged) && (r[5].success(o) <==> o.reopened))
      && (r[6].about(o) && (r[6].success(o) <==> o.humanAction == Overridden))
      && (r[7].about(o) && (r[7].success(o) <==> o.policyViolations > 0))
  {
  }
}
