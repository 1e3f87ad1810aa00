/** The readiness scorer of `src/lib/scoring.ts`: binary coverage per control family, weighted by an
    outcome profile, with the entries that moved the score most singled out as drivers. */
module Scoring {
  import opened Standards

  datatype BreakdownItem = BreakdownItem(family: ControlFamily, covered: int, weight: real, contribution: real)

  datatype ScoreResult = ScoreResult(
    score: real,
    maxScore: real,
    percent: real,
    breakdown: seq<BreakdownItem>,
    drivers: seq<BreakdownItem>)

  /** Some selected standard lists the family. */
  predicate Declares(selected: seq<StandardNode>, f: ControlFamily) {
    exists k :: 0 <= k < |selected| && f in selected[k].families
  }

  /** The coverage of one family: 1 when some selected standard lists it, 0 otherwise. */
  function Covered(selected: seq<StandardNode>, f: ControlFamily): int {
    if Declares(selected, f) then 1 else 0
  }

  /** `computeCoverageByFamily`: all six families start at 0, and every family of every selected standard
      is overwritten with 1. */
  method ComputeCoverageByFamily(selected: seq<StandardNode>) returns (coverage: map<ControlFamily, int>)
    ensures forall f: ControlFamily :: f in coverage && (coverage[f] == 0 || coverage[f] == 1)
    ensures forall f: ControlFamily :: f in coverage && (coverage[f] == 1 <==> Declares(selected, f))
  {
    coverage := map f | f in Families :: 0;
    forall f: ControlFamily ensures f in coverage {
      EveryFamilyListed(f);
    }
    var i := 0;
    while i < |selected|
      invariant 0 <= i <= |selected|
      invariant forall f: ControlFamily :: f in coverage && coverage[f] == Covered(selected[..i], f)
    {
      var node := selected[i];
      var j := 0;
      while j < |node.families|
        invariant 0 <= j <= |node.families|
        invariant forall f: ControlFamily :: (f in coverage &&
                                               coverage[f] == if Declares(selected[..i], f) || f in node.families[..j] then 1 else 0)
      {
        coverage := coverage[node.families[j] := 1];
        assert node.families[..j + 1] == node.families[..j] + [node.families[j]];
        j := j + 1;
      }
      assert node.families[..j] == node.families;
      forall f: ControlFamily ensures Declares(selected[..i + 1], f) <==> Declares(selected[..i], f) || f in node.families {
        assert selected[..i + 1][i] == node;
        if Declares(selected[..i + 1], f) {
          var k :| 0 <= k < i + 1 && f in selected[..i + 1][k].families;
          if k < i {
            assert selected[..i][k] == selected[..i + 1][k];
          }
        }
        if Declares(selected[..i], f) {
          var k :| 0 <= k < i && f in selected[..i][k].families;
          assert selected[..i + 1][k] == selected[..i][k];
        }
      }
      i := i + 1;
    }
    assert selected[..i] == selected;
  }

  /** One breakdown row per weight entry, in entry order. */
  function Breakdown(selected: seq<StandardNode>, weights: seq<(ControlFamily, real)>): (rows: seq<BreakdownItem>)
    ensures |rows| == |weights|
    ensures forall k :: 0 <= k < |rows| ==>
      rows[k].family == weights[k].0 && rows[k].weight == weights[k].1 &&
      rows[k].covered == Covered(selected, weights[k].0) &&
      (rows[k].covered == 1 <==> Declares(selected, weights[k].0)) &&
      (rows[k].contribution == if Declares(selected, weights[k].0) then weights[k].1 else 0.0)
  {
    seq(|weights|, k requires 0 <= k < |weights| =>
      var c := Covered(selected, weights[k].0);
      BreakdownItem(weights[k].0, c, weights[k].1, c as real * weights[k].1))
  }

  function SumContributions(rows: seq<BreakdownItem>): real {
    if rows == [] then 0.0 else rows[0].contribution + SumContributions(rows[1..])
  }

  function SumWeights(rows: seq<BreakdownItem>): real {
    if rows == [] then 0.0 else rows[0].weight + SumWeights(rows[1..])
  }

  /** Rows whose contribution reaches the driver threshold, in breakdown order. */
  function AboveThreshold(rows: seq<BreakdownItem>, maxScore: real): (r: seq<BreakdownItem>)
    ensures forall x :: x in r <==> x in rows && x.contribution >= 0.1 * maxScore
    ensures |r| <= |rows|
    ensures forall c :: WithContribution(r, c) == if c >= 0.1 * maxScore then WithContribution(rows, c) else []
  {
    if rows == [] then []
    else
      var t := AboveThreshold(rows[1..], maxScore);
      assert rows == [rows[0]] + rows[1..];
      if rows[0].contribution >= 0.1 * maxScore then [rows[0]] + t else t
  }

  /** The rows with exactly contribution `c`, in order. */
  function WithContribution(rows: seq<BreakdownItem>, c: real): seq<BreakdownItem> {
    if rows == [] then []
    else (if rows[0].contribution == c then [rows[0]] else []) + WithContribution(rows[1..], c)
  }

  predicate NonIncreasing(rows: seq<BreakdownItem>) {
    forall k :: 0 <= k < |rows| - 1 ==> rows[k].contribution >= rows[k + 1].contribution
  }

  /** Puts `x` before the first row whose contribution does not exceed its own. */
  function InsertByContribution(x: BreakdownItem, rows: seq<BreakdownItem>): (r: seq<BreakdownItem>)
    requires NonIncreasing(rows)
    ensures NonIncreasing(r)
    ensures multiset(r) == multiset(rows) + multiset{x}
    ensures r[0] == x || (rows != [] && r[0] == rows[0])
    ensures forall c :: (WithContribution(r, c) ==
                         if x.contribution == c then [x] + WithContribution(rows, c) else WithContribution(rows, c))
  {
    if rows == [] || rows[0].contribution <= x.contribution then [x] + rows
    else
      var t := InsertByContribution(x, rows[1..]);
      assert rows == [rows[0]] + rows[1..];
      assert ([rows[0]] + t)[1..] == t;
      [rows[0]] + t
  }

  /** `sort((a, b) => b.contribution - a.contribution)`, which is stable: rows of equal contribution keep
      their relative order. */
  function SortByContribution(rows: seq<BreakdownItem>): (r: seq<BreakdownItem>)
    ensures NonIncreasing(r)
    ensures multiset(r) == multiset(rows)
    ensures forall c :: WithContribution(r, c) == WithContribution(rows, c)
  {
    if rows == [] then []
    else
      assert rows == [rows[0]] + rows[1..];
      InsertByContribution(rows[0], SortByContribution(rows[1..]))
  }

  /** `computeReadinessScore`: the breakdown has one row per weight entry, the percentage is the score over a
      maxScore that is never 0, and the drivers are breakdown rows, no more of them than rows. */
  function ComputeReadinessScore(selected: seq<StandardNode>, profile: OutcomeProfile): (r: ScoreResult)
    ensures |r.breakdown| == |profile.weights|
    ensures r.maxScore != 0.0 && r.percent == r.score / r.maxScore
    ensures forall x :: x in r.drivers ==> x in r.breakdown
    ensures |r.drivers| <= |r.breakdown|
  {
    var breakdown := Breakdown(selected, profile.weights);
    var score := SumContributions(breakdown);
    var total := SumWeights(breakdown);
    var maxScore := if total == 0.0 then 1.0 else total;
    var above := AboveThreshold(breakdown, maxScore);
    var drivers := SortByContribution(above);
    assert forall x :: x in drivers ==> x in above by {
      forall x | x in drivers ensures x in above {
        assert x in multiset(drivers);
      }
    }
    assert |drivers| == |multiset(drivers)| == |multiset(above)| == |above|;
    ScoreResult(score, maxScore, score / maxScore, breakdown, drivers)
  }

  predicate NonNegativeWeights(weights: seq<(ControlFamily, real)>) {
    forall k :: 0 <= k < |weights| ==> weights[k].1 >= 0.0
  }

  lemma {:induction false} ContributionsBounded(rows: seq<BreakdownItem>)
    requires forall k :: 0 <= k < |rows| ==> 0.0 <= rows[k].contribution <= rows[k].weight
    ensures 0.0 <= SumContributions(rows) <= SumWeights(rows)
  {
    if rows != [] {
      ContributionsBounded(rows[1..]);
    }
  }

  lemma {:induction false} ContributionsAllWeight(rows: seq<BreakdownItem>)
    requires forall k :: 0 <= k < |rows| ==> rows[k].contribution == rows[k].weight
    ensures SumContributions(rows) == SumWeights(rows)
  {
    if rows != [] {
      ContributionsAllWeight(rows[1..]);
    }
  }

  lemma {:induction false} ContributionsZero(rows: seq<BreakdownItem>)
    requires forall k :: 0 <= k < |rows| ==> rows[k].contribution == 0.0
    ensures SumContributions(rows) == 0.0
  {
    if rows != [] {
      ContributionsZero(rows[1..]);
    }
  }

  lemma {:induction false} WeightsNonNegative(rows: seq<BreakdownItem>)
    requires forall k :: 0 <= k < |rows| ==> rows[k].weight >= 0.0
    ensures SumWeights(rows) >= 0.0
  {
    if rows != [] {
      WeightsNonNegative(rows[1..]);
    }
  }

  /** Score is the sum of contributions, maxScore the sum of weights (1 for a zero total), and the
      percentage lies between 0 and 1 when no weight is negative. */
  lemma ScoreBounds(selected: seq<StandardNode>, profile: OutcomeProfile)
    requires NonNegativeWeights(profile.weights)
    ensures var r := ComputeReadinessScore(selected, profile);
      && r.score == SumContributions(r.breakdown)
      && r.maxScore == (if SumWeights(r.breakdown) == 0.0 then 1.0 else SumWeights(r.breakdown))
      && r.maxScore > 0.0
      && 0.0 <= r.score <= r.maxScore
      && 0.0 <= r.percent <= 1.0
  {
    var rows := Breakdown(selected, profile.weights);
    ContributionsBounded(rows);
    WeightsNonNegative(rows);
    var total := SumWeights(rows);
    RatioBounds(SumContributions(rows), if total == 0.0 then 1.0 else total);
  }

  lemma RatioBounds(score: real, maxScore: real)
    requires 0.0 <= score <= maxScore && maxScore > 0.0
    ensures 0.0 <= score / maxScore <= 1.0
  {
  }

  /** With a positive total weight and every positively weighted family covered, the score is full. */
  lemma FullCoverageIsFullScore(selected: seq<StandardNode>, profile: OutcomeProfile)
    requires NonNegativeWeights(profile.weights)
    requires SumWeights(Breakdown(selected, profile.weights)) > 0.0
    requires forall k :: 0 <= k < |profile.weights| && profile.weights[k].1 > 0.0 ==> Declares(selected, profile.weights[k].0)
    ensures ComputeReadinessScore(selected, profile).percent == 1.0
  {
    var rows := Breakdown(selected, profile.weights);
    forall k | 0 <= k < |rows| ensures rows[k].contribution == rows[k].weight {
      assert rows[k].weight == profile.weights[k].1;
    }
    ContributionsAllWeight(rows);
    RatioOne(SumWeights(rows));
  }

  lemma RatioOne(x: real)
    requires x > 0.0
    ensures x / x == 1.0
  {
  }

  /** The drivers are exactly the breakdown rows at or above 10% of maxScore, largest contribution first,
      rows of equal contribution in breakdown order. */
  lemma DriversSpec(selected: seq<StandardNode>, profile: OutcomeProfile)
    ensures var r := ComputeReadinessScore(selected, profile);
      && NonIncreasing(r.drivers)
      && (forall x :: x in r.drivers <==> x in r.breakdown && x.contribution >= 0.1 * r.maxScore)
      && (forall c :: c >= 0.1 * r.maxScore ==> WithContribution(r.drivers, c) == WithContribution(r.breakdown, c))
  {
    var r := ComputeReadinessScore(selected, profile);
    var above := AboveThreshold(r.breakdown, r.maxScore);
    forall x ensures x in r.drivers <==> x in above {
      assert x in r.drivers <==> x in multiset(r.drivers);
      assert x in above <==> x in multiset(above);
    }
  }

  /** Selecting nothing scores nothing and drives nothing. */
  lemma EmptySelection(profile: OutcomeProfile)
    requires NonNegativeWeights(profile.weights)
    ensures var r := ComputeReadinessScore([], profile);
      r.score == 0.0 && r.percent == 0.0 && r.drivers == []
  {
    var rows := Breakdown([], profile.weights);
    ContributionsZero(rows);
    ScoreBounds([], profile);
    var r := ComputeReadinessScore([], profile);
    var above := AboveThreshold(rows, r.maxScore);
    assert |r.drivers| == |multiset(r.drivers)| == |multiset(above)| == |above|;
  }

  /** Coverage depends only on which families occur: adding a standard whose families are all covered
      already (a repeated standard in particular) changes nothing in the result. */
  lemma AddingCoveredStandard(selected: seq<StandardNode>, n: StandardNode, profile: OutcomeProfile)
    requires forall f :: f in n.families ==> Declares(selected, f)
    ensures ComputeReadinessScore(selected + [n], profile) == ComputeReadinessScore(selected, profile)
  {
    forall f ensures Declares(selected + [n], f) == Declares(selected, f) {
      if Declares(selected + [n], f) {
        var k :| 0 <= k < |selected| + 1 && f in (selected + [n])[k].families;
        if k < |selected| {
          assert (selected + [n])[k] == selected[k];
        }
      }
      if Declares(selected, f) {
        var k :| 0 <= k < |selected| && f in selected[k].families;
        assert (selected + [n])[k] == selected[k];
      }
    }
    assert Breakdown(selected + [n], profile.weights) == Breakdown(selected, profile.weights);
  }

  lemma RepeatedStandard(selected: seq<StandardNode>, k: nat, profile: OutcomeProfile)
    requires k < |selected|
    ensures ComputeReadinessScore(selected + [selected[k]], profile) == ComputeReadinessScore(selected, profile)
  {
    AddingCoveredStandard(selected, selected[k], profile);
  }
}
