/**
 The analysis run when "Analyze Contract" is pressed: the blank-input guard,
 the loop that classifies every clause and accumulates the total score, the
 per-level counts, and the overall band of the total.
 */
module Analysis {
  import opened Text
  import opened Clauses
  import opened RiskRules

  /** The overall assessment shown at the end: LOW, MEDIUM or HIGH. */
  datatype Band = LowBand | MediumBand | HighBand

  /** Position of a band on the LOW < MEDIUM < HIGH scale. */
  function BandRank(b: Band): nat {
    match b
    case LowBand => 0
    case MediumBand => 1
    case HighBand => 2
  }

  /** The thresholds of the overall assessment: at most 5 is LOW, at most 10
      is MEDIUM, anything above is HIGH. */
  function OverallBand(total: int): (b: Band) {
    if total <= 5 then LowBand
    else if total <= 10 then MediumBand
    else HighBand
  }

  /** Each band holds exactly the totals of its range. */
  lemma BandRanges(total: int)
    ensures OverallBand(total) == LowBand <==> total <= 5
    ensures OverallBand(total) == MediumBand <==> 5 < total <= 10
    ensures OverallBand(total) == HighBand <==> 10 < total
  {
  }

  /** A larger total never gives a lower band. */
  lemma BandMonotone(t1: int, t2: int)
    requires t1 <= t2
    ensures BandRank(OverallBand(t1)) <= BandRank(OverallBand(t2))
  {
  }

  /** Sum of the scores of `risks`, accumulated from the front as the loop
      does, so the last risk is the last one added. */
  function TotalScore(risks: seq<Risk>): (total: int)
    ensures |risks| <= total <= 3 * |risks|
    decreases |risks|
  {
    if risks == [] then 0
    else TotalScore(risks[..|risks| - 1]) + RiskScore(risks[|risks| - 1])
  }

  /** `risks.count(level)`. */
  function CountOf(risks: seq<Risk>, level: Risk): (n: nat)
    decreases |risks|
  {
    if risks == [] then 0
    else CountOf(risks[..|risks| - 1], level) + (if risks[|risks| - 1] == level then 1 else 0)
  }

  /** `CountOf` is the number of occurrences of the level, as
      `list.count` gives it. */
  lemma {:induction false} CountOfOccurrences(risks: seq<Risk>, level: Risk)
    ensures CountOf(risks, level) == multiset(risks)[level]
    decreases |risks|
  {
    if risks != [] {
      var init := risks[..|risks| - 1];
      CountOfOccurrences(init, level);
      assert risks == init + [risks[|risks| - 1]];
    }
  }

  /** Every risk is counted under exactly one level, and the total is the
      weighted sum of the counts. */
  lemma {:induction false} CountsAndScore(risks: seq<Risk>)
    ensures CountOf(risks, High) + CountOf(risks, Medium) + CountOf(risks, Low) == |risks|
    ensures TotalScore(risks) == 3 * CountOf(risks, High) + 2 * CountOf(risks, Medium) + CountOf(risks, Low)
    decreases |risks|
  {
    if risks != [] {
      CountsAndScore(risks[..|risks| - 1]);
    }
  }

  /** The score grows with the volume of clauses alone: more than ten
      clauses is HIGH whatever their levels. */
  lemma ManyClausesAreHigh(risks: seq<Risk>)
    requires |risks| > 10
    ensures OverallBand(TotalScore(risks)) == HighBand
  {
  }

  /** When every clause is Low the total is the number of clauses. */
  lemma {:induction false} AllLowScoresCount(risks: seq<Risk>)
    requires forall i :: 0 <= i < |risks| ==> risks[i] == Low
    ensures TotalScore(risks) == |risks|
    decreases |risks|
  {
    if risks != [] {
      AllLowScoresCount(risks[..|risks| - 1]);
    }
  }

  /** The levels of `clauses`, position by position, built from the front
      as the analysis loop appends them. */
  function ClassifyAll(clauses: seq<string>): (risks: seq<Risk>)
    ensures |risks| == |clauses|
    decreases |clauses|
  {
    if clauses == [] then []
    else ClassifyAll(clauses[..|clauses| - 1]) + [DetectRisk(clauses[|clauses| - 1])]
  }

  /** The level at each position is that of the clause at that position. */
  lemma {:induction false} ClassifyAllAt(clauses: seq<string>)
    ensures forall k :: 0 <= k < |clauses| ==> ClassifyAll(clauses)[k] == DetectRisk(clauses[k])
    decreases |clauses|
  {
    if clauses != [] {
      var init := clauses[..|clauses| - 1];
      ClassifyAllAt(init);
      assert forall k :: 0 <= k < |init| ==> init[k] == clauses[k];
    }
  }

  /** One more clause adds its level at the end. */
  lemma ClassifyAllSnoc(clauses: seq<string>, i: nat)
    requires i < |clauses|
    ensures ClassifyAll(clauses[..i + 1]) == ClassifyAll(clauses[..i]) + [DetectRisk(clauses[i])]
  {
    assert clauses[..i + 1][..i] == clauses[..i];
  }

  /** One more level adds its score to the total. */
  lemma TotalScoreSnoc(risks: seq<Risk>, r: Risk)
    ensures TotalScore(risks + [r]) == TotalScore(risks) + RiskScore(r)
  {
    assert (risks + [r])[..|risks|] == risks;
  }

  /** The figures the page shows for one analysed text. */
  datatype Report = Report(
    clauses: seq<string>,
    risks: seq<Risk>,
    highCount: nat,
    mediumCount: nat,
    lowCount: nat,
    totalScore: int,
    overall: Band)

  /** Either the warning for a blank text or the report. */
  datatype Outcome = EmptyInput | Analyzed(report: Report)

  /** What a report of `text` must be: its clauses are those extracted from
      the text, each risk is the classification of the clause at the same
      position, the counts and the total are those of the risks, and the band
      is that of the total. */
  ghost predicate IsReportOf(text: string, r: Report) {
    && r.clauses == ExtractClauses(text)
    && r.risks == ClassifyAll(r.clauses)
    && r.highCount == CountOf(r.risks, High)
    && r.mediumCount == CountOf(r.risks, Medium)
    && r.lowCount == CountOf(r.risks, Low)
    && r.totalScore == TotalScore(r.risks)
    && r.overall == OverallBand(r.totalScore)
  }

  /** The analysis: a blank text takes the warning path; otherwise each
      clause is classified in order, its level appended to `risks` and its
      score added to the running total. */
  method Analyze(text: string) returns (outcome: Outcome)
    ensures outcome.EmptyInput? <==> IsBlank(text)
    ensures outcome.Analyzed? ==> IsReportOf(text, outcome.report)
    ensures outcome.Analyzed? ==>
      var r := outcome.report;
      && |r.risks| == |r.clauses|
      && (forall i :: 0 <= i < |r.clauses| ==> r.risks[i] == DetectRisk(r.clauses[i]))
      && r.highCount + r.mediumCount + r.lowCount == |r.clauses|
      && r.totalScore == 3 * r.highCount + 2 * r.mediumCount + r.lowCount
      && |r.clauses| <= r.totalScore <= 3 * |r.clauses|
  {
    if Strip(text) == [] {
      return EmptyInput;
    }
    var clauses := ExtractClauses(text);
    var risks: seq<Risk> := [];
    var total := 0;
    for i := 0 to |clauses|
      invariant risks == ClassifyAll(clauses[..i])
      invariant total == TotalScore(risks)
    {
      var r := DetectRisk(clauses[i]);
      ClassifyAllSnoc(clauses, i);
      TotalScoreSnoc(risks, r);
      risks := risks + [r];
      total := total + RiskScore(r);
    }
    assert clauses[..|clauses|] == clauses;
    ClassifyAllAt(clauses);
    CountsAndScore(risks);
    var report := Report(clauses, risks, CountOf(risks, High), CountOf(risks, Medium),
                         CountOf(risks, Low), total, OverallBand(total));
    return Analyzed(report);
  }
}
