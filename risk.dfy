/**
 The per-clause rules: keyword classification (`detect_risk`), the score of
 a risk level (`risk_score`) and its fixed explanation (`explain_risk`).
 */
module RiskRules {
  import opened Text

  /** The three risk levels; the severity order is Low < Medium < High. */
  datatype Risk = Low | Medium | High

  /** Strict severity order between levels. */
  predicate LessSevere(a: Risk, b: Risk) {
    (a == Low && b != Low) || (a == Medium && b == High)
  }

  /** The keyword groups, matched against the lower-cased clause. */
  predicate MentionsTermination(c: string) {
    Contains(c, "terminate") || Contains(c, "termination")
  }

  predicate MentionsPenalty(c: string) {
    Contains(c, "penalty") || Contains(c, "fine")
  }

  predicate MentionsCompetition(c: string) {
    Contains(c, "non-compete") || Contains(c, "competitor")
  }

  /** `detect_risk(clause)`: lower-case the clause, then the first keyword
      group that matches decides, in the order termination, penalty,
      competition; a clause matching none is Low. */
  function DetectRisk(clause: string): Risk {
    var c := Lower(clause);
    if MentionsTermination(c) then High
    else if MentionsPenalty(c) then Medium
    else if MentionsCompetition(c) then High
    else Low
  }

  /** Each level is returned under exactly one condition on the lower-cased
      clause. */
  lemma DetectRiskLevels(clause: string)
    ensures var c := Lower(clause);
      DetectRisk(clause) == High <==> MentionsTermination(c) || (!MentionsPenalty(c) && MentionsCompetition(c))
    ensures var c := Lower(clause);
      DetectRisk(clause) == Medium <==> !MentionsTermination(c) && MentionsPenalty(c)
    ensures var c := Lower(clause);
      DetectRisk(clause) == Low <==> !MentionsTermination(c) && !MentionsPenalty(c) && !MentionsCompetition(c)
  {
  }

  /** Classification ignores letter case: a clause and its lower-cased form
      get the same level. */
  lemma DetectRiskCaseInsensitive(clause: string)
    ensures DetectRisk(Lower(clause)) == DetectRisk(clause)
  {
    LowerIdempotent(clause);
  }

  /** Two clauses that differ only in the case of their letters get the same
      level. */
  lemma SameLowerSameRisk(a: string, b: string)
    requires Lower(a) == Lower(b)
    ensures DetectRisk(a) == DetectRisk(b)
  {
  }

  /** A termination keyword wins over every other keyword. */
  lemma TerminationWins(clause: string)
    requires MentionsTermination(Lower(clause))
    ensures DetectRisk(clause) == High
  {
  }

  /** The penalty group is tried before the competition group: a clause
      with both and no termination keyword is Medium, not High. */
  lemma PenaltyBeforeCompetition(clause: string)
    requires !MentionsTermination(Lower(clause))
    requires MentionsPenalty(Lower(clause)) && MentionsCompetition(Lower(clause))
    ensures DetectRisk(clause) == Medium
  {
  }

  lemma FineCompetitorLowered()
    ensures Lower("Competitor fine") == "competitor fine"
  {
  }

  lemma FineCompetitorKeywords()
    ensures !MentionsTermination("competitor fine")
    ensures MentionsPenalty("competitor fine")
    ensures MentionsCompetition("competitor fine")
  {
    var c := "competitor fine";
    MissingCharNotContained(c, "terminate", 'a');
    MissingCharNotContained(c, "termination", 'a');
    ContainsAt(c, "fine", 11);
    ContainsAt(c, "competitor", 0);
  }

  /** "Competitor fine" mentions a competitor and a fine, and the fine
      decides: it is classified Medium. */
  lemma FineAndCompetitorIsMedium()
    ensures DetectRisk("Competitor fine") == Medium
  {
    FineCompetitorLowered();
    FineCompetitorKeywords();
  }

  lemma DefineLowered()
    ensures Lower("We define it") == "we define it"
  {
  }

  lemma DefineKeywords()
    ensures !MentionsTermination("we define it")
    ensures MentionsPenalty("we define it")
  {
    var c := "we define it";
    MissingCharNotContained(c, "terminate", 'm');
    MissingCharNotContained(c, "termination", 'm');
    assert c[5] == 'f' && c[6] == 'i' && c[7] == 'n' && c[8] == 'e';
    ContainsAt(c, "fine", 5);
  }

  /** Matching is raw substring containment: "define" contains "fine". */
  lemma DefineMatchesFine()
    ensures DetectRisk("We define it") == Medium
  {
    DefineLowered();
    DefineKeywords();
  }

  lemma TerminateLowered()
    ensures Lower("TERMINATE") == "terminate"
    ensures Lower("terminate") == "terminate"
  {
  }

  /** Upper-case keywords match: "TERMINATE" and "terminate" are both High. */
  lemma UpperCaseKeyword()
    ensures DetectRisk("TERMINATE") == DetectRisk("terminate") == High
  {
    TerminateLowered();
    ContainsAt("terminate", "terminate", 0);
  }

  /** `risk_score(risk)`: High 3, Medium 2, Low 1. */
  function RiskScore(r: Risk): (score: int)
    ensures 1 <= score <= 3
  {
    match r
    case High => 3
    case Medium => 2
    case Low => 1
  }

  /** The score is strictly monotone in severity, in both directions. */
  lemma RiskScoreMonotone(a: Risk, b: Risk)
    ensures LessSevere(a, b) <==> RiskScore(a) < RiskScore(b)
  {
  }

  /** `explain_risk(risk)`: a fixed sentence per level. */
  function ExplainRisk(r: Risk): (text: string)
    ensures text != []
  {
    match r
    case High => "This clause may be risky and needs careful review."
    case Medium => "This clause may cause issues in some situations."
    case Low => "This clause is generally safe."
  }

  /** The explanation depends on the level only and tells the levels apart. */
  lemma ExplainRiskInjective(a: Risk, b: Risk)
    requires ExplainRisk(a) == ExplainRisk(b)
    ensures a == b
  {
  }
}
