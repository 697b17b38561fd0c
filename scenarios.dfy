/**
 Worked inputs: what any report produced by `Analyze` must contain for a
 few concrete contract texts, including the blank input and the edge cases
 of literal splitting and substring matching.

 Each sentence is handled as a concatenation of short pieces, so that
 lower-casing and keyword search are argued piece by piece.
 */
module Scenarios {
  import opened Text
  import opened Clauses
  import opened RiskRules
  import opened Analysis

  /** Clauses written out as prose, each followed by ". ". */
  function Prose(cs: seq<string>): string
    decreases |cs|
  {
    if cs == [] then [] else cs[0] + ". " + Prose(cs[1..])
  }

  /** One sentence in front of more prose. */
  lemma SentenceThen(c: string, rest: string)
    requires IsClause(c)
    ensures ExtractClauses(c + ". " + rest) == [c] + ExtractClauses(rest)
  {
    assert c + ". " + rest == c + ['.'] + ([' '] + rest);
    ExtractClause(c);
    ExtractSpaceBefore(' ', rest);
    ExtractClausesConcat(c, [' '] + rest);
  }

  /** Prose made of clauses splits back into exactly those clauses. */
  lemma {:induction false} ExtractProse(cs: seq<string>)
    requires AllClauses(cs)
    ensures ExtractClauses(Prose(cs)) == cs
    decreases |cs|
  {
    if cs == [] {
      assert Split([], '.') == [[]];
    } else {
      AllClausesUncons(cs);
      ExtractProse(cs[1..]);
      SentenceThen(cs[0], Prose(cs[1..]));
      HeadTail(cs);
    }
  }

  /** The last sentence of a text, closed by its period. */
  lemma LastSentence(c: string)
    requires IsClause(c)
    ensures ExtractClauses(c + ".") == [c]
  {
    assert c + "." == c + ['.'] + [];
    ExtractClausesConcat(c, []);
    ExtractClause(c);
    ExtractEmptyIff([]);
  }

  // The contract of three sentences.

  const Termination := "Employee may be terminated at will"
  const Salary := "The salary is $50000"
  // Written in pieces so that its proofs can work on one piece at a time.
  const NonCompete := "Employee " + "agrees to a " + "non-compete" + " for 2 years"
  const Contract := Termination + ". " + Salary + ". " + NonCompete + "."

  /** Two sentences, each closed by a period, split into their clauses. */
  lemma TwoSentences(a: string, b: string)
    requires IsClause(a) && IsClause(b)
    ensures ExtractClauses(a + ". " + b + ".") == [a, b]
  {
    calc {
      ExtractClauses(a + ". " + b + ".");
      { assert a + ". " + b + "." == a + ". " + (b + "."); }
      ExtractClauses(a + ". " + (b + "."));
      { LastSentence(b);
        SentenceThen(a, b + "."); }
      [a, b];
    }
  }

  /** Three sentences, each closed by a period, split into their clauses. */
  lemma ThreeSentences(a: string, b: string, c: string)
    requires IsClause(a) && IsClause(b) && IsClause(c)
    ensures ExtractClauses(a + ". " + b + ". " + c + ".") == [a, b, c]
  {
    calc {
      ExtractClauses(a + ". " + b + ". " + c + ".");
      { assert a + ". " + b + ". " + c + "." == a + ". " + (b + ". " + c + "."); }
      ExtractClauses(a + ". " + (b + ". " + c + "."));
      { SentenceThen(a, b + ". " + c + "."); }
      [a] + ExtractClauses(b + ". " + c + ".");
      { TwoSentences(b, c); }
      [a, b, c];
    }
  }

  lemma TerminationIsClause()
    ensures IsClause(Termination)
  {
  }

  lemma TerminationPieces()
    ensures Termination == "Employee may be " + "terminate" + "d at will"
  {
  }

  lemma TerminationIsHigh()
    ensures DetectRisk(Termination) == High
  {
    TerminationPieces();
    assert Lower("terminate") == "terminate";
    LowerContainsMiddle("Employee may be ", "terminate", "d at will");
  }

  lemma SalaryIsClause()
    ensures IsClause(Salary)
  {
  }

  lemma SalaryLowered()
    ensures Lower(Salary) == "the salary is $50000"
  {
  }

  lemma SalaryKeywords()
    ensures !MentionsTermination("the salary is $50000")
    ensures !MentionsPenalty("the salary is $50000")
    ensures !MentionsCompetition("the salary is $50000")
  {
    var c := "the salary is $50000";
    assert 'n' !in c && 'o' !in c;
    MissingCharNotContained(c, "terminate", 'n');
    MissingCharNotContained(c, "termination", 'n');
    MissingCharNotContained(c, "penalty", 'n');
    MissingCharNotContained(c, "fine", 'n');
    MissingCharNotContained(c, "non-compete", 'n');
    MissingCharNotContained(c, "competitor", 'o');
  }

  lemma SalaryIsLow()
    ensures DetectRisk(Salary) == Low
  {
    SalaryLowered();
    SalaryKeywords();
  }

  lemma NonCompeteIsClause()
    ensures IsClause(NonCompete)
  {
    assert '.' !in "Employee " && '.' !in "agrees to a ";
    assert '.' !in "non-compete" && '.' !in " for 2 years";
  }

  lemma NonCompeteLowered()
    ensures Lower(NonCompete) == "employee " + "agrees to a " + "non-compete" + " for 2 years"
  {
    LowerConcat("Employee " + "agrees to a " + "non-compete", " for 2 years");
    LowerConcat("Employee " + "agrees to a ", "non-compete");
    LowerConcat("Employee ", "agrees to a ");
    assert Lower("Employee ") == "employee ";
    assert Lower("agrees to a ") == "agrees to a ";
    assert Lower("non-compete") == "non-compete";
    assert Lower(" for 2 years") == " for 2 years";
  }

  lemma NonCompeteLacksI()
    ensures 'i' !in "employee " + "agrees to a " + "non-compete" + " for 2 years"
  {
  }

  lemma NonCompeteLacksNA()
    ensures !HasPair("employee " + "agrees to a " + "non-compete" + " for 2 years", 'n', 'a')
  {
    HasPairConcat("employee ", "agrees to a ", 'n', 'a');
    HasPairConcat("employee " + "agrees to a ", "non-compete", 'n', 'a');
    HasPairConcat("employee " + "agrees to a " + "non-compete", " for 2 years", 'n', 'a');
  }

  lemma NonCompeteKeywords()
    ensures var c := "employee " + "agrees to a " + "non-compete" + " for 2 years";
      !MentionsTermination(c) && !MentionsPenalty(c) && MentionsCompetition(c)
  {
    var c := "employee " + "agrees to a " + "non-compete" + " for 2 years";
    NonCompeteLacksI();
    NonCompeteLacksNA();
    MissingCharNotContained(c, "terminate", 'i');
    MissingCharNotContained(c, "termination", 'i');
    MissingCharNotContained(c, "fine", 'i');
    MissingPairNotContained(c, "penalty", 2);
    ContainsMiddle("employee " + "agrees to a ", "non-compete", " for 2 years");
  }

  lemma NonCompeteIsHigh()
    ensures DetectRisk(NonCompete) == High
  {
    NonCompeteLowered();
    NonCompeteKeywords();
  }

  lemma ContractClauses()
    ensures ExtractClauses(Contract) == [Termination, Salary, NonCompete]
  {
    TerminationIsClause();
    SalaryIsClause();
    NonCompeteIsClause();
    ThreeSentences(Termination, Salary, NonCompete);
  }

  /** The figures of the levels High, Low, High. */
  lemma HighLowHighFigures()
    ensures CountOf([High, Low, High], High) == 2
    ensures CountOf([High, Low, High], Medium) == 0
    ensures CountOf([High, Low, High], Low) == 1
    ensures TotalScore([High, Low, High]) == 7
  {
    assert [High, Low, High][..2] == [High, Low];
    assert [High, Low][..1] == [High];
  }

  lemma ContractRisks()
    ensures ClassifyAll([Termination, Salary, NonCompete]) == [High, Low, High]
  {
    TerminationIsHigh();
    SalaryIsLow();
    NonCompeteIsHigh();
    assert [Termination][..0] == [];
    assert ClassifyAll([Termination]) == [High];
    assert [Termination, Salary][..1] == [Termination];
    assert ClassifyAll([Termination, Salary]) == [High, Low];
    assert [Termination, Salary, NonCompete][..2] == [Termination, Salary];
  }

  /** The three-sentence contract: clauses High, Low, High, total 7, MEDIUM. */
  lemma ContractReport(r: Report)
    requires IsReportOf(Contract, r)
    ensures r.clauses == [Termination, Salary, NonCompete]
    ensures r.risks == [High, Low, High]
    ensures r.highCount == 2 && r.mediumCount == 0 && r.lowCount == 1
    ensures r.totalScore == 7 && r.overall == MediumBand
  {
    ContractClauses();
    ContractRisks();
    HighLowHighFigures();
  }

  /** The contract text is not blank, so the analysis produces a report. */
  lemma ContractNotBlank()
    ensures !IsBlank(Contract)
  {
    assert Contract[0] == Termination[0] == 'E';
    StripEmptyIff(Contract);
  }

  // Two clauses without any keyword.

  const Monthly := "Salary " + "shall be " + "paid monthly"
  const Hours := "Office " + "hours are 9 to 5"
  const Schedule := Monthly + ". " + Hours + "."

  lemma MonthlyIsClause()
    ensures IsClause(Monthly)
  {
    assert '.' !in "Salary " && '.' !in "shall be " && '.' !in "paid monthly";
  }

  lemma MonthlyLowered()
    ensures Lower(Monthly) == "salary " + "shall be " + "paid monthly"
  {
    LowerConcat("Salary " + "shall be ", "paid monthly");
    LowerConcat("Salary ", "shall be ");
    assert Lower("Salary ") == "salary ";
    assert Lower("shall be ") == "shall be ";
    assert Lower("paid monthly") == "paid monthly";
  }

  lemma MonthlyLacksPairs()
    ensures !HasPair("salary " + "shall be " + "paid monthly", 't', 'e')
    ensures !HasPair("salary " + "shall be " + "paid monthly", 'p', 'e')
  {
    HasPairConcat("salary ", "shall be ", 't', 'e');
    HasPairConcat("salary " + "shall be ", "paid monthly", 't', 'e');
    HasPairConcat("salary ", "shall be ", 'p', 'e');
    HasPairConcat("salary " + "shall be ", "paid monthly", 'p', 'e');
  }

  lemma MonthlyKeywords()
    ensures var c := "salary " + "shall be " + "paid monthly";
      !MentionsTermination(c) && !MentionsPenalty(c) && !MentionsCompetition(c)
  {
    var c := "salary " + "shall be " + "paid monthly";
    assert 'f' !in c && 'c' !in c;
    MonthlyLacksPairs();
    MissingPairNotContained(c, "terminate", 0);
    MissingPairNotContained(c, "termination", 0);
    MissingPairNotContained(c, "penalty", 0);
    MissingCharNotContained(c, "fine", 'f');
    MissingCharNotContained(c, "non-compete", 'c');
    MissingCharNotContained(c, "competitor", 'c');
  }

  lemma MonthlyIsLow()
    ensures DetectRisk(Monthly) == Low
  {
    MonthlyLowered();
    MonthlyKeywords();
  }

  lemma HoursIsClause()
    ensures IsClause(Hours)
  {
    assert '.' !in "Office " && '.' !in "hours are 9 to 5";
  }

  lemma HoursLowered()
    ensures Lower(Hours) == "office " + "hours are 9 to 5"
  {
    LowerConcat("Office ", "hours are 9 to 5");
    assert Lower("Office ") == "office ";
    assert Lower("hours are 9 to 5") == "hours are 9 to 5";
  }

  lemma HoursKeywords()
    ensures var c := "office " + "hours are 9 to 5";
      !MentionsTermination(c) && !MentionsPenalty(c) && !MentionsCompetition(c)
  {
    var c := "office " + "hours are 9 to 5";
    assert 'm' !in c && 'n' !in c;
    MissingCharNotContained(c, "terminate", 'm');
    MissingCharNotContained(c, "termination", 'm');
    MissingCharNotContained(c, "penalty", 'n');
    MissingCharNotContained(c, "fine", 'n');
    MissingCharNotContained(c, "non-compete", 'n');
    MissingCharNotContained(c, "competitor", 'm');
  }

  lemma HoursIsLow()
    ensures DetectRisk(Hours) == Low
  {
    HoursLowered();
    HoursKeywords();
  }

  /** Two Low sentences: total 2, LOW. */
  lemma ScheduleReport(r: Report)
    requires IsReportOf(Schedule, r)
    ensures r.clauses == [Monthly, Hours] && r.risks == [Low, Low]
    ensures r.lowCount == 2 && r.totalScore == 2 && r.overall == LowBand
  {
    MonthlyIsClause();
    HoursIsClause();
    TwoSentences(Monthly, Hours);
    MonthlyIsLow();
    HoursIsLow();
    assert [Monthly, Hours][..1] == [Monthly];
    assert ClassifyAll([Monthly]) == [Low];
    assert [Low, Low][..1] == [Low];
    assert CountOf([Low], Low) == 1;
  }

  // A text without a period.

  const Confidential := "Employee " + "shall not " + "disclose " + "confidential " + "information"

  lemma ConfidentialIsClause()
    ensures IsClause(Confidential)
  {
    assert '.' !in "Employee " && '.' !in "shall not " && '.' !in "disclose ";
    assert '.' !in "confidential " && '.' !in "information";
  }

  lemma ConfidentialLowered()
    ensures Lower(Confidential)
         == "employee " + "shall not " + "disclose " + "confidential " + "information"
  {
    LowerConcat("Employee " + "shall not " + "disclose " + "confidential ", "information");
    LowerConcat("Employee " + "shall not " + "disclose ", "confidential ");
    LowerConcat("Employee " + "shall not ", "disclose ");
    LowerConcat("Employee ", "shall not ");
    assert Lower("Employee ") == "employee ";
    assert Lower("shall not ") == "shall not ";
    assert Lower("disclose ") == "disclose ";
    assert Lower("confidential ") == "confidential ";
    assert Lower("information") == "information";
  }

  /** No piece has the pair `x y`, and every seam lies after a space. */
  lemma NoPairInFive(a: string, b: string, c: string, d: string, e: string, x: char, y: char)
    requires x != ' '
    requires a != [] && a[|a| - 1] == ' ' && b != [] && b[|b| - 1] == ' '
    requires c != [] && c[|c| - 1] == ' ' && d != [] && d[|d| - 1] == ' '
    requires !HasPair(a, x, y) && !HasPair(b, x, y) && !HasPair(c, x, y)
    requires !HasPair(d, x, y) && !HasPair(e, x, y)
    ensures !HasPair(a + b + c + d + e, x, y)
  {
    HasPairConcat(a, b, x, y);
    HasPairConcat(a + b, c, x, y);
    HasPairConcat(a + b + c, d, x, y);
    HasPairConcat(a + b + c + d, e, x, y);
  }

  lemma ConfidentialLacksPair(x: char, y: char)
    requires (x, y) in {('e', 'r'), ('p', 'e'), ('n', 'e')}
    ensures !HasPair("employee " + "shall not " + "disclose " + "confidential " + "information", x, y)
  {
    NoPairInFive("employee ", "shall not ", "disclose ", "confidential ", "information", x, y);
  }

  lemma ConfidentialNoTermination()
    ensures var c := "employee " + "shall not " + "disclose " + "confidential " + "information";
      !MentionsTermination(c) && !MentionsPenalty(c)
  {
    var c := "employee " + "shall not " + "disclose " + "confidential " + "information";
    ConfidentialLacksPair('e', 'r');
    ConfidentialLacksPair('p', 'e');
    ConfidentialLacksPair('n', 'e');
    MissingPairNotContained(c, "terminate", 1);
    MissingPairNotContained(c, "termination", 1);
    MissingPairNotContained(c, "penalty", 0);
    MissingPairNotContained(c, "fine", 2);
  }

  lemma ConfidentialNoCompetition()
    ensures !MentionsCompetition("employee " + "shall not " + "disclose " + "confidential " + "information")
  {
    var c := "employee " + "shall not " + "disclose " + "confidential " + "information";
    ConfidentialLacksPair('p', 'e');
    assert '-' !in c;
    MissingCharNotContained(c, "non-compete", '-');
    MissingPairNotContained(c, "competitor", 3);
  }

  lemma ConfidentialIsLow()
    ensures DetectRisk(Confidential) == Low
  {
    ConfidentialLowered();
    ConfidentialNoTermination();
    ConfidentialNoCompetition();
  }

  /** A text without a period is one clause; this one mentions no keyword:
      Low, total 1, LOW. */
  lemma NoPeriodClause(r: Report)
    requires IsReportOf(Confidential, r)
    ensures r.clauses == [Confidential] && r.risks == [Low]
    ensures r.totalScore == 1 && r.overall == LowBand
  {
    ConfidentialIsClause();
    ExtractClause(Confidential);
    ConfidentialIsLow();
    assert ClassifyAll([Confidential]) == [Low];
  }

  // Blank and degenerate inputs.

  /** Whitespace only is blank: the analysis takes the warning path. */
  lemma SpacesAreBlank()
    ensures IsBlank("   ")
  {
    StripEmptyIff("   ");
  }

  /** A text of periods only is not blank, so it passes the guard, yet it has
      no clause: the report is empty with total 0 and band LOW. */
  lemma PeriodsOnly(r: Report)
    requires IsReportOf("...", r)
    ensures !IsBlank("...")
    ensures r.clauses == [] && r.totalScore == 0 && r.overall == LowBand
  {
    StripEmptyIff("...");
    assert !IsSpace("..."[0]);
    ExtractEmptyIff("...");
  }

  // Precedence and literal matching.

  const Early := "If " + "terminate" + "d early a " + "penalty" + " applies"

  /** A clause with both a termination and a penalty keyword is High: the
      termination rule is tried first. */
  lemma TerminationBeforePenalty()
    ensures MentionsTermination(Lower(Early)) && MentionsPenalty(Lower(Early))
    ensures DetectRisk(Early) == High
  {
    assert Lower("terminate") == "terminate" && Lower("penalty") == "penalty";
    assert Early == "If " + "terminate" + ("d early a " + "penalty" + " applies");
    LowerContainsMiddle("If ", "terminate", "d early a " + "penalty" + " applies");
    LowerContainsMiddle("If " + "terminate" + "d early a ", "penalty", " applies");
  }

  lemma NonCompetitionLowered()
    ensures Lower("Non-competition") == "non-competition"
  {
  }

  lemma NonCompetitionKeywords()
    ensures !MentionsTermination("non-competition")
    ensures !MentionsPenalty("non-competition")
  {
    var c := "non-competition";
    MissingCharNotContained(c, "terminate", 'a');
    MissingCharNotContained(c, "termination", 'a');
    MissingCharNotContained(c, "penalty", 'a');
    MissingCharNotContained(c, "fine", 'f');
  }

  lemma NonCompetitionNotCompetition()
    ensures !MentionsCompetition("non-competition")
  {
    var c := "non-competition";
    MissingPairNotContained(c, "non-compete", 9);
    MissingCharNotContained(c, "competitor", 'r');
  }

  /** Matching is literal: "non-competition" contains neither "non-compete"
      nor "competitor", so this clause is Low. */
  lemma NonCompetitionIsLow()
    ensures DetectRisk("Non-competition") == Low
  {
    NonCompetitionLowered();
    NonCompetitionKeywords();
    NonCompetitionNotCompetition();
  }
}
