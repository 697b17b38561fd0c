# Contract risk assessment: a verified model of the analysis core

The program is a one-page Streamlit app (`app.py`). The user pastes an
employment contract and presses "Analyze Contract". The app then:

1. splits the text into clauses (`extract_clauses`): split on every `.`,
   strip each piece, drop the pieces that are empty after stripping;
2. classifies each clause by keywords on its lower-cased form
   (`detect_risk`): "terminate"/"termination" gives High, else
   "penalty"/"fine" gives Medium, else "non-compete"/"competitor" gives
   High, else Low;
3. scores each level (`risk_score`: High 3, Medium 2, Low 1) and gives it a
   fixed explanation (`explain_risk`);
4. sums the scores in a loop, counts the clauses per level, and bands the
   total: at most 5 is LOW, at most 10 is MEDIUM, above that is HIGH;
5. shows a warning instead of a report when the text is blank.

This project models that core in Dafny:

- `text.dfy` (module `Text`): the Python string operations the core relies
  on. These are `str.strip()` over Python's whitespace set, ASCII
  `str.lower()`, substring `in`, and `str.split(".")` (which keeps empty
  pieces), with `Join` as its inverse.
- `clauses.dfy` (module `Clauses`): `extract_clauses` and what it promises
  of its result.
- `risk.dfy` (module `RiskRules`): `detect_risk`, `risk_score` and
  `explain_risk`.
- `analysis.dfy` (module `Analysis`): the button handler. It is the
  imperative method `Analyze`, whose loop appends to `risks` and
  accumulates `total_score` exactly as the script does. It is proved
  against the specification functions `ClassifyAll`, `TotalScore`,
  `CountOf` and `OverallBand`.
- `scenarios.dfy` (module `Scenarios`): whole inputs worked through to
  their report:
  - the three-sentence contract (High, Low, High, total 7, MEDIUM);
  - two keyword-free sentences (total 2, LOW);
  - a text without a period (one Low clause, total 1, LOW);
  - whitespace only (the warning);
  - a clause with both a termination and a penalty keyword (High);
  - the edge cases of literal matching.

The keyword rules are tried in the order the code uses: termination, then
penalty, then competition. The order matters for a clause such as
"Competitor fine": the code makes it Medium, and so does this model
(`RiskRules.PenaltyBeforeCompetition`, `RiskRules.FineAndCompetitorIsMedium`).

The blank guard tests `contract_text.strip() == ""` only. A text made only
of periods (`"..."`) is therefore not blank. It produces a report with no
clauses, total 0 and band LOW (`Scenarios.PeriodsOnly`).

## Model

| member | source | states |
|---|---|---|
| Text.IsSpace | app.py:27 | the characters `str.strip()` removes: those for which Python's `str.isspace()` holds; its meaning for stripping is given by `Text.StripLeft`, `Text.StripRight` and `Text.StripSpec` |
| Text.Strip | app.py:27 | `str.strip()`; `Text.StripSpec` proves the result trimmed and equal to the input with whitespace-only borders cut off, and `Text.StripEmptyIff` proves it empty exactly for all-whitespace input |
| Text.IsBlank | app.py:58 | the guard `contract_text.strip() == ""`; `Text.StripEmptyIff` proves it holds exactly when every character is whitespace |
| Text.Lower | app.py:30 | `str.lower()` on ASCII letters; the result has the input's length, each 'A'..'Z' becomes its lower-case letter and every other character is kept (`Text.LowerChar`), and `Text.LowerIdempotent` and `Text.LowerConcat` prove it idempotent and character by character |
| Text.Contains | app.py:31-35 | Python's substring `in`; `Text.LowerContainsMiddle`, `Text.MissingCharNotContained` and `Text.MissingPairNotContained` give when it holds and when it cannot |
| Text.StripLeft | app.py:27 | the result is a suffix of the input, everything dropped is whitespace, and it does not start with whitespace |
| Text.StripRight | app.py:27 | the result is a prefix of the input, everything dropped is whitespace, and it does not end with whitespace |
| Text.StripSpec | app.py:27 | `strip()` gives a trimmed string that is the input with whitespace-only borders removed on both sides |
| Text.StripEmptyIff | app.py:27 | a piece strips to the empty string exactly when it is all whitespace |
| Text.StripTrimmed | app.py:27 | stripping an already trimmed string changes nothing |
| Text.StripPadded | app.py:27 | leading whitespace in front of a trimmed string is removed entirely |
| Text.StripSpaceCons | app.py:27 | one whitespace character in front never changes the stripped result |
| Text.StripKeepsOut | app.py:27 | stripping cannot introduce a character that the input lacks |
| Text.LowerIdempotent | app.py:30 | lower-casing twice is the same as lower-casing once |
| Text.LowerConcat | app.py:30 | lower-casing works character by character, so it distributes over concatenation |
| Text.LowerContainsMiddle | app.py:30-31 | a lower-case keyword anywhere in a clause is found in the lower-cased clause |
| Text.MissingCharNotContained | app.py:31 | a text lacking a character of the keyword does not contain the keyword |
| Text.MissingPairNotContained | app.py:31 | a text in which two adjacent keyword characters never stand side by side does not contain the keyword |
| Text.Split | app.py:26 | splitting always yields at least one piece, even for the empty text |
| Text.SplitCount | app.py:26 | the number of pieces is the number of separators plus one, so empty pieces are kept |
| Text.SplitPiecesLackSep | app.py:26 | no piece contains the separator |
| Text.JoinSplit | app.py:26 | joining the pieces with the separator gives the original text back |
| Text.SplitJoin | app.py:26 | splitting a join of separator-free pieces gives those pieces back |
| Text.SplitConcat | app.py:26 | splitting `a + sep + b` gives the pieces of `a` followed by the pieces of `b` |
| Text.SplitNoSep | app.py:26 | a text without the separator is one piece, itself |
| Clauses.KeepPiece | app.py:27 | one step of the comprehension: keep `c.strip()` when it is non-empty; `Clauses.KeepPieceIsClause` proves that what it keeps from a period-free piece is a clause |
| Clauses.ExtractClauses | app.py:25-27 | `extract_clauses`; `Clauses.ExtractClausesAreClauses`, `Clauses.ExtractClausesConcat`, `Clauses.ExtractEmptyIff` and `Clauses.ExtractJoin` give its clauses' form, their order, when there are none, and the round trip |
| Clauses.KeepClauses | app.py:27 | the comprehension keeps at most one clause per piece |
| Clauses.KeepClausesAreClauses | app.py:27 | period-free pieces yield only non-empty, trimmed, period-free clauses |
| Clauses.KeepClausesConcat | app.py:27 | the comprehension keeps order: the clauses of `a + b` are those of `a` followed by those of `b` |
| Clauses.KeepClausesEmptyIff | app.py:27 | no clause is kept exactly when every piece is whitespace only |
| Clauses.ExtractClausesAreClauses | app.py:25-27 | every extracted clause is non-empty, has no surrounding whitespace and contains no period |
| Clauses.ExtractClausesBound | app.py:25-27 | there are at most one more clauses than periods |
| Clauses.ExtractClausesConcat | app.py:25-27 | the clauses of `a . b` are those of `a` followed by those of `b`, in order |
| Clauses.ExtractSpaceBefore | app.py:25-27 | whitespace in front of a text, such as the space after a period, changes none of its clauses |
| Clauses.ExtractNoPeriod | app.py:25-27 | a non-blank text without a period is exactly one clause, its stripped form |
| Clauses.ExtractClause | app.py:25-27 | a clause on its own extracts to itself |
| Clauses.ExtractPadded | app.py:25-27 | a clause preceded by whitespace extracts to the clause alone |
| Clauses.SplitPiecesAllSpace | app.py:26-27 | every piece of the split is whitespace exactly when the text is made only of periods and whitespace |
| Clauses.ExtractEmptyIff | app.py:25-27 | no clause is extracted exactly when the text is made only of periods and whitespace |
| Clauses.BlankHasNoClauses | app.py:25-27 | a blank text has no clauses |
| Clauses.ExtractJoin | app.py:25-27 | clauses joined with periods extract back to exactly those clauses |
| Clauses.ExtractIdempotent | app.py:25-27 | re-joining the extracted clauses and extracting again yields the same clauses |
| RiskRules.DetectRisk | app.py:29-38 | `detect_risk`; `RiskRules.DetectRiskLevels` gives the exact condition for each level in the code's rule order, and `RiskRules.DetectRiskCaseInsensitive` its independence from letter case |
| RiskRules.DetectRiskLevels | app.py:29-38 | High exactly when termination matches, or competition matches and penalty does not; Medium exactly when penalty matches and termination does not; Low exactly when no group matches; all matched against the lower-cased clause |
| RiskRules.DetectRiskCaseInsensitive | app.py:30 | a clause and its lower-cased form get the same level |
| RiskRules.SameLowerSameRisk | app.py:30 | clauses that differ only in letter case get the same level |
| RiskRules.TerminationWins | app.py:31-32 | a termination keyword makes the clause High, whatever else it mentions |
| RiskRules.PenaltyBeforeCompetition | app.py:33-36 | a clause with penalty and competition keywords and no termination keyword is Medium |
| RiskRules.FineAndCompetitorIsMedium | app.py:33-36 | "Competitor fine" is Medium |
| RiskRules.DefineMatchesFine | app.py:33-34 | matching is raw substring containment: "We define it" contains "fine" and is Medium |
| RiskRules.UpperCaseKeyword | app.py:30-32 | "TERMINATE" and "terminate" are both High |
| RiskRules.RiskScore | app.py:40-46 | every score lies between 1 and 3 |
| RiskRules.RiskScoreMonotone | app.py:40-46 | one level is less severe than another exactly when its score is smaller |
| RiskRules.ExplainRisk | app.py:48-54 | every level has a non-empty explanation |
| RiskRules.ExplainRiskInjective | app.py:48-54 | distinct levels have distinct explanations |
| Analysis.OverallBand | app.py:113-118 | the band of a total; `Analysis.BandRanges` gives each band's range of totals and `Analysis.BandMonotone` its monotonicity |
| Analysis.CountOf | app.py:75-78 | `risks.count(level)`; `Analysis.CountsAndScore` proves the three counts add up to the number of risks and weigh to the total |
| Analysis.CountOfOccurrences | app.py:75-78 | the count of a level is its number of occurrences in the risks (its multiplicity), which is what `risks.count(level)` returns |
| Analysis.BandRanges | app.py:113-118 | LOW exactly for totals up to 5, MEDIUM exactly for 6 to 10, HIGH exactly above 10 |
| Analysis.BandMonotone | app.py:113-118 | a larger total never gives a lower band |
| Analysis.TotalScore | app.py:64-69 | the total lies between the number of clauses and three times that number |
| Analysis.CountsAndScore | app.py:69-78 | the three counts add up to the number of risks, and the total is 3 per High, 2 per Medium and 1 per Low |
| Analysis.ManyClausesAreHigh | app.py:69-118 | more than ten clauses give HIGH whatever their levels |
| Analysis.AllLowScoresCount | app.py:69 | when every clause is Low the total is the number of clauses |
| Analysis.ClassifyAll | app.py:63-68 | one level per clause |
| Analysis.ClassifyAllAt | app.py:66-68 | the level at each position is the classification of the clause at that position |
| Analysis.ClassifyAllSnoc | app.py:66-68 | one more clause appends its level at the end |
| Analysis.TotalScoreSnoc | app.py:69 | one more level adds its score to the total |
| Analysis.Analyze | app.py:57-78 | the warning is given exactly for blank text; otherwise the report holds the extracted clauses, each one's level, counts that add up to the number of clauses, and the total 3·High + 2·Medium + Low, which lies between one and three times the number of clauses; the band is that of the total |
| Scenarios.SentenceThen | app.py:25-27 | a clause followed by ". " contributes exactly that clause before the clauses of the rest |
| Scenarios.ExtractProse | app.py:25-27 | prose written as clauses each followed by ". " extracts back to those clauses |
| Scenarios.LastSentence | app.py:25-27 | a clause closed by a period extracts to the clause alone |
| Scenarios.ThreeSentences | app.py:25-27 | three period-closed sentences extract to their three clauses |
| Scenarios.TwoSentences | app.py:25-27 | two period-closed sentences extract to their two clauses |
| Scenarios.TerminationIsHigh | app.py:31-32 | "Employee may be terminated at will" is High |
| Scenarios.SalaryIsLow | app.py:37-38 | "The salary is $50000" is Low |
| Scenarios.NonCompeteIsHigh | app.py:35-36 | "Employee agrees to a non-compete for 2 years" is High |
| Scenarios.ContractReport | app.py:57-118 | the three-sentence contract gives risks High, Low, High, counts 2/0/1, total 7 and MEDIUM |
| Scenarios.ContractNotBlank | app.py:58 | the three-sentence contract passes the blank guard |
| Scenarios.MonthlyIsLow | app.py:37-38 | "Salary shall be paid monthly" is Low |
| Scenarios.HoursIsLow | app.py:37-38 | "Office hours are 9 to 5" is Low |
| Scenarios.ScheduleReport | app.py:57-118 | two Low sentences give two Low clauses, total 2 and LOW |
| Scenarios.ConfidentialIsLow | app.py:37-38 | "Employee shall not disclose confidential information" is Low |
| Scenarios.NoPeriodClause | app.py:57-118 | a text without a period is one Low clause here, with total 1 and LOW |
| Scenarios.SpacesAreBlank | app.py:58-59 | whitespace only is blank and takes the warning path |
| Scenarios.PeriodsOnly | app.py:58-118 | "..." passes the blank guard yet has no clauses: total 0 and LOW |
| Scenarios.TerminationBeforePenalty | app.py:31-34 | "If terminated early a penalty applies" mentions both termination and penalty, and is High |
| Scenarios.NonCompetitionIsLow | app.py:35-38 | matching is literal: "Non-competition" contains neither "non-compete" nor "competitor" and is Low |

## Left out

- The Streamlit page is not modelled: page setup, title, text area, button and the `st.*` output calls (app.py lines 1-22, 57, 72-120). The button press becomes a call of `Analysis.Analyze`, and the pasted text becomes its parameter.
- The bar chart of the counts (app.py lines 80-92) is left out. It is drawing only, and its three numbers are the counts `Analyze` reports.
- The per-clause cards (app.py lines 94-107) are left out: their HTML, the colour chosen per level, and the clause numbering. They call `detect_risk` again for each clause (line 98). That gives the level already stored at the same position, which `Analyze` states for every position.
- `explain_risk` is used only for display. Its three sentences are modelled literally, but nothing in the report depends on them.
- Text.Lower: lower-cases ASCII letters only, where Python's `str.lower()` also lowers non-ASCII letters. Only two non-ASCII characters lower to anything ASCII: U+0130 becomes "i" followed by U+0307, and U+212A becomes "k". No keyword contains "k", and in every keyword an "i" is followed by an ASCII letter, so `DetectRisk` gives the level `detect_risk` gives on every clause. The model does not state this as a lemma about Python's full lower-casing table.
- Whitespace for `strip()` is the set of code points that Python's `str.isspace()` accepts, listed in `Text.IsSpace`. Strings are sequences of Unicode code points, with no normalisation.
- Integers are unbounded in both Python and Dafny, so the total score cannot overflow and no wrap-around is modelled.
