/**
 Clause extraction (`extract_clauses`): the text is split on every `.`,
 each piece is stripped of surrounding whitespace, and the pieces that are
 empty after stripping are dropped.
 */
module Clauses {
  import opened Text

  /** What the extractor promises of every clause it returns. */
  predicate IsClause(c: string) {
    c != [] && IsTrimmed(c) && '.' !in c
  }

  /** One step of the comprehension: the stripped piece, if it is kept. */
  function KeepPiece(piece: string): seq<string> {
    if Strip(piece) == [] then [] else [Strip(piece)]
  }

  /** The list comprehension over the pieces of the split: keep the
      stripped piece when it is not empty, in the order of the pieces. */
  function KeepClauses(pieces: seq<string>): (clauses: seq<string>)
    ensures |clauses| <= |pieces|
    decreases |pieces|
  {
    if pieces == [] then [] else KeepPiece(pieces[0]) + KeepClauses(pieces[1..])
  }

  /** `extract_clauses(text)`. */
  function ExtractClauses(text: string): seq<string> {
    KeepClauses(Split(text, '.'))
  }

  /** There is at most one clause per piece of the split, so at most one
      more than there are periods. */
  lemma ExtractClausesBound(text: string)
    ensures |ExtractClauses(text)| <= CountChar(text, '.') + 1
  {
    SplitCount(text, '.');
  }

  /** Every element of `cs` is a clause. */
  predicate AllClauses(cs: seq<string>) {
    forall i :: 0 <= i < |cs| ==> IsClause(cs[i])
  }

  lemma AllClausesConcat(a: seq<string>, b: seq<string>)
    requires AllClauses(a) && AllClauses(b)
    ensures AllClauses(a + b)
  {
    forall i | 0 <= i < |a + b| ensures IsClause((a + b)[i]) {
      if i < |a| {
        assert (a + b)[i] == a[i];
      } else {
        assert (a + b)[i] == b[i - |a|];
      }
    }
  }

  lemma AllClausesUncons(cs: seq<string>)
    requires AllClauses(cs) && cs != []
    ensures IsClause(cs[0]) && AllClauses(cs[1..])
  {
    assert forall i :: 0 <= i < |cs[1..]| ==> cs[1..][i] == cs[i + 1];
  }

  /** A piece without a period is kept, if at all, as a clause. */
  lemma KeepPieceIsClause(piece: string)
    requires '.' !in piece
    ensures AllClauses(KeepPiece(piece))
  {
    StripSpec(piece);
    StripKeepsOut(piece, '.');
  }

  /** Pieces without a period give clauses: non-empty, trimmed and without
      a period. */
  lemma {:induction false} KeepClausesAreClauses(pieces: seq<string>)
    requires forall j :: 0 <= j < |pieces| ==> '.' !in pieces[j]
    ensures AllClauses(KeepClauses(pieces))
    decreases |pieces|
  {
    if pieces != [] {
      assert forall j :: 0 <= j < |pieces[1..]| ==> pieces[1..][j] == pieces[j + 1];
      KeepClausesAreClauses(pieces[1..]);
      KeepPieceIsClause(pieces[0]);
      AllClausesConcat(KeepPiece(pieces[0]), KeepClauses(pieces[1..]));
    }
  }

  /** Every extracted clause is non-empty, trimmed and free of periods. */
  lemma ExtractClausesAreClauses(text: string)
    ensures AllClauses(ExtractClauses(text))
  {
    SplitPiecesLackSep(text, '.');
    KeepClausesAreClauses(Split(text, '.'));
  }

  lemma {:induction false} KeepClausesConcat(a: seq<string>, b: seq<string>)
    ensures KeepClauses(a + b) == KeepClauses(a) + KeepClauses(b)
    decreases |a|
  {
    if a == [] {
      assert a + b == b;
    } else {
      ConsConcat(a, b);
      KeepClausesCons(a[0], a[1..] + b);
      KeepClausesCons(a[0], a[1..]);
      HeadTail(a);
      KeepClausesConcat(a[1..], b);
      ConcatAssoc(KeepPiece(a[0]), KeepClauses(a[1..]), KeepClauses(b));
    }
  }

  /** Clauses keep the order of the text: the clauses of `a . b` are those
      of `a` followed by those of `b`. */
  lemma ExtractClausesConcat(a: string, b: string)
    ensures ExtractClauses(a + ['.'] + b) == ExtractClauses(a) + ExtractClauses(b)
  {
    SplitConcat(a, b, '.');
    KeepClausesConcat(Split(a, '.'), Split(b, '.'));
  }

  lemma KeepClausesCons(p: string, pieces: seq<string>)
    ensures KeepClauses([p] + pieces) == KeepPiece(p) + KeepClauses(pieces)
  {
    assert ([p] + pieces)[1..] == pieces;
  }

  /** A whitespace character in front of a text changes none of its
      clauses, as with the space after a period. */
  lemma ExtractSpaceBefore(c: char, text: string)
    requires IsSpace(c)
    ensures ExtractClauses([c] + text) == ExtractClauses(text)
  {
    var pieces := Split(text, '.');
    assert c != '.';
    SplitCons(c, text, '.');
    StripSpaceCons(c, pieces[0]);
    assert KeepPiece([c] + pieces[0]) == KeepPiece(pieces[0]);
    calc {
      ExtractClauses([c] + text);
      KeepClauses([[c] + pieces[0]] + pieces[1..]);
      { KeepClausesCons([c] + pieces[0], pieces[1..]); }
      KeepPiece(pieces[0]) + KeepClauses(pieces[1..]);
      { KeepClausesCons(pieces[0], pieces[1..]);
        assert [pieces[0]] + pieces[1..] == pieces; }
      KeepClauses(pieces);
    }
  }

  /** A text without a period that is not blank is one clause: its stripped
      form. */
  lemma ExtractNoPeriod(text: string)
    requires '.' !in text && !IsBlank(text)
    ensures ExtractClauses(text) == [Strip(text)]
  {
    SplitNoSep(text, '.');
    assert Split(text, '.')[1..] == [];
  }

  /** A clause extracts to itself. */
  lemma ExtractClause(c: string)
    requires IsClause(c)
    ensures ExtractClauses(c) == [c]
  {
    StripTrimmed(c);
    ExtractNoPeriod(c);
  }

  /** A clause preceded by whitespace, as after the space that follows a
      period, extracts to the clause alone. */
  lemma ExtractPadded(lead: string, c: string)
    requires AllSpace(lead) && IsClause(c)
    ensures ExtractClauses(lead + c) == [c]
  {
    StripPadded(lead, c);
    assert '.' !in lead + c by {
      assert forall i :: 0 <= i < |lead| ==> (lead + c)[i] == lead[i];
      assert forall i :: |lead| <= i < |lead + c| ==> (lead + c)[i] == c[i - |lead|];
    }
    ExtractNoPeriod(lead + c);
  }

  lemma {:induction false} KeepClausesEmptyIff(pieces: seq<string>)
    ensures KeepClauses(pieces) == [] <==> AllPiecesSpace(pieces)
    decreases |pieces|
  {
    if pieces != [] {
      HeadTail(pieces);
      KeepClausesCons(pieces[0], pieces[1..]);
      AllPiecesSpaceCons(pieces[0], pieces[1..]);
      StripEmptyIff(pieces[0]);
      KeepClausesEmptyIff(pieces[1..]);
    }
  }

  /** Every piece is whitespace only. */
  predicate AllPiecesSpace(pieces: seq<string>) {
    forall j :: 0 <= j < |pieces| ==> AllSpace(pieces[j])
  }

  /** Every character is a period or whitespace. */
  predicate PeriodsAndSpace(text: string) {
    forall i :: 0 <= i < |text| ==> text[i] == '.' || IsSpace(text[i])
  }

  lemma AllSpaceCons(c: char, s: string)
    ensures AllSpace([c] + s) <==> IsSpace(c) && AllSpace(s)
  {
    var t := [c] + s;
    assert t[0] == c;
    assert forall k :: 0 <= k < |s| ==> t[k + 1] == s[k];
    assert forall i :: 1 <= i < |t| ==> t[i] == s[i - 1];
  }

  lemma AllPiecesSpaceCons(p: string, pieces: seq<string>)
    ensures AllPiecesSpace([p] + pieces) <==> AllSpace(p) && AllPiecesSpace(pieces)
  {
    var ps := [p] + pieces;
    assert ps[0] == p;
    assert forall j :: 0 <= j < |pieces| ==> ps[j + 1] == pieces[j];
    assert forall j :: 1 <= j < |ps| ==> ps[j] == pieces[j - 1];
  }

  /** Every piece of the split is whitespace exactly when every character of
      the text is a period or whitespace. */
  lemma {:induction false} SplitPiecesAllSpace(text: string)
    ensures AllPiecesSpace(Split(text, '.')) <==> PeriodsAndSpace(text)
    decreases |text|
  {
    if text != [] {
      var tail := text[1..];
      SplitPiecesAllSpace(tail);
      var rest := Split(tail, '.');
      assert PeriodsAndSpace(text) <==> (text[0] == '.' || IsSpace(text[0])) && PeriodsAndSpace(tail) by {
        assert forall i :: 1 <= i < |text| ==> tail[i - 1] == text[i];
      }
      if text[0] == '.' {
        AllPiecesSpaceCons([], rest);
      } else {
        assert [rest[0]] + rest[1..] == rest;
        AllPiecesSpaceCons(rest[0], rest[1..]);
        AllPiecesSpaceCons([text[0]] + rest[0], rest[1..]);
        AllSpaceCons(text[0], rest[0]);
      }
    }
  }

  /** The extractor finds no clause exactly when the text is made only of
      periods and whitespace. */
  lemma ExtractEmptyIff(text: string)
    ensures ExtractClauses(text) == [] <==> PeriodsAndSpace(text)
  {
    KeepClausesEmptyIff(Split(text, '.'));
    SplitPiecesAllSpace(text);
  }

  /** Blank text has no clauses. */
  lemma BlankHasNoClauses(text: string)
    requires IsBlank(text)
    ensures ExtractClauses(text) == []
  {
    StripEmptyIff(text);
    ExtractEmptyIff(text);
  }

  /** Joining clauses with periods and extracting again gives the same
      clauses back. */
  lemma {:induction false} ExtractJoin(clauses: seq<string>)
    requires AllClauses(clauses)
    ensures ExtractClauses(Join(clauses, '.')) == clauses
    decreases |clauses|
  {
    if clauses == [] {
      assert Split([], '.') == [[]];
    } else if |clauses| == 1 {
      ExtractClause(clauses[0]);
    } else {
      var rest := clauses[1..];
      AllClausesUncons(clauses);
      ExtractJoin(rest);
      ExtractClause(clauses[0]);
      assert Join(clauses, '.') == clauses[0] + ['.'] + Join(rest, '.');
      ExtractClausesConcat(clauses[0], Join(rest, '.'));
      assert [clauses[0]] + rest == clauses;
    }
  }

  /** Re-splitting is stable: re-joining the extracted clauses with "." and
      extracting again yields the very same clauses. */
  lemma ExtractIdempotent(text: string)
    ensures ExtractClauses(Join(ExtractClauses(text), '.')) == ExtractClauses(text)
  {
    ExtractClausesAreClauses(text);
    ExtractJoin(ExtractClauses(text));
  }
}
