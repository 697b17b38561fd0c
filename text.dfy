/**
 The string primitives the clause pipeline is built from: Python's
 `str.isspace`, `str.strip`, `str.lower`, the `in` substring test and
 `str.split` with a one-character separator, together with the join that
 undoes a split.
 */
module Text {

  /** A non-empty sequence is its head followed by its tail. */
  lemma HeadTail<T>(s: seq<T>)
    requires s != []
    ensures [s[0]] + s[1..] == s
  {
  }

  /** The head of a non-empty left operand heads the concatenation. */
  lemma ConsConcat<T>(a: seq<T>, b: seq<T>)
    requires a != []
    ensures a + b == [a[0]] + (a[1..] + b)
  {
  }

  lemma ConcatAssoc<T>(x: seq<T>, y: seq<T>, z: seq<T>)
    ensures x + (y + z) == (x + y) + z
  {
  }

  /** Python's `str.isspace()` for a single character: the ASCII controls
      TAB..CR, the separators U+001C..U+001F, SPACE, NEL, NO-BREAK SPACE and
      the Unicode space separators. */
  predicate IsSpace(c: char) {
    || ('\t' <= c <= '\r')
    || ('\U{1C}' <= c <= '\U{1F}')
    || c == ' '
    || c == '\U{85}'
    || c == '\U{A0}'
    || c == '\U{1680}'
    || ('\U{2000}' <= c <= '\U{200A}')
    || c == '\U{2028}'
    || c == '\U{2029}'
    || c == '\U{202F}'
    || c == '\U{205F}'
    || c == '\U{3000}'
  }

  /** Every character of `s` is whitespace (vacuously true of ""). */
  predicate AllSpace(s: string) {
    forall i :: 0 <= i < |s| ==> IsSpace(s[i])
  }

  /** `s` neither starts nor ends with whitespace. */
  predicate IsTrimmed(s: string) {
    s == [] || (!IsSpace(s[0]) && !IsSpace(s[|s| - 1]))
  }

  /** Removes leading whitespace: the result is a suffix of `s`, what was
      dropped is all whitespace, and the result does not start with it. */
  function StripLeft(s: string): (r: string)
    ensures |r| <= |s| && r == s[|s| - |r|..]
    ensures AllSpace(s[..|s| - |r|])
    ensures r == [] || !IsSpace(r[0])
    decreases |s|
  {
    if s != [] && IsSpace(s[0]) then StripLeft(s[1..]) else s
  }

  /** Removes trailing whitespace: the result is a prefix of `s`, what was
      dropped is all whitespace, and the result does not end with it. */
  function StripRight(s: string): (r: string)
    ensures |r| <= |s| && r == s[..|r|]
    ensures AllSpace(s[|r|..])
    ensures r == [] || !IsSpace(r[|r| - 1])
    decreases |s|
  {
    if s != [] && IsSpace(s[|s| - 1]) then
      var t := s[..|s| - 1];
      var r := StripRight(t);
      assert s[|r|..] == t[|r|..] + [s[|s| - 1]];
      assert r == s[..|r|];
      r
    else s
  }

  /** `r` is the slice of `s` starting at `lo` with only whitespace around it. */
  ghost predicate TrimsTo(s: string, lo: int, r: string) {
    && 0 <= lo <= |s| - |r|
    && s[lo..lo + |r|] == r
    && AllSpace(s[..lo])
    && AllSpace(s[lo + |r|..])
  }

  /** Python's `str.strip()` with no argument. */
  function Strip(s: string): string {
    StripRight(StripLeft(s))
  }

  /** The stripped text is trimmed and is a slice of the text with only
      whitespace cut off on either side. */
  lemma StripSpec(s: string)
    ensures IsTrimmed(Strip(s))
    ensures exists lo :: TrimsTo(s, lo, Strip(s))
  {
    var left := StripLeft(s);
    var r := StripRight(left);
    var lo := |s| - |left|;
    assert s[lo..lo + |r|] == r;
    assert s[lo + |r|..] == left[|r|..];
    assert TrimsTo(s, lo, r);
  }

  /** The blank-input test `text.strip() == ""`. */
  predicate IsBlank(s: string) {
    Strip(s) == []
  }

  /** Stripping leaves nothing exactly when the text is all whitespace. */
  lemma StripEmptyIff(s: string)
    ensures Strip(s) == [] <==> AllSpace(s)
  {
    StripSpec(s);
    var r := Strip(s);
    var lo :| TrimsTo(s, lo, r);
    if r == [] {
      forall i | 0 <= i < |s| ensures IsSpace(s[i]) {
        if i < lo {
          assert s[..lo][i] == s[i];
        } else {
          assert s[lo..][i - lo] == s[i];
        }
      }
    }
  }

  /** A trimmed text is left as it is: strip is idempotent. */
  lemma StripTrimmed(s: string)
    requires IsTrimmed(s)
    ensures Strip(s) == s
  {
    assert StripLeft(s) == s;
    assert StripRight(s) == s;
  }

  /** Leading whitespace in front of text that does not start with
      whitespace is exactly what the left strip removes. */
  lemma {:induction false} StripLeftPadding(lead: string, s: string)
    requires AllSpace(lead)
    requires s == [] || !IsSpace(s[0])
    ensures StripLeft(lead + s) == s
    decreases |lead|
  {
    if lead == [] {
      assert lead + s == s;
    } else {
      assert (lead + s)[0] == lead[0];
      assert (lead + s)[1..] == lead[1..] + s;
      assert forall i :: 0 <= i < |lead[1..]| ==> lead[1..][i] == lead[i + 1];
      StripLeftPadding(lead[1..], s);
    }
  }

  /** Stripping leading whitespace off a trimmed text gives the text. */
  lemma StripPadded(lead: string, s: string)
    requires AllSpace(lead) && IsTrimmed(s)
    ensures Strip(lead + s) == s
  {
    StripLeftPadding(lead, s);
    StripTrimmed(s);
  }

  /** A leading whitespace character is stripped away. */
  lemma StripSpaceCons(c: char, s: string)
    requires IsSpace(c)
    ensures Strip([c] + s) == Strip(s)
  {
    assert ([c] + s)[1..] == s;
  }

  /** Stripping only removes characters: a character absent from `s` is
      absent from `Strip(s)`. */
  lemma StripKeepsOut(s: string, c: char)
    requires c !in s
    ensures c !in Strip(s)
  {
    StripSpec(s);
    var r := Strip(s);
    var lo :| TrimsTo(s, lo, r);
  }

  predicate IsUpper(c: char) {
    'A' <= c <= 'Z'
  }

  /** ASCII lower-casing of one character. */
  function LowerChar(c: char): (r: char)
    ensures !IsUpper(r)
    ensures IsUpper(c) ==> r as int == c as int - 'A' as int + 'a' as int
    ensures !IsUpper(c) ==> r == c
  {
    if IsUpper(c) then (c as int - 'A' as int + 'a' as int) as char else c
  }

  /** Python's `str.lower()`, restricted to ASCII letters. */
  function Lower(s: string): (r: string)
    ensures |r| == |s|
  {
    seq(|s|, i requires 0 <= i < |s| => LowerChar(s[i]))
  }

  /** Lower-casing twice is lower-casing once. */
  lemma LowerIdempotent(s: string)
    ensures Lower(Lower(s)) == Lower(s)
  {
    var l := Lower(s);
    forall i | 0 <= i < |l| ensures Lower(l)[i] == l[i] {
      assert l[i] == LowerChar(s[i]);
    }
  }

  /** Lower-casing works character by character, so it distributes over
      concatenation. */
  lemma LowerConcat(a: string, b: string)
    ensures Lower(a + b) == Lower(a) + Lower(b)
  {
    var l := Lower(a + b);
    forall i | 0 <= i < |l| ensures l[i] == (Lower(a) + Lower(b))[i] {
      if i < |a| {
        assert (a + b)[i] == a[i];
      } else {
        assert (a + b)[i] == b[i - |a|];
      }
    }
  }

  /** `p` occurs in `s` starting at index `i`. */
  predicate OccursAt(s: string, p: string, i: int) {
    0 <= i <= |s| - |p| && s[i..i + |p|] == p
  }

  /** Python's `p in s`: `p` occurs somewhere in `s`. */
  predicate Contains(s: string, p: string) {
    exists i | 0 <= i <= |s| - |p| :: OccursAt(s, p, i)
  }

  /** A witness position establishes `p in s`. */
  lemma ContainsAt(s: string, p: string, i: int)
    requires OccursAt(s, p, i)
    ensures Contains(s, p)
  {
  }

  /** A text with `p` in the middle contains `p`. */
  lemma ContainsMiddle(a: string, p: string, b: string)
    ensures Contains(a + p + b, p)
  {
    assert (a + p + b)[|a|..|a| + |p|] == p;
    assert OccursAt(a + p + b, p, |a|);
  }

  /** A keyword already in lower case is found in the lower-cased form of
      any text that has it in the middle. */
  lemma LowerContainsMiddle(a: string, p: string, b: string)
    requires Lower(p) == p
    ensures Contains(Lower(a + p + b), p)
  {
    LowerConcat(a + p, b);
    LowerConcat(a, p);
    ContainsMiddle(Lower(a), p, Lower(b));
  }

  /** A text lacking one of the characters of `p` cannot contain `p`. */
  lemma MissingCharNotContained(s: string, p: string, c: char)
    requires c in p && c !in s
    ensures !Contains(s, p)
  {
  }

  /** The characters `x` and `y` appear side by side somewhere in `s`. */
  predicate HasPair(s: string, x: char, y: char) {
    exists i | 0 <= i < |s| - 1 :: s[i] == x && s[i + 1] == y
  }

  /** A pair in a concatenation lies in one part or straddles the seam. */
  lemma HasPairConcat(a: string, b: string, x: char, y: char)
    requires !HasPair(a, x, y) && !HasPair(b, x, y)
    requires a == [] || b == [] || !(a[|a| - 1] == x && b[0] == y)
    ensures !HasPair(a + b, x, y)
  {
    var s := a + b;
    forall i | 0 <= i < |s| - 1 ensures !(s[i] == x && s[i + 1] == y) {
      if i + 1 < |a| {
        assert s[i] == a[i] && s[i + 1] == a[i + 1];
      } else if i + 1 == |a| {
        assert s[i] == a[|a| - 1] && s[i + 1] == b[0];
      } else {
        assert s[i] == b[i - |a|] && s[i + 1] == b[i + 1 - |a|];
      }
    }
  }

  /** A text in which two adjacent characters of `p` never appear side by
      side cannot contain `p`. */
  lemma MissingPairNotContained(s: string, p: string, k: int)
    requires 0 <= k && k + 1 < |p|
    requires !HasPair(s, p[k], p[k + 1])
    ensures !Contains(s, p)
  {
    forall i | 0 <= i <= |s| - |p| ensures !OccursAt(s, p, i) {
      var w := s[i..i + |p|];
      assert w[k] == s[i + k] && w[k + 1] == s[i + k + 1];
      assert w[k] != p[k] || w[k + 1] != p[k + 1];
    }
  }

  /** Number of occurrences of `c` in `s`. */
  function CountChar(s: string, c: char): nat
    decreases |s|
  {
    if s == [] then 0 else (if s[0] == c then 1 else 0) + CountChar(s[1..], c)
  }

  /** Python's `s.split(sep)`: the pieces between consecutive separators,
      empty pieces included, so one more piece than there are separators. */
  function Split(s: string, sep: char): (pieces: seq<string>)
    ensures |pieces| >= 1
    decreases |s|
  {
    if s == [] then [[]]
    else if s[0] == sep then [[]] + Split(s[1..], sep)
    else
      var rest := Split(s[1..], sep);
      [[s[0]] + rest[0]] + rest[1..]
  }

  /** There is one more piece than there are separators. */
  lemma {:induction false} SplitCount(s: string, sep: char)
    ensures |Split(s, sep)| == CountChar(s, sep) + 1
    decreases |s|
  {
    if s != [] {
      SplitCount(s[1..], sep);
    }
  }

  /** A leading separator ends an empty first piece. */
  lemma SplitSepCons(s: string, sep: char)
    ensures Split([sep] + s, sep) == [[]] + Split(s, sep)
  {
    assert ([sep] + s)[1..] == s;
  }

  /** A character other than the separator joins the first piece. */
  lemma SplitCons(c: char, s: string, sep: char)
    requires c != sep
    ensures Split([c] + s, sep) == [[c] + Split(s, sep)[0]] + Split(s, sep)[1..]
  {
    assert ([c] + s)[1..] == s;
  }

  /** No piece of a split holds the separator. */
  lemma {:induction false} SplitPiecesLackSep(s: string, sep: char)
    ensures forall j :: 0 <= j < |Split(s, sep)| ==> sep !in Split(s, sep)[j]
    decreases |s|
  {
    if s != [] {
      SplitPiecesLackSep(s[1..], sep);
      if s[0] != sep {
        var rest := Split(s[1..], sep);
        assert sep !in [s[0]] + rest[0];
      }
    }
  }

  /** Python's `sep.join(pieces)`. */
  function Join(pieces: seq<string>, sep: char): string
    decreases |pieces|
  {
    if pieces == [] then []
    else if |pieces| == 1 then pieces[0]
    else pieces[0] + [sep] + Join(pieces[1..], sep)
  }

  lemma JoinCons(p: string, rest: seq<string>, sep: char)
    ensures Join([p] + rest, sep) == if rest == [] then p else p + [sep] + Join(rest, sep)
  {
    assert ([p] + rest)[1..] == rest;
  }

  /** Joining the pieces of a split restores the text. */
  lemma {:induction false} JoinSplit(s: string, sep: char)
    ensures Join(Split(s, sep), sep) == s
    decreases |s|
  {
    if s != [] {
      HeadTail(s);
      JoinSplit(s[1..], sep);
      var rest := Split(s[1..], sep);
      if s[0] == sep {
        SplitSepCons(s[1..], sep);
        JoinCons([], rest, sep);
      } else {
        var first := [s[0]] + rest[0];
        SplitCons(s[0], s[1..], sep);
        assert Split(s, sep) == [first] + rest[1..];
        HeadTail(rest);
        JoinCons(rest[0], rest[1..], sep);
        JoinCons(first, rest[1..], sep);
        if rest[1..] == [] {
          assert Join(Split(s, sep), sep) == first;
        } else {
          var more := Join(rest[1..], sep);
          assert Join(Split(s, sep), sep) == first + [sep] + more;
          assert first + [sep] + more == [s[0]] + (rest[0] + [sep] + more);
        }
      }
    }
  }

  /** Text without the separator splits into itself alone. */
  lemma {:induction false} SplitNoSep(s: string, sep: char)
    requires sep !in s
    ensures Split(s, sep) == [s]
    decreases |s|
  {
    if s != [] {
      SplitNoSep(s[1..], sep);
      assert s == [s[0]] + s[1..];
    }
  }

  /** Splitting distributes over a separator: the pieces of the left part
      come first, in order, then those of the right part. */
  lemma {:induction false} SplitConcat(a: string, b: string, sep: char)
    ensures Split(a + [sep] + b, sep) == Split(a, sep) + Split(b, sep)
    decreases |a|
  {
    if a == [] {
      assert a + [sep] + b == [sep] + b;
      SplitSepCons(b, sep);
    } else {
      var t := a[1..] + [sep] + b;
      assert a + [sep] + b == [a[0]] + t;
      HeadTail(a);
      SplitConcat(a[1..], b, sep);
      if a[0] == sep {
        SplitSepCons(t, sep);
        SplitSepCons(a[1..], sep);
      } else {
        SplitCons(a[0], t, sep);
        SplitCons(a[0], a[1..], sep);
        var rest, more := Split(a[1..], sep), Split(b, sep);
        assert (rest + more)[0] == rest[0];
        assert (rest + more)[1..] == rest[1..] + more;
      }
    }
  }

  /** Splitting a join of separator-free pieces gives the pieces back. */
  lemma {:induction false} SplitJoin(pieces: seq<string>, sep: char)
    requires |pieces| >= 1
    requires forall j :: 0 <= j < |pieces| ==> sep !in pieces[j]
    ensures Split(Join(pieces, sep), sep) == pieces
    decreases |pieces|
  {
    if |pieces| == 1 {
      SplitNoSep(pieces[0], sep);
    } else {
      var rest := pieces[1..];
      assert forall j :: 0 <= j < |rest| ==> rest[j] == pieces[j + 1];
      SplitJoin(rest, sep);
      SplitNoSep(pieces[0], sep);
      assert Join(pieces, sep) == pieces[0] + [sep] + Join(rest, sep);
      SplitConcat(pieces[0], Join(rest, sep), sep);
      HeadTail(pieces);
    }
  }
}
