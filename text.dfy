/**
 * The Python string operations the dialogue generator relies on: substring
 * search (`in`, `find`), `split` and `join` with a separator, `strip()`,
 * `lower()`, and the two newline substitutions done with `re.sub`.
 * Strings are sequences of Dafny characters, the Unicode code points other
 * than surrogates; a Python `str` may also hold lone surrogates.
 */
module Text {
  import opened Options

  /** Python's `str.isspace()` for one character. */
  predicate IsSpace(c: char) {
    var k := c as int;
    (0x09 <= k <= 0x0D) || (0x1C <= k <= 0x20) || k == 0x85 || k == 0xA0 || k == 0x1680
    || (0x2000 <= k <= 0x200A) || k == 0x2028 || k == 0x2029 || k == 0x202F || k == 0x205F
    || k == 0x3000
  }

  /** `pat` occurs in `s` starting at index `i`. */
  predicate OccursAt(s: string, pat: string, i: int) {
    0 <= i && i + |pat| <= |s| && s[i..i + |pat|] == pat
  }

  /** Python's `pat in s`. */
  predicate Contains(s: string, pat: string) {
    exists i | 0 <= i <= |s| - |pat| :: OccursAt(s, pat, i)
  }

  /** First occurrence of `pat` in `s` at or after index `from`, if any. */
  function FindFrom(s: string, pat: string, from: nat): (r: Option<nat>)
    decreases |s| - from
    ensures r.Some? ==> from <= r.value && OccursAt(s, pat, r.value)
    ensures forall j :: from <= j && (r.None? || j < r.value) ==> !OccursAt(s, pat, j)
  {
    if from + |pat| > |s| then None
    else if s[from..from + |pat|] == pat then Some(from)
    else FindFrom(s, pat, from + 1)
  }

  /** Python's `s.find(pat)`, with `None` in place of -1. */
  function Find(s: string, pat: string): (r: Option<nat>)
    ensures r.Some? ==> OccursAt(s, pat, r.value)
    ensures forall j :: 0 <= j && (r.None? || j < r.value) ==> !OccursAt(s, pat, j)
  {
    FindFrom(s, pat, 0)
  }

  lemma FindIsFirst(s: string, pat: string, i: nat)
    requires OccursAt(s, pat, i)
    requires forall j :: 0 <= j < i ==> !OccursAt(s, pat, j)
    ensures Find(s, pat) == Some(i)
  {
  }

  lemma FindAbsent(s: string, pat: string)
    requires forall j :: !OccursAt(s, pat, j)
    ensures Find(s, pat) == None
  {
  }

  lemma ContainsFind(s: string, pat: string)
    ensures Contains(s, pat) <==> Find(s, pat).Some?
  {
    if Contains(s, pat) {
      var i :| OccursAt(s, pat, i);
      assert Find(s, pat).Some?;
    }
  }

  /** Python's `sep.join(parts)`. */
  function Join(parts: seq<string>, sep: string): string
    decreases |parts|
  {
    if |parts| == 0 then ""
    else if |parts| == 1 then parts[0]
    else parts[0] + sep + Join(parts[1..], sep)
  }

  /**
   * Python's `s.split(sep)` for a non-empty separator: the pieces between
   * the non-overlapping occurrences of `sep`, found left to right.
   */
  function Split(s: string, sep: string): (r: seq<string>)
    requires |sep| > 0
    decreases |s|
    ensures |r| >= 1
  {
    match Find(s, sep)
    case None => [s]
    case Some(i) => [s[..i]] + Split(s[i + |sep|..], sep)
  }

  /** The first two pieces of a split: before the first occurrence, and between the first and the second. */
  lemma SplitFirstPieces(s: string, sep: string)
    requires |sep| > 0
    ensures Find(s, sep).None? ==> Split(s, sep) == [s]
    ensures Find(s, sep).Some? ==>
      var i := Find(s, sep).value;
      var rest := s[i + |sep|..];
      |Split(s, sep)| >= 2 && Split(s, sep)[0] == s[..i]
      && Split(s, sep)[1] == match Find(rest, sep) case None => rest case Some(j) => rest[..j]
  {
    if Find(s, sep).Some? {
      var i := Find(s, sep).value;
      var rest := s[i + |sep|..];
      SplitUnfold(s, sep, i, rest);
      if Find(rest, sep).Some? {
        var j := Find(rest, sep).value;
        SplitUnfold(rest, sep, j, rest[j + |sep|..]);
      }
    }
  }

  /** Joining the pieces of a split with the same separator gives back the string. */
  lemma {:induction false} SplitJoin(s: string, sep: string)
    requires |sep| > 0
    decreases |s|
    ensures Join(Split(s, sep), sep) == s
  {
    if Find(s, sep).Some? {
      var i := Find(s, sep).value;
      var rest := s[i + |sep|..];
      var pieces := Split(rest, sep);
      SplitJoin(rest, sep);
      SplitUnfold(s, sep, i, rest);
      JoinCons(s[..i], pieces, sep);
      SliceAround(s, sep, i);
    }
  }

  /** `Join` over a leading piece and at least one more. */
  lemma JoinCons(head: string, pieces: seq<string>, sep: string)
    requires |pieces| >= 1
    ensures Join([head] + pieces, sep) == head + sep + Join(pieces, sep)
  {
    assert ([head] + pieces)[1..] == pieces;
  }

  /** A string is what precedes an occurrence of `pat`, `pat` itself and what follows. */
  lemma SliceAround(s: string, pat: string, i: nat)
    requires OccursAt(s, pat, i)
    ensures s == s[..i] + pat + s[i + |pat|..]
  {
  }

  /** No piece of a split contains the separator. */
  lemma {:induction false} SplitPiecesAvoidSeparator(s: string, sep: string)
    requires |sep| > 0
    decreases |s|
    ensures forall k :: 0 <= k < |Split(s, sep)| ==> !Contains(Split(s, sep)[k], sep)
  {
    if Find(s, sep).None? {
      assert Split(s, sep) == [s];
      ContainsFind(s, sep);
    } else {
      var i := Find(s, sep).value;
      var rest := s[i + |sep|..];
      SplitPiecesAvoidSeparator(rest, sep);
      SplitUnfold(s, sep, i, rest);
      BeforeFirst(s, sep, i);
      var pieces := Split(s, sep);
      forall k | 0 <= k < |pieces|
        ensures !Contains(pieces[k], sep)
      {
        if k > 0 {
          assert pieces[k] == Split(rest, sep)[k - 1];
        }
      }
    }
  }

  lemma SplitUnfold(s: string, sep: string, i: nat, rest: string)
    requires |sep| > 0
    requires Find(s, sep) == Some(i) && rest == s[i + |sep|..]
    ensures Split(s, sep) == [s[..i]] + Split(rest, sep)
  {
  }

  /** The text before the first occurrence of `pat` does not hold it. */
  lemma BeforeFirst(s: string, pat: string, i: nat)
    requires |pat| > 0 && Find(s, pat) == Some(i)
    ensures !Contains(s[..i], pat)
  {
    var head := s[..i];
    forall j | 0 <= j <= |head| - |pat|
      ensures !OccursAt(head, pat, j)
    {
      assert !OccursAt(s, pat, j);
      assert head[j..j + |pat|] == s[j..j + |pat|];
    }
  }

  /**
   * When the last character of `a` is not part of `sep`, no occurrence of
   * `sep` straddles the boundary, so the number of occurrences found by
   * `split` adds up.
   */
  lemma {:induction false} SplitConcat(a: string, b: string, sep: string)
    requires |sep| > 0
    requires a == [] || a[|a| - 1] !in sep
    decreases |a|
    ensures |Split(a + b, sep)| == |Split(a, sep)| + |Split(b, sep)| - 1
  {
    if a == [] {
      assert a + b == b;
      FindAbsent(a, sep);
    } else if Find(a, sep).Some? {
      var i := Find(a, sep).value;
      var a' := a[i + |sep|..];
      SplitConcatAt(a, b, sep, i);
      assert a' == [] || a'[|a'| - 1] == a[|a| - 1];
      SplitConcat(a', b, sep);
    } else {
      SplitConcatAbsent(a, b, sep);
    }
  }

  /** One step of `SplitConcat`: the first occurrence in `a` is the first in `a + b`. */
  lemma SplitConcatAt(a: string, b: string, sep: string, i: nat)
    requires |sep| > 0
    requires a != [] && a[|a| - 1] !in sep
    requires Find(a, sep) == Some(i)
    ensures |Split(a, sep)| == 1 + |Split(a[i + |sep|..], sep)|
    ensures |Split(a + b, sep)| == 1 + |Split(a[i + |sep|..] + b, sep)|
  {
    var ab := a + b;
    SplitStep(a, sep, i);
    NoStraddle(a, b, sep);
    assert OccursAt(ab, sep, i) by {
      assert ab[i..i + |sep|] == a[i..i + |sep|];
    }
    FindIsFirst(ab, sep, i);
    SplitStep(ab, sep, i);
    assert ab[i + |sep|..] == a[i + |sep|..] + b;
  }

  lemma SplitStep(s: string, sep: string, i: nat)
    requires |sep| > 0
    requires Find(s, sep) == Some(i)
    ensures |Split(s, sep)| == 1 + |Split(s[i + |sep|..], sep)|
  {
  }

  /** Occurrences in the first and in the second of four concatenated texts. */
  lemma OccursInFour(a: string, b: string, c: string, d: string, pat: string, i: int, k: int)
    requires OccursAt(a, pat, i) && OccursAt(b, pat, k)
    ensures OccursAt(a + b + c + d, pat, i) && OccursAt(a + b + c + d, pat, |a| + k)
  {
    var s := a + b + c + d;
    assert s[i..i + |pat|] == a[i..i + |pat|];
    assert s[|a| + k..|a| + k + |pat|] == b[k..k + |pat|];
  }

  /** Two occurrences that do not overlap split a text into three pieces or more. */
  lemma SplitTwoOccurrences(s: string, sep: string, i: nat, j: nat)
    requires |sep| > 0 && OccursAt(s, sep, i) && OccursAt(s, sep, j) && i + |sep| <= j
    ensures |Split(s, sep)| >= 3
  {
    var f := Find(s, sep).value;
    var rest := s[f + |sep|..];
    assert OccursAt(rest, sep, j - f - |sep|) by {
      assert rest[j - f - |sep|..j - f] == s[j..j + |sep|];
    }
    SplitStep(s, sep, f);
    SplitFirstPieces(rest, sep);
  }

  /** The other step of `SplitConcat`: `a` holds no occurrence, so `a` joins the first piece of `b`. */
  lemma SplitConcatAbsent(a: string, b: string, sep: string)
    requires |sep| > 0
    requires a != [] && a[|a| - 1] !in sep
    requires Find(a, sep) == None
    ensures |Split(a + b, sep)| == |Split(b, sep)|
  {
    NoStraddle(a, b, sep);
    Shifted(a, b, sep);
    if Find(b, sep).None? {
      AbsentInBoth(a, b, sep);
    } else {
      AbsentThenFound(a, b, sep, Find(b, sep).value);
    }
  }

  lemma AbsentInBoth(a: string, b: string, sep: string)
    requires |sep| > 0
    requires Find(a, sep) == None && Find(b, sep) == None
    requires forall j :: 0 <= j < |a| ==> (OccursAt(a + b, sep, j) <==> OccursAt(a, sep, j))
    requires forall j :: |a| <= j ==> (OccursAt(a + b, sep, j) <==> OccursAt(b, sep, j - |a|))
    ensures Split(a + b, sep) == [a + b] && Split(b, sep) == [b]
  {
    forall j ensures !OccursAt(a + b, sep, j) {
      if |a| <= j { assert !OccursAt(b, sep, j - |a|); }
    }
    FindAbsent(a + b, sep);
  }

  lemma AbsentThenFound(a: string, b: string, sep: string, k: nat)
    requires |sep| > 0
    requires Find(a, sep) == None && Find(b, sep) == Some(k)
    requires forall j :: 0 <= j < |a| ==> (OccursAt(a + b, sep, j) <==> OccursAt(a, sep, j))
    requires forall j :: |a| <= j ==> (OccursAt(a + b, sep, j) <==> OccursAt(b, sep, j - |a|))
    ensures |Split(a + b, sep)| == |Split(b, sep)|
  {
    var ab := a + b;
    var i := |a| + k;
    assert Find(ab, sep) == Some(i) by {
      forall j | 0 <= j < i ensures !OccursAt(ab, sep, j) {
        if |a| <= j { assert !OccursAt(b, sep, j - |a|); }
      }
      FindIsFirst(ab, sep, i);
    }
    SameRest(a, b, sep, k);
  }

  lemma SameRest(a: string, b: string, sep: string, k: nat)
    requires |sep| > 0
    requires Find(b, sep) == Some(k) && Find(a + b, sep) == Some(|a| + k)
    ensures |Split(a + b, sep)| == |Split(b, sep)|
  {
    DropAppend(a, b, k + |sep|);
    SplitSameTail(a + b, b, sep, |a| + k, k);
  }

  /** Two strings whose first occurrences are followed by the same text split into as many pieces. */
  lemma SplitSameTail(s: string, t: string, sep: string, i: nat, k: nat)
    requires |sep| > 0
    requires Find(s, sep) == Some(i) && Find(t, sep) == Some(k)
    requires s[i + |sep|..] == t[k + |sep|..]
    ensures |Split(s, sep)| == |Split(t, sep)|
  {
    SplitStep(s, sep, i);
    SplitStep(t, sep, k);
  }

  lemma DropAppend(a: string, b: string, n: nat)
    requires n <= |b|
    ensures (a + b)[|a| + n..] == b[n..]
  {
  }

  /** Occurrences in `b` reappear in `a + b`, shifted by `|a|`. */
  lemma Shifted(a: string, b: string, sep: string)
    ensures forall j :: |a| <= j ==> (OccursAt(a + b, sep, j) <==> OccursAt(b, sep, j - |a|))
  {
    var ab := a + b;
    forall j | |a| <= j
      ensures OccursAt(ab, sep, j) <==> OccursAt(b, sep, j - |a|)
    {
      if j + |sep| <= |ab| {
        assert ab[j..j + |sep|] == b[j - |a|..j - |a| + |sep|];
      }
    }
  }

  /**
   * An occurrence of `sep` in `a + b` that starts inside `a` lies wholly in
   * `a` when the last character of `a` is not part of `sep`.
   */
  lemma NoStraddle(a: string, b: string, sep: string)
    requires a != [] && a[|a| - 1] !in sep
    ensures forall j :: 0 <= j < |a| ==> (OccursAt(a + b, sep, j) <==> OccursAt(a, sep, j))
  {
    var ab := a + b;
    forall j | 0 <= j < |a|
      ensures OccursAt(ab, sep, j) <==> OccursAt(a, sep, j)
    {
      if j + |sep| <= |a| {
        assert ab[j..j + |sep|] == a[j..j + |sep|];
      } else if OccursAt(ab, sep, j) {
        CharOfOccurrence(ab, sep, j, |a| - 1 - j);
        assert false;
      }
    }
  }

  /** A prefix without the first character of `pat` cannot start or hold an occurrence of it. */
  lemma PrefixKeepsAbsent(p: string, s: string, pat: string)
    requires |pat| > 0 && pat[0] !in p
    requires !Contains(s, pat)
    ensures !Contains(p + s, pat)
  {
    var t := p + s;
    forall j | 0 <= j <= |t| - |pat|
      ensures !OccursAt(t, pat, j)
    {
      if j < |p| {
        assert p[j] in p;
        assert t[j..j + |pat|][0] == t[j] == p[j] != pat[0];
      } else {
        assert t[j..j + |pat|] == s[j - |p|..j - |p| + |pat|];
        assert !OccursAt(s, pat, j - |p|);
      }
    }
  }

  lemma CharOfOccurrence(s: string, pat: string, i: int, k: int)
    requires OccursAt(s, pat, i) && 0 <= k < |pat|
    ensures s[i + k] == pat[k]
  {
    assert s[i..i + |pat|][k] == s[i + k];
  }

  /** An occurrence that ends within the first `n` characters is an occurrence in that prefix. */
  lemma OccursInPrefix(s: string, pat: string, i: int, n: int)
    requires OccursAt(s, pat, i) && i + |pat| <= n <= |s|
    ensures Contains(s[..n], pat)
  {
    assert s[..n][i..i + |pat|] == s[i..i + |pat|];
    assert OccursAt(s[..n], pat, i);
  }

  /** The number of leading whitespace characters of `s`. */
  function LeadingSpaces(s: string): (n: nat)
    ensures n <= |s|
    ensures forall k :: 0 <= k < n ==> IsSpace(s[k])
    ensures n < |s| ==> !IsSpace(s[n])
  {
    if |s| > 0 && IsSpace(s[0]) then 1 + LeadingSpaces(s[1..]) else 0
  }

  /** The number of trailing whitespace characters of `s`. */
  function TrailingSpaces(s: string): (n: nat)
    ensures n <= |s|
    ensures forall k :: |s| - n <= k < |s| ==> IsSpace(s[k])
    ensures n < |s| ==> !IsSpace(s[|s| - 1 - n])
  {
    if |s| > 0 && IsSpace(s[|s| - 1]) then 1 + TrailingSpaces(s[..|s| - 1]) else 0
  }

  /** Python's `s.lstrip()`: `s` without its leading whitespace. */
  function StripLeft(s: string): string {
    if |s| > 0 && IsSpace(s[0]) then StripLeft(s[1..]) else s
  }

  /** Python's `s.rstrip()`: `s` without its trailing whitespace. */
  function StripRight(s: string): string {
    if |s| > 0 && IsSpace(s[|s| - 1]) then StripRight(s[..|s| - 1]) else s
  }

  /** Python's `s.strip()`. */
  function Strip(s: string): string {
    StripRight(StripLeft(s))
  }

  lemma {:induction false} StripLeftDropsLeadingSpaces(s: string)
    ensures StripLeft(s) == s[LeadingSpaces(s)..]
  {
    if |s| > 0 && IsSpace(s[0]) {
      StripLeftDropsLeadingSpaces(s[1..]);
      assert s[1..][LeadingSpaces(s[1..])..] == s[LeadingSpaces(s)..];
    }
  }

  lemma {:induction false} StripRightDropsTrailingSpaces(s: string)
    ensures StripRight(s) == s[..|s| - TrailingSpaces(s)]
  {
    if |s| > 0 && IsSpace(s[|s| - 1]) {
      StripRightDropsTrailingSpaces(s[..|s| - 1]);
      assert s[..|s| - 1][..|s| - 1 - TrailingSpaces(s[..|s| - 1])] == s[..|s| - TrailingSpaces(s)];
    }
  }

  /**
   * `strip()` keeps the longest infix of `s` that neither starts nor ends
   * with whitespace; everything around it is whitespace.
   */
  lemma StripSpec(s: string)
    ensures StrippedAt(s, LeadingSpaces(s), Strip(s))
  {
    var n := LeadingSpaces(s);
    var t := StripLeft(s);
    var m := TrailingSpaces(t);
    var r := StripRight(t);
    StripLeftDropsLeadingSpaces(s);
    StripRightDropsTrailingSpaces(t);
    StripParts(s, n, t, m, r);
    assert Strip(s) == r;
  }

  /**
   * `r` is the infix of `s` from index `n`, everything around it is
   * whitespace, and it neither starts nor ends with whitespace.
   */
  predicate StrippedAt(s: string, n: nat, r: string) {
    && n + |r| <= |s| && r == s[n..n + |r|]
    && (forall k :: 0 <= k < |s| && !(n <= k < n + |r|) ==> IsSpace(s[k]))
    && (r != [] ==> !IsSpace(r[0]) && !IsSpace(r[|r| - 1]))
  }

  /** `StripSpec` for the parts: `s` less `n` leading spaces is `t`, and `t` less `m` trailing spaces is `r`. */
  lemma StripParts(s: string, n: nat, t: string, m: nat, r: string)
    requires n <= |s| && t == s[n..] && m <= |t| && r == t[..|t| - m]
    requires forall k :: 0 <= k < n ==> IsSpace(s[k])
    requires n < |s| ==> !IsSpace(s[n])
    requires forall k :: |t| - m <= k < |t| ==> IsSpace(t[k])
    requires m < |t| ==> !IsSpace(t[|t| - 1 - m])
    ensures StrippedAt(s, n, r)
  {
    forall k | 0 <= k < |s| && !(n <= k < n + |r|)
      ensures IsSpace(s[k])
    {
      if k >= n {
        assert s[k] == t[k - n];
      }
    }
    if r != [] {
      assert r[0] == s[n];
      assert r[|r| - 1] == t[|t| - 1 - m];
    }
  }

  /** Text that neither starts nor ends with whitespace is left alone by `strip()`. */
  lemma StripUnpadded(s: string)
    requires s != [] && !IsSpace(s[0]) && !IsSpace(s[|s| - 1])
    ensures Strip(s) == s
  {
  }

  /** `s` has no line feed. */
  predicate NoNewline(s: string) {
    forall k :: 0 <= k < |s| ==> s[k] != '\n'
  }

  /** The number of line feeds `s` starts with. */
  function LeadingNewlines(s: string): (n: nat)
    ensures n <= |s|
    ensures forall k :: 0 <= k < n ==> s[k] == '\n'
    ensures n < |s| ==> s[n] != '\n'
  {
    if |s| > 0 && s[0] == '\n' then 1 + LeadingNewlines(s[1..]) else 0
  }

  /** `re.sub(r"\n\n*", " ", s)`: every maximal run of line feeds becomes one space. */
  function CollapseNewlineRuns(s: string): (r: string)
    decreases |s|
    ensures |r| <= |s|
  {
    if s == [] then []
    else if s[0] == '\n' then " " + CollapseNewlineRuns(s[LeadingNewlines(s)..])
    else [s[0]] + CollapseNewlineRuns(s[1..])
  }

  /** Collapsing leaves no line feed. */
  lemma {:induction false} CollapseLeavesNoNewline(s: string)
    decreases |s|
    ensures NoNewline(CollapseNewlineRuns(s))
  {
    if s != [] {
      if s[0] == '\n' {
        CollapseLeavesNoNewline(s[LeadingNewlines(s)..]);
      } else {
        CollapseLeavesNoNewline(s[1..]);
      }
    }
  }

  /** `re.sub("\n", " ", s)`: every line feed becomes a space of its own. */
  function NewlinesToSpaces(s: string): (r: string)
    ensures |r| == |s|
  {
    if s == [] then [] else [if s[0] == '\n' then ' ' else s[0]] + NewlinesToSpaces(s[1..])
  }

  /** Each character is kept, except that a line feed becomes a space. */
  lemma {:induction false} NewlinesToSpacesAt(s: string)
    ensures forall k :: 0 <= k < |s| ==> NewlinesToSpaces(s)[k] == (if s[k] == '\n' then ' ' else s[k])
  {
    if s != [] {
      NewlinesToSpacesAt(s[1..]);
      forall k | 0 <= k < |s|
        ensures NewlinesToSpaces(s)[k] == (if s[k] == '\n' then ' ' else s[k])
      {
        if k > 0 {
          assert NewlinesToSpaces(s)[k] == NewlinesToSpaces(s[1..])[k - 1];
        }
      }
    }
  }

  /** Replacing each line feed leaves none. */
  lemma NewlinesToSpacesLeavesNoNewline(s: string)
    ensures NoNewline(NewlinesToSpaces(s))
  {
    NewlinesToSpacesAt(s);
  }

  /** `s` never has two line feeds in a row. */
  predicate NoDoubleNewline(s: string) {
    forall k :: 0 <= k < |s| - 1 ==> !(s[k] == '\n' && s[k + 1] == '\n')
  }

  /**
   * The two substitutions agree exactly on text without consecutive line
   * feeds; a run of two or more is shortened by the first and not by the second.
   */
  lemma {:induction false} CollapseAgreesWithNewlinesToSpaces(s: string)
    decreases |s|
    ensures NoDoubleNewline(s) <==> CollapseNewlineRuns(s) == NewlinesToSpaces(s)
  {
    if s == [] {
      return;
    }
    var tail := s[1..];
    CollapseAgreesWithNewlinesToSpaces(tail);
    assert NoDoubleNewline(s) <==> NoDoubleNewline(tail) && !(|s| > 1 && s[0] == '\n' && s[1] == '\n') by {
      if NoDoubleNewline(tail) && !(|s| > 1 && s[0] == '\n' && s[1] == '\n') {
        forall k | 0 <= k < |s| - 1 ensures !(s[k] == '\n' && s[k + 1] == '\n') {
          if k > 0 { assert s[k] == tail[k - 1] && s[k + 1] == tail[k]; }
        }
      }
      if NoDoubleNewline(s) {
        forall k | 0 <= k < |tail| - 1 ensures !(tail[k] == '\n' && tail[k + 1] == '\n') {
          assert s[k + 1] == tail[k] && s[k + 2] == tail[k + 1];
        }
      }
    }
    var head := if s[0] == '\n' then ' ' else s[0];
    assert NewlinesToSpaces(s) == [head] + NewlinesToSpaces(tail);
    if s[0] == '\n' && |s| > 1 && s[1] == '\n' {
      // the run is shortened, so the lengths differ
      assert LeadingNewlines(s) >= 2 by { assert LeadingNewlines(s) == 1 + LeadingNewlines(tail); }
      assert |CollapseNewlineRuns(s)| < |s|;
    } else {
      if s[0] == '\n' {
        assert LeadingNewlines(s) == 1 by { assert LeadingNewlines(s) == 1 + LeadingNewlines(tail); }
      }
      assert CollapseNewlineRuns(s) == [head] + CollapseNewlineRuns(tail);
      PrependSame(head, CollapseNewlineRuns(tail), NewlinesToSpaces(tail));
    }
  }

  /**
   * A reference for `re.sub(r"\n\n*", " ", s)` that looks at one character
   * at a time: drop every line feed that follows a line feed
   * (`afterNewline` says whether the previous character was one).
   */
  function Squeeze(s: string, afterNewline: bool): string {
    if s == [] then []
    else if s[0] == '\n' && afterNewline then Squeeze(s[1..], true)
    else [s[0]] + Squeeze(s[1..], s[0] == '\n')
  }

  /** Collapsing a run of line feeds is dropping all of it but its first, then replacing that by a space. */
  lemma {:induction false} CollapseIsSqueezed(s: string)
    decreases |s|
    ensures CollapseNewlineRuns(s) == NewlinesToSpaces(Squeeze(s, false))
  {
    if s != [] {
      if s[0] == '\n' {
        var n := LeadingNewlines(s);
        SqueezeSkipsRun(s[1..]);
        assert s[1..][LeadingNewlines(s[1..])..] == s[n..];
        CollapseIsSqueezed(s[n..]);
        NewlinesToSpacesCons('\n', Squeeze(s[n..], false));
      } else {
        CollapseIsSqueezed(s[1..]);
        NewlinesToSpacesCons(s[0], Squeeze(s[1..], false));
      }
    }
  }

  /** After a line feed, the line feeds that follow are dropped. */
  lemma {:induction false} SqueezeSkipsRun(s: string)
    decreases |s|
    ensures Squeeze(s, true) == Squeeze(s[LeadingNewlines(s)..], false)
  {
    if s != [] && s[0] == '\n' {
      SqueezeSkipsRun(s[1..]);
      assert s[1..][LeadingNewlines(s[1..])..] == s[LeadingNewlines(s)..];
    }
  }

  lemma NewlinesToSpacesCons(c: char, s: string)
    ensures NewlinesToSpaces([c] + s) == [if c == '\n' then ' ' else c] + NewlinesToSpaces(s)
  {
    assert ([c] + s)[1..] == s;
  }

  lemma PrependSame(c: char, a: string, b: string)
    ensures [c] + a == [c] + b <==> a == b
  {
    if [c] + a == [c] + b {
      assert a == ([c] + a)[1..];
    }
  }

  /** ASCII case folding of one character, as `str.lower()` does for ASCII letters. */
  function LowerChar(c: char): char {
    if 'A' <= c <= 'Z' then (c as int + 32) as char else c
  }

  /** `s.lower()` for ASCII letters; other characters are kept. */
  function Lower(s: string): (r: string)
    ensures |r| == |s|
  {
    if s == [] then [] else [LowerChar(s[0])] + Lower(s[1..])
  }

  /** `lower()` folds each character on its own. */
  lemma {:induction false} LowerAt(s: string)
    ensures forall k :: 0 <= k < |s| ==> Lower(s)[k] == LowerChar(s[k])
  {
    if s != [] {
      LowerAt(s[1..]);
      forall k | 0 <= k < |s|
        ensures Lower(s)[k] == LowerChar(s[k])
      {
        if k > 0 {
          assert Lower(s)[k] == Lower(s[1..])[k - 1];
        }
      }
    }
  }
}
