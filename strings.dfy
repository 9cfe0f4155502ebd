/**
 * The string logic `exports.parse` relies on: where `s.match(/\{.*\}/)` finds
 * its match, and `s.split(sep)` for a non-empty string separator.
 */
module Strings {
  import opened Errors

  // ---------------------------------------------------------------------------
  // The regular expression /\{.*\}/
  // ---------------------------------------------------------------------------

  /** The characters JavaScript's `.` does not match. */
  predicate IsLineTerminator(c: char)
  {
    c == '\n' || c == '\r' || c == '\U{2028}' || c == '\U{2029}'
  }

  /** `/\{.*\}/` can match `s[i..j + 1]`: a '{' at i, a '}' at j, and no line terminator between them. */
  predicate IsBraceMatch(s: string, i: int, j: int)
  {
    && 0 <= i < j < |s|
    && s[i] == '{'
    && s[j] == '}'
    && forall k :: i < k < j ==> !IsLineTerminator(s[k])
  }

  /** The match the regex returns: the leftmost start that has any match, and from it the longest (greedy) one. */
  ghost predicate IsRegexMatch(s: string, i: int, j: int)
  {
    && IsBraceMatch(s, i, j)
    && (forall j' :: IsBraceMatch(s, i, j') ==> j' <= j)
    && (forall i', j' :: 0 <= i' < i ==> !IsBraceMatch(s, i', j'))
  }

  /** A matched span: `s[start..last + 1]`. */
  datatype Span = Span(start: nat, last: nat)

  /** The last '}' before the end of the line that contains position k (or the end of `s`), or `best` if there is none. */
  function LastCloseOnLine(s: string, k: nat, best: Option<nat>): Option<nat>
    decreases |s| - k
  {
    if k >= |s| || IsLineTerminator(s[k]) then best
    else LastCloseOnLine(s, k + 1, if s[k] == '}' then Some(k) else best)
  }

  /** The first start position from i on that has a match, and its longest match. */
  function FindBraceSpan(s: string, i: nat): Option<Span>
    decreases |s| - i
  {
    if i >= |s| then None
    else if s[i] == '{' && LastCloseOnLine(s, i + 1, None).Some? then
      Some(Span(i, LastCloseOnLine(s, i + 1, None).value))
    else FindBraceSpan(s, i + 1)
  }


  /** Scanning one line from k on finds the greedy end of a match that starts at the '{' at i. */
  lemma {:induction false} LastCloseOnLineFinds(s: string, i: nat, k: nat, best: Option<nat>)
    requires i < k <= |s| && s[i] == '{'
    requires forall m :: i < m < k ==> !IsLineTerminator(s[m])
    requires best.Some? ==> i < best.value < k && s[best.value] == '}'
    requires forall m :: i < m < k && s[m] == '}' ==> best.Some? && m <= best.value
    ensures var r := LastCloseOnLine(s, k, best);
      && (r.Some? ==> IsBraceMatch(s, i, r.value) && forall j :: IsBraceMatch(s, i, j) ==> j <= r.value)
      && (r.None? ==> forall j :: !IsBraceMatch(s, i, j))
    decreases |s| - k
  {
    if k >= |s| || IsLineTerminator(s[k]) {
      forall j | IsBraceMatch(s, i, j)
        ensures best.Some? && j <= best.value
      {
        assert j < k;
      }
    } else {
      LastCloseOnLineFinds(s, i, k + 1, if s[k] == '}' then Some(k) else best);
    }
  }

  lemma {:induction false} FindBraceSpanFinds(s: string, i: nat)
    ensures var r := FindBraceSpan(s, i);
      && (r.Some? ==>
            && i <= r.value.start
            && IsBraceMatch(s, r.value.start, r.value.last)
            && (forall j :: IsBraceMatch(s, r.value.start, j) ==> j <= r.value.last)
            && (forall a, j :: i <= a < r.value.start ==> !IsBraceMatch(s, a, j)))
      && (r.None? ==> forall a, j :: i <= a ==> !IsBraceMatch(s, a, j))
    decreases |s| - i
  {
    if i < |s| {
      if s[i] == '{' {
        LastCloseOnLineFinds(s, i, i + 1, None);
      }
      if !(s[i] == '{' && LastCloseOnLine(s, i + 1, None).Some?) {
        FindBraceSpanFinds(s, i + 1);
        assert forall j :: !IsBraceMatch(s, i, j);
      }
    }
  }

  /**
   * `s.match(/\{.*\}/)`: the span of the match, or None when the regex does not
   * match. It finds a span exactly when one exists, and the span it finds is
   * the leftmost-longest one.
   */
  function RegexMatch(s: string): (r: Option<Span>)
    ensures r.None? <==> forall i, j :: !IsBraceMatch(s, i, j)
    ensures r.Some? ==> IsRegexMatch(s, r.value.start, r.value.last)
  {
    FindBraceSpanFinds(s, 0);
    FindBraceSpan(s, 0)
  }

  /** The leftmost-longest match is unique, so RegexMatch returns it. */
  lemma RegexMatchUnique(s: string, i: int, j: int)
    requires IsRegexMatch(s, i, j)
    ensures RegexMatch(s) == Some(Span(i, j))
  {
    var r := RegexMatch(s).value;
    assert IsBraceMatch(s, r.start, r.last) && IsBraceMatch(s, i, j);
  }

  /** The text the regex matched, `match[0]`; it starts with '{' and ends with '}'. */
  function MatchedText(s: string, span: Span): (m: string)
    requires IsBraceMatch(s, span.start, span.last)
    ensures |m| >= 2 && m[0] == '{' && m[|m| - 1] == '}'
  {
    s[span.start..span.last + 1]
  }

  // ---------------------------------------------------------------------------
  // String.prototype.split with a string separator
  // ---------------------------------------------------------------------------

  /** `sep` occurs in `s` starting at position q. */
  predicate OccursAt(s: string, sep: string, q: int)
  {
    0 <= q && q + |sep| <= |s| && s[q..q + |sep|] == sep
  }

  ghost predicate Contains(s: string, sep: string)
  {
    exists q :: OccursAt(s, sep, q)
  }

  /** The first position from k on where `sep` occurs in `s`. */
  function FirstOccurrence(s: string, sep: string, k: nat): (r: Option<nat>)
    ensures r.Some? ==> k <= r.value && OccursAt(s, sep, r.value) && forall q :: k <= q < r.value ==> !OccursAt(s, sep, q)
    ensures r.None? ==> forall q :: k <= q ==> !OccursAt(s, sep, q)
    decreases |s| - k
  {
    if k + |sep| > |s| then None
    else if s[k..k + |sep|] == sep then Some(k)
    else FirstOccurrence(s, sep, k + 1)
  }

  /** `s.split(sep)` for a non-empty string separator: cut at every occurrence, scanning from the left. */
  function Split(s: string, sep: string): (pieces: seq<string>)
    requires |sep| > 0
    ensures |pieces| >= 1
    decreases |s|
  {
    match FirstOccurrence(s, sep, 0)
    case None => [s]
    case Some(q) => [s[..q]] + Split(s[q + |sep|..], sep)
  }

  /** `pieces.join(sep)`. */
  function Join(pieces: seq<string>, sep: string): string
  {
    if pieces == [] then ""
    else if |pieces| == 1 then pieces[0]
    else pieces[0] + sep + Join(pieces[1..], sep)
  }

  /**
   * Split cuts exactly at the occurrences of `sep`: joining the pieces with
   * `sep` gives back `s`; no occurrence of `sep` starts inside a piece, even
   * one running into the separator after it; and the last piece does not
   * contain `sep`.
   */
  lemma {:induction false} SplitCutsAtEveryOccurrence(s: string, sep: string)
    requires |sep| > 0
    ensures Join(Split(s, sep), sep) == s
    ensures var pieces := Split(s, sep);
      forall k, m :: 0 <= k < |pieces| - 1 && 0 <= m < |pieces[k]| ==> !OccursAt(pieces[k] + sep, sep, m)
    ensures var pieces := Split(s, sep);
      forall k :: 0 <= k < |pieces| ==> !Contains(pieces[k], sep)
    decreases |s|
  {
    var pieces := Split(s, sep);
    match FirstOccurrence(s, sep, 0)
    case None =>
      assert pieces == [s];
    case Some(q) =>
      var head, tail := s[..q], s[q + |sep|..];
      var rest := Split(tail, sep);
      assert pieces == [head] + rest;
      SplitCutsAtEveryOccurrence(tail, sep);
      assert s == head + sep + tail by {
        assert s[q..q + |sep|] == sep;
        assert s == s[..q] + s[q..q + |sep|] + s[q + |sep|..];
      }
      assert pieces[1..] == rest;
      assert Join(pieces, sep) == s;
      assert head + sep == s[..q + |sep|];
      forall m | 0 <= m < |head|
        ensures !OccursAt(head + sep, sep, m)
      {
        assert !OccursAt(s, sep, m);
        assert (head + sep)[m..m + |sep|] == s[m..m + |sep|];
      }
      assert !Contains(head, sep) by {
        forall m | OccursAt(head, sep, m)
          ensures false
        {
          assert s[m..m + |sep|] == head[m..m + |sep|];
          assert OccursAt(s, sep, m);
        }
      }
      forall k | 1 <= k < |pieces|
        ensures pieces[k] == rest[k - 1]
      {
      }
  }

  /** Splitting on text that occurs in `s` gives at least two pieces. */
  lemma SplitOnOccurringText(s: string, sep: string, q: nat)
    requires |sep| > 0 && OccursAt(s, sep, q)
    ensures |Split(s, sep)| >= 2
  {
  }
}
