/** The few .NET string operations the generators rely on: white-space tests
    (`char.IsWhiteSpace`, `string.IsNullOrWhiteSpace`), `Trim`, ordinal `IndexOf` and
    `Contains`, `LastIndexOf` on a character and `string.Join`. */
module Text {
  import opened Wrappers

  /** `char.IsWhiteSpace`: the Unicode space, line and paragraph separators and the controls
      U+0009 to U+000D and U+0085. */
  predicate IsWhiteSpace(c: char) {
    ('\U{0009}' <= c <= '\U{000D}') || c == ' ' || c == '\U{0085}' || c == '\U{00A0}' || c == '\U{1680}'
    || ('\U{2000}' <= c <= '\U{200A}') || c == '\U{2028}' || c == '\U{2029}' || c == '\U{202F}'
    || c == '\U{205F}' || c == '\U{3000}'
  }

  /** `string.IsNullOrWhiteSpace` for a string that is not null. */
  predicate IsBlank(s: string) {
    forall i :: 0 <= i < |s| ==> IsWhiteSpace(s[i])
  }

  /** A character a trim removes: white space, and the null character as well when `andNull`
      holds. */
  predicate Trimmed(c: char, andNull: bool) {
    IsWhiteSpace(c) || (andNull && c == '\0')
  }

  function TrimStart(s: string, andNull: bool): (r: string)
    ensures |r| <= |s| && r == s[|s| - |r|..]
    ensures forall i :: 0 <= i < |s| - |r| ==> Trimmed(s[i], andNull)
    ensures r == [] || !Trimmed(r[0], andNull)
  {
    if |s| > 0 && Trimmed(s[0], andNull) then TrimStart(s[1..], andNull) else s
  }

  function TrimEnd(s: string, andNull: bool): (r: string)
    ensures |r| <= |s| && r == s[..|r|]
    ensures forall i :: |r| <= i < |s| ==> Trimmed(s[i], andNull)
    ensures r == [] || !Trimmed(r[|r| - 1], andNull)
  {
    if |s| > 0 && Trimmed(s[|s| - 1], andNull) then TrimEnd(s[..|s| - 1], andNull) else s
  }

  /** `string.Trim()`: white space is removed from both ends and nothing else. */
  function Trim(s: string): (r: string)
    ensures |r| <= |s|
    ensures r == [] || (!IsWhiteSpace(r[0]) && !IsWhiteSpace(r[|r| - 1]))
    ensures r == [] <==> IsBlank(s)
    ensures (s == [] || (!IsWhiteSpace(s[0]) && !IsWhiteSpace(s[|s| - 1]))) ==> r == s
  {
    TrimEnd(TrimStart(s, false), false)
  }

  /** The trim `bool.Parse` applies: white space and null characters are removed from both
      ends. */
  function TrimWhiteSpaceAndNull(s: string): (r: string)
    ensures |r| <= |s|
    ensures r == [] || (!Trimmed(r[0], true) && !Trimmed(r[|r| - 1], true))
    ensures r == [] <==> forall i :: 0 <= i < |s| ==> Trimmed(s[i], true)
    ensures (s == [] || (!Trimmed(s[0], true) && !Trimmed(s[|s| - 1], true))) ==> r == s
  {
    TrimEnd(TrimStart(s, true), true)
  }

  /** Trimmable characters before a string are all removed from the front. */
  lemma {:induction false} TrimStartPrefix(pre: string, s: string, andNull: bool)
    requires forall i :: 0 <= i < |pre| ==> Trimmed(pre[i], andNull)
    ensures TrimStart(pre + s, andNull) == TrimStart(s, andNull)
    decreases |pre|
  {
    if pre == [] {
      assert pre + s == s;
    } else {
      assert (pre + s)[0] == pre[0] && (pre + s)[1..] == pre[1..] + s;
      TrimStartPrefix(pre[1..], s, andNull);
    }
  }

  /** Trimmable characters after a string are all removed from the back. */
  lemma {:induction false} TrimEndSuffix(s: string, post: string, andNull: bool)
    requires forall i :: 0 <= i < |post| ==> Trimmed(post[i], andNull)
    ensures TrimEnd(s + post, andNull) == TrimEnd(s, andNull)
    decreases |post|
  {
    if post == [] {
      assert s + post == s;
    } else {
      assert (s + post)[|s + post| - 1] == post[|post| - 1];
      assert (s + post)[..|s + post| - 1] == s + post[..|post| - 1];
      TrimEndSuffix(s, post[..|post| - 1], andNull);
    }
  }

  /** A string whose ends are not trimmable, padded with trimmable characters, trims back to
      itself. */
  lemma PaddedTrim(pre: string, w: string, post: string)
    requires w != [] && !Trimmed(w[0], true) && !Trimmed(w[|w| - 1], true)
    requires forall i :: 0 <= i < |pre| ==> Trimmed(pre[i], true)
    requires forall i :: 0 <= i < |post| ==> Trimmed(post[i], true)
    ensures TrimWhiteSpaceAndNull(pre + w + post) == w
  {
    assert pre + w + post == pre + (w + post);
    TrimStartPrefix(pre, w + post, true);
    assert (w + post)[0] == w[0];
    assert TrimStart(w + post, true) == w + post;
    TrimEndSuffix(w, post, true);
  }

  /** `pat` occurs in `s` at index `i`. */
  predicate MatchesAt(s: string, pat: string, i: int) {
    0 <= i && i + |pat| <= |s| && s[i..i + |pat|] == pat
  }

  /** Ordinal `s.IndexOf(pat, from)`: the leftmost occurrence at or after `from`. */
  function IndexOfFrom(s: string, pat: string, from: nat): (r: Option<nat>)
    ensures r.Some? ==> from <= r.value && MatchesAt(s, pat, r.value)
    ensures r.Some? ==> forall j :: from <= j < r.value ==> !MatchesAt(s, pat, j)
    ensures r.None? ==> forall j :: from <= j ==> !MatchesAt(s, pat, j)
    decreases |s| - from
  {
    if from + |pat| > |s| then None
    else if s[from..from + |pat|] == pat then Some(from)
    else IndexOfFrom(s, pat, from + 1)
  }

  /** Ordinal `s.Contains(pat)`. */
  predicate Contains(s: string, pat: string) {
    IndexOfFrom(s, pat, 0).Some?
  }

  /** A string that contains `pat` still contains it once anything is put before or after it. */
  lemma ContainsExtended(pre: string, s: string, post: string, pat: string)
    requires Contains(s, pat)
    ensures Contains(pre + s + post, pat)
  {
    var i := IndexOfFrom(s, pat, 0).value;
    assert (pre + s + post)[|pre| + i..|pre| + i + |pat|] == s[i..i + |pat|];
    assert MatchesAt(pre + s + post, pat, |pre| + i);
  }

  /** `s.LastIndexOf(c)`. */
  function LastIndexOf(s: string, c: char): (r: Option<nat>)
    ensures r.Some? ==> r.value < |s| && s[r.value] == c
    ensures r.Some? ==> forall j :: r.value < j < |s| ==> s[j] != c
    ensures r.None? ==> forall j :: 0 <= j < |s| ==> s[j] != c
  {
    if |s| == 0 then None
    else if s[|s| - 1] == c then Some(|s| - 1)
    else LastIndexOf(s[..|s| - 1], c)
  }

  /** `string.Join(sep, parts)`. */
  function Join(sep: string, parts: seq<string>): (r: string)
    ensures parts == [] ==> r == ""
    ensures |parts| > 0 ==> |parts[|parts| - 1]| <= |r| && r[|r| - |parts[|parts| - 1]|..] == parts[|parts| - 1]
  {
    if |parts| == 0 then ""
    else if |parts| == 1 then parts[0]
    else Join(sep, parts[..|parts| - 1]) + sep + parts[|parts| - 1]
  }
}
