/** The part of ECMAScript's `String.prototype.replace` that the core uses: a
    STRING search pattern, which replaces only the FIRST occurrence (ECMA-262,
    2024 edition, section 22.1.3.19, "String.prototype.replace"). */
module JsString {
  import opened Wrappers

  /** `pat` occurs in `s` starting at code point index `i`. */
  predicate OccursAt(s: string, pat: string, i: nat)
  {
    i + |pat| <= |s| && s[i..i + |pat|] == pat
  }

  /** The first index at or after `from` where `pat` occurs in `s`
      (StringIndexOf in ECMA-262); `None` stands for the result -1. */
  function IndexOfFrom(s: string, pat: string, from: nat): (r: Option<nat>)
    requires from <= |s|
    decreases |s| - from
    ensures r.Some? ==> from <= r.value && OccursAt(s, pat, r.value)
    ensures r.Some? ==> forall j :: from <= j < r.value ==> !OccursAt(s, pat, j)
    ensures r.None? ==> forall j :: from <= j <= |s| ==> !OccursAt(s, pat, j)
  {
    if OccursAt(s, pat, from) then Some(from)
    else if from == |s| then None
    else IndexOfFrom(s, pat, from + 1)
  }

  /** The first index where `pat` occurs in `s`, if any. */
  function IndexOf(s: string, pat: string): (r: Option<nat>)
    ensures r.Some? ==> OccursAt(s, pat, r.value)
    ensures r.Some? ==> forall j :: 0 <= j < r.value ==> !OccursAt(s, pat, j)
    ensures r.None? ==> forall j :: 0 <= j <= |s| ==> !OccursAt(s, pat, j)
  {
    IndexOfFrom(s, pat, 0)
  }

  /** `s.replace(pat, rep)` for a string `pat`: the first occurrence of `pat`
      is replaced by `rep`; with no occurrence, `s` is returned unchanged.
      The `$` substitution patterns of a replacement string are not modelled
      (no replacement in this program contains `$`). */
  function ReplaceFirst(s: string, pat: string, rep: string): (r: string)
    ensures IndexOf(s, pat).None? ==> r == s
    ensures IndexOf(s, pat).Some? ==>
              var i := IndexOf(s, pat).value;
              && |r| == |s| - |pat| + |rep|
              && r[..i] == s[..i] && OccursAt(r, rep, i) && r[i + |rep|..] == s[i + |pat|..]
  {
    match IndexOf(s, pat)
    case None => s
    case Some(i) => s[..i] + rep + s[i + |pat|..]
  }

  /** With no occurrence of the pattern, `replace` returns its input. */
  lemma ReplaceFirstAbsent(s: string, pat: string, rep: string)
    requires forall j :: 0 <= j <= |s| ==> !OccursAt(s, pat, j)
    ensures ReplaceFirst(s, pat, rep) == s
  {
  }

  /** If the first occurrence of `pat` is at `i`, exactly that occurrence is
      replaced: everything before `i` and after the occurrence is kept. */
  lemma ReplaceFirstAt(s: string, pat: string, rep: string, i: nat)
    requires OccursAt(s, pat, i)
    requires forall j :: 0 <= j < i ==> !OccursAt(s, pat, j)
    ensures ReplaceFirst(s, pat, rep) == s[..i] + rep + s[i + |pat|..]
  {
  }

  /** An occurrence in `s` is an occurrence in `p + s`, shifted by `|p|`. */
  lemma OccursAfterPrefix(p: string, s: string, pat: string, j: nat)
    ensures OccursAt(p + s, pat, |p| + j) == OccursAt(s, pat, j)
  {
    if j + |pat| <= |s| {
      assert (p + s)[|p| + j..|p| + j + |pat|] == s[j..j + |pat|];
    }
  }

  /** No occurrence of `pat` starts inside a text free of `pat[0]`. */
  lemma NoOccurrenceInPrefix(p: string, s: string, pat: string, j: nat)
    requires |pat| > 0 && j < |p|
    requires forall k :: 0 <= k < |p| ==> p[k] != pat[0]
    ensures !OccursAt(p + s, pat, j)
  {
    var t := p + s;
    if j + |pat| <= |t| {
      assert t[j..j + |pat|][0] == t[j] == p[j];
    }
  }

  /** The occurrences of `pat` in `p + s` before `|p| + n` are those of `s`
      before `n`, when `p` is free of `pat[0]`. */
  lemma NoOccurrenceBefore(p: string, s: string, pat: string, n: nat)
    requires |pat| > 0
    requires forall k :: 0 <= k < |p| ==> p[k] != pat[0]
    requires forall j :: 0 <= j < n ==> !OccursAt(s, pat, j)
    ensures forall j :: 0 <= j < |p| + n ==> !OccursAt(p + s, pat, j)
  {
    forall j | 0 <= j < |p| + n
      ensures !OccursAt(p + s, pat, j)
    {
      if j < |p| {
        NoOccurrenceInPrefix(p, s, pat, j);
      } else {
        OccursAfterPrefix(p, s, pat, j - |p|);
      }
    }
  }

  /** Prepending a text that does not contain the pattern's first character
      moves the first occurrence but does not change which one it is, so
      prepending and replacing commute. */
  lemma ReplaceFirstAfterPrefix(p: string, s: string, pat: string, rep: string)
    requires |pat| > 0
    requires forall k :: 0 <= k < |p| ==> p[k] != pat[0]
    ensures ReplaceFirst(p + s, pat, rep) == p + ReplaceFirst(s, pat, rep)
  {
    match IndexOf(s, pat)
    case None =>
      ReplaceFirstAbsent(s, pat, rep);
      ReplaceAfterPrefixAbsent(p, s, pat, rep);
    case Some(i) =>
      ReplaceFirstAt(s, pat, rep, i);
      ReplaceAfterPrefixAt(p, s, pat, rep, i);
      ConcatAssoc(p, s[..i] + rep, s[i + |pat|..]);
      ConcatAssoc(p, s[..i], rep);
  }

  /** Without an occurrence in `s`, there is none in `p + s` either. */
  lemma ReplaceAfterPrefixAbsent(p: string, s: string, pat: string, rep: string)
    requires |pat| > 0
    requires forall k :: 0 <= k < |p| ==> p[k] != pat[0]
    requires forall j :: 0 <= j <= |s| ==> !OccursAt(s, pat, j)
    ensures ReplaceFirst(p + s, pat, rep) == p + s
  {
    NoOccurrenceBefore(p, s, pat, |s| + 1);
    ReplaceFirstAbsent(p + s, pat, rep);
  }

  /** The first occurrence in `s` is the first one in `p + s`, shifted. */
  lemma ReplaceAfterPrefixAt(p: string, s: string, pat: string, rep: string, i: nat)
    requires |pat| > 0
    requires forall k :: 0 <= k < |p| ==> p[k] != pat[0]
    requires OccursAt(s, pat, i)
    requires forall j :: 0 <= j < i ==> !OccursAt(s, pat, j)
    ensures ReplaceFirst(p + s, pat, rep) == p + s[..i] + rep + s[i + |pat|..]
  {
    var t := p + s;
    NoOccurrenceBefore(p, s, pat, i);
    OccursAfterPrefix(p, s, pat, i);
    ReplaceFirstAt(t, pat, rep, |p| + i);
    assert t[..|p| + i] == p + s[..i];
    assert t[|p| + i + |pat|..] == s[i + |pat|..];
  }

  lemma ConcatAssoc(a: string, b: string, c: string)
    ensures a + (b + c) == a + b + c
  {
  }
}
