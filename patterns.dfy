/**
 * The regular expressions of the extractor, each written out as a string
 * predicate, and Python's `re.search` as a leftmost search over them.
 *
 * `\d` is read as an ASCII digit and `\s` as a character for which Python's
 * `str.isspace()` holds.
 */
module Patterns {
  import opened Options
  import opened Strings

  /** Python's `\s` on `str` patterns. */
  predicate IsSpace(c: char)
  {
    || '\t' <= c <= '\r'
    || '\U{1C}' <= c <= '\U{1F}'
    || c == ' ' || c == '\U{85}' || c == '\U{A0}' || c == '\U{1680}'
    || '\U{2000}' <= c <= '\U{200A}'
    || c == '\U{2028}' || c == '\U{2029}' || c == '\U{202F}' || c == '\U{205F}' || c == '\U{3000}'
  }

  /** The end of the longest run of characters satisfying `p` that starts at `i` (a greedy `p*`). */
  function RunEnd(s: string, i: nat, p: char -> bool): (j: nat)
    requires i <= |s|
    ensures i <= j <= |s|
    ensures forall k :: i <= k < j ==> p(s[k])
    ensures j == |s| || !p(s[j])
    decreases |s| - i
  {
    if i < |s| && p(s[i]) then RunEnd(s, i + 1, p) else i
  }

  /**
   * Where the group of `(\d+\.?\d*)\s*℃` ends when the match starts at `p`.
   * Backtracking cannot help once the greedy parts fail: a shorter digit run
   * leaves a digit where `\s*℃` needs a space or `℃`, so the match succeeds
   * exactly when the greedy reading is followed by `℃`.
   */
  function TemperatureGroupEnd(s: string, p: nat): (e: Option<nat>)
    ensures e.Some? ==> p < e.value <= |s|
  {
    if p < |s| && IsDigit(s[p]) then
      var a := RunEnd(s, p, IsDigit);
      var b := if a < |s| && s[a] == '.' then RunEnd(s, a + 1, IsDigit) else a;
      var c := RunEnd(s, b, IsSpace);
      if c < |s| && s[c] == '℃' then Some(b) else None
    else None
  }

  /** A run that satisfies `p` from `i` up to `j` and stops there ends at `j`. */
  lemma {:induction false} RunEndAt(s: string, i: nat, j: nat, p: char -> bool)
    requires i <= j <= |s|
    requires forall k :: i <= k < j ==> p(s[k])
    requires j == |s| || !p(s[j])
    ensures RunEnd(s, i, p) == j
    decreases j - i
  {
    if i < j {
      RunEndAt(s, i + 1, j, p);
    }
  }

  /**
   * One way for `(\d+\.?\d*)\s*℃` to match at `p`: digits up to `a`, an
   * optional point up to `d`, digits up to `b`, spaces up to `c`, then ℃ at
   * `c`. The group is `s[p..b]`.
   */
  predicate TemperatureSplit(s: string, p: nat, a: nat, d: nat, b: nat, c: nat)
  {
    && p < a <= d <= b <= c < |s|
    && (forall k :: p <= k < a ==> IsDigit(s[k]))
    && (d == a || (d == a + 1 && s[a] == '.'))
    && (forall k :: d <= k < b ==> IsDigit(s[k]))
    && (forall k :: b <= k < c ==> IsSpace(s[k]))
    && s[c] == '℃'
  }

  /** Whichever way the pattern matches at `p`, the greedy reading matches too, with the same group. */
  lemma TemperatureSplitGroup(s: string, p: nat, a: nat, d: nat, b: nat, c: nat)
    requires TemperatureSplit(s, p, a, d, b, c)
    ensures TemperatureGroupEnd(s, p) == Some(b)
  {
    assert !IsDigit(s[b]) && s[b] != '.' && !IsSpace(s[c]);
    if d == a {
      RunEndAt(s, p, b, IsDigit);
    } else {
      RunEndAt(s, p, a, IsDigit);
      RunEndAt(s, a + 1, b, IsDigit);
    }
    RunEndAt(s, b, c, IsSpace);
  }

  /** When the greedy reading succeeds, it is a match of the pattern at `p`. */
  lemma TemperatureGreedySplit(s: string, p: nat)
    requires TemperatureGroupEnd(s, p).Some?
    ensures exists a, d, c :: TemperatureSplit(s, p, a, d, TemperatureGroupEnd(s, p).value, c)
  {
    var a := RunEnd(s, p, IsDigit);
    var d := if a < |s| && s[a] == '.' then a + 1 else a;
    var b := if a < |s| && s[a] == '.' then RunEnd(s, a + 1, IsDigit) else a;
    var c := RunEnd(s, b, IsSpace);
    assert TemperatureSplit(s, p, a, d, b, c);
  }

  /** `\d+m` matches at `q`: a greedy run of digits followed by `m`. */
  predicate WindNumberAt(s: string, q: nat)
  {
    q < |s| && IsDigit(s[q]) && RunEnd(s, q, IsDigit) < |s| && s[RunEnd(s, q, IsDigit)] == 'm'
  }

  /**
   * The lazy `.*?(\d+m)` tried from `q`: the first position, reached without
   * crossing a newline (which `.` does not match), where `\d+m` matches.
   */
  function LazyWind(s: string, q: nat): (r: Option<nat>)
    requires q <= |s|
    ensures r.Some? ==> q <= r.value && WindNumberAt(s, r.value)
    ensures r.Some? ==> forall k :: q <= k < r.value ==> s[k] != '\n' && !WindNumberAt(s, k)
    ensures r.None? ==> forall k :: q <= k < |s| && '\n' !in s[q..k] ==> !WindNumberAt(s, k)
    decreases |s| - q
  {
    if WindNumberAt(s, q) then Some(q)
    else if q < |s| && s[q] != '\n' then
      var r := LazyWind(s, q + 1);
      assert forall k :: q + 1 <= k < |s| ==> s[q..k] == [s[q]] + s[q + 1..k];
      r
    else None
  }

  const WindLabel: string := "風速"

  /** The regular expressions the extractor searches with. */
  datatype Pattern =
    | Weight       // (\d{2})kg
    | Rate         // (\d\.\d{2})
    | Motor        // (\d{2}\.\d{2})
    | Temperature  // (\d+\.?\d*)\s*℃
    | Wind         // 風速.*?(\d+m)

  /** The pattern matches `s` starting at position `p` (what `re.match` on `s[p..]` tests). */
  predicate MatchesAt(pat: Pattern, s: string, p: nat)
  {
    match pat
    case Weight => p + 4 <= |s| && IsDigit(s[p]) && IsDigit(s[p + 1]) && s[p + 2] == 'k' && s[p + 3] == 'g'
    case Rate => p + 4 <= |s| && IsDigit(s[p]) && s[p + 1] == '.' && IsDigit(s[p + 2]) && IsDigit(s[p + 3])
    case Motor =>
      p + 5 <= |s| && IsDigit(s[p]) && IsDigit(s[p + 1]) && s[p + 2] == '.'
      && IsDigit(s[p + 3]) && IsDigit(s[p + 4])
    case Temperature => TemperatureGroupEnd(s, p).Some?
    case Wind => OccursAt(s, WindLabel, p) && LazyWind(s, p + |WindLabel|).Some?
  }

  /** The span `[start, end)` of group 1 of a match starting at `p`. */
  function GroupSpan(pat: Pattern, s: string, p: nat): (span: (nat, nat))
    requires MatchesAt(pat, s, p)
    ensures p <= span.0 < span.1 <= |s|
  {
    match pat
    case Weight => (p, p + 2)
    case Rate => (p, p + 4)
    case Motor => (p, p + 5)
    case Temperature => (p, TemperatureGroupEnd(s, p).value)
    case Wind =>
      var q := LazyWind(s, p + |WindLabel|).value;
      (q, RunEnd(s, q, IsDigit) + 1)
  }

  /** Python's `re.search(pat, s[from..])`: the leftmost position at or after `from` where `pat` matches. */
  function Search(pat: Pattern, s: string, from: nat): (r: Option<nat>)
    ensures r.Some? ==> from <= r.value < |s| && MatchesAt(pat, s, r.value)
    ensures r.Some? ==> forall q :: from <= q < r.value ==> !MatchesAt(pat, s, q)
    ensures r.None? ==> forall q :: from <= q < |s| ==> !MatchesAt(pat, s, q)
    decreases |s| - from
  {
    if from >= |s| then None
    else if MatchesAt(pat, s, from) then Some(from)
    else Search(pat, s, from + 1)
  }

  /** The pattern matches nowhere in `s`. */
  predicate NoMatch(pat: Pattern, s: string)
  {
    forall q :: 0 <= q < |s| ==> !MatchesAt(pat, s, q)
  }

  /** Python's `re.search(pat, s).group(1)`, or None when nothing matches. */
  function FirstGroup(pat: Pattern, s: string): Option<string>
  {
    match Search(pat, s, 0)
    case None => None
    case Some(p) =>
      var span := GroupSpan(pat, s, p);
      Some(s[span.0..span.1])
  }

  /** The first group is missing iff no position matches; otherwise it is the group of the leftmost match. */
  lemma FirstGroupMeaning(pat: Pattern, s: string)
    ensures FirstGroup(pat, s).None? <==> NoMatch(pat, s)
    ensures FirstGroup(pat, s).Some? ==>
      exists p :: 0 <= p < |s| && MatchesAt(pat, s, p) && (forall q :: 0 <= q < p ==> !MatchesAt(pat, s, q))
        && FirstGroup(pat, s).value == s[GroupSpan(pat, s, p).0..GroupSpan(pat, s, p).1]
  {
  }

  /** Python's `re.match(r'0\.\d{2}', item)`: a start timing such as `0.15` at the start of the token. */
  predicate IsStartTiming(item: string)
  {
    |item| >= 4 && item[0] == '0' && item[1] == '.' && IsDigit(item[2]) && IsDigit(item[3])
  }
}
