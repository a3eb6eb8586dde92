/**
 * The string operations of Python that the extractor relies on: substring
 * test (`t in s`), `str.replace(pat, "")`, `sep.join(xs)`, `str.split(c)`
 * and `str(n)` for a natural number.
 */
module Strings {

  /** `t` occurs in `s` at index `i`. */
  predicate OccursAt(s: string, t: string, i: nat)
  {
    i + |t| <= |s| && s[i..i + |t|] == t
  }

  /** Python's `t in s` on strings. */
  predicate Contains(s: string, t: string)
  {
    exists i: nat :: i <= |s| && OccursAt(s, t, i)
  }

  lemma {:induction false} ContainsTail(s: string, t: string)
    requires |s| > 0 && Contains(s[1..], t)
    ensures Contains(s, t)
  {
    var i: nat :| i <= |s[1..]| && OccursAt(s[1..], t, i);
    assert s[i + 1..i + 1 + |t|] == s[1..][i..i + |t|];
    assert OccursAt(s, t, i + 1);
  }

  /**
   * Python's `s.replace(pat, "")`: every occurrence of `pat`, found left to
   * right without overlap, is deleted.
   */
  function RemoveAll(s: string, pat: string): (r: string)
    requires |pat| > 0
    ensures |r| <= |s|
    ensures |pat| == 1 ==> forall k :: 0 <= k < |r| ==> r[k] != pat[0]
    decreases |s|
  {
    if |s| < |pat| then s
    else if s[..|pat|] == pat then RemoveAll(s[|pat|..], pat)
    else [s[0]] + RemoveAll(s[1..], pat)
  }

  /** Deleting a one-character pattern removes every copy of that character and keeps every other character. */
  lemma {:induction false} RemoveAllChar(s: string, c: char)
    ensures multiset(RemoveAll(s, [c])) == multiset(s)[c := 0]
    decreases |s|
  {
    if |s| > 0 {
      RemoveAllChar(s[1..], c);
      assert s == [s[0]] + s[1..];
      assert s[..1] == [s[0]];
    }
  }

  /** With a one-character pattern, deletion works piece by piece: the kept characters stay in order. */
  lemma {:induction false} RemoveAllCharAppend(a: string, b: string, c: char)
    ensures RemoveAll(a + b, [c]) == RemoveAll(a, [c]) + RemoveAll(b, [c])
    decreases |a|
  {
    if |a| == 0 {
      assert a + b == b;
    } else {
      assert (a + b)[1..] == a[1..] + b;
      assert (a + b)[..1] == a[..1];
      RemoveAllCharAppend(a[1..], b, c);
      if a[..1] != [c] {
        assert RemoveAll(a + b, [c]) == [a[0]] + (RemoveAll(a[1..], [c]) + RemoveAll(b, [c]));
      }
    }
  }

  /** Deleting a pattern that does not occur leaves the string as it was. */
  lemma {:induction false} RemoveAllAbsent(s: string, pat: string)
    requires |pat| > 0 && !Contains(s, pat)
    ensures RemoveAll(s, pat) == s
    decreases |s|
  {
    if |s| >= |pat| {
      assert !OccursAt(s, pat, 0);
      if Contains(s[1..], pat) {
        ContainsTail(s, pat);
      }
      RemoveAllAbsent(s[1..], pat);
    }
  }

  /** Deleting a prefix from a string whose rest does not contain it yields the rest. */
  lemma StripPrefix(pat: string, rest: string)
    requires |pat| > 0 && !Contains(rest, pat)
    ensures RemoveAll(pat + rest, pat) == rest
  {
    assert (pat + rest)[..|pat|] == pat;
    assert (pat + rest)[|pat|..] == rest;
    RemoveAllAbsent(rest, pat);
  }

  /** Python's `sep.join(xs)`. */
  function Join(xs: seq<string>, sep: string): string
  {
    if |xs| == 0 then ""
    else if |xs| == 1 then xs[0]
    else xs[0] + sep + Join(xs[1..], sep)
  }

  /** The index of the first `c` in `s`. */
  function FirstIndex(s: string, c: char): (i: nat)
    requires c in s
    ensures i < |s| && s[i] == c && c !in s[..i]
  {
    if s[0] == c then 0
    else
      var j := FirstIndex(s[1..], c);
      assert s[..j + 1] == [s[0]] + s[1..][..j];
      1 + j
  }

  /** Python's `s.split(c)` for a one-character separator. */
  function Split(s: string, c: char): (r: seq<string>)
    ensures |r| > 0
    decreases |s|
  {
    if c !in s then [s]
    else
      var i := FirstIndex(s, c);
      [s[..i]] + Split(s[i + 1..], c)
  }

  /** In `x + [c] + rest` where `x` has no `c`, the first `c` is the one after `x`. */
  lemma FirstIndexAfter(x: string, c: char, rest: string)
    requires c !in x
    ensures FirstIndex(x + [c] + rest, c) == |x|
  {
    var s := x + [c] + rest;
    assert s[|x|] == c;
    var i := FirstIndex(s, c);
    assert s[..i] == x;
  }

  /** Splitting `x + [c] + rest` where `x` has no `c` peels off `x`. */
  lemma SplitCons(x: string, c: char, rest: string)
    requires c !in x
    ensures Split(x + [c] + rest, c) == [x] + Split(rest, c)
  {
    var s := x + [c] + rest;
    FirstIndexAfter(x, c, rest);
    assert s[..|x|] == x;
    assert s[|x| + 1..] == rest;
  }

  /** Joining and splitting again on a separator the parts do not contain gives back the parts. */
  lemma {:induction false} SplitJoin(xs: seq<string>, c: char)
    requires |xs| > 0
    requires forall k :: 0 <= k < |xs| ==> c !in xs[k]
    ensures Split(Join(xs, [c]), c) == xs
  {
    if |xs| > 1 {
      SplitJoin(xs[1..], c);
      SplitCons(xs[0], c, Join(xs[1..], [c]));
      assert xs == [xs[0]] + xs[1..];
    }
  }

  /** Each part followed by the character `c`, as in text whose every line ends in a line break. */
  function Terminated(xs: seq<string>, c: char): string
    decreases |xs|
  {
    if |xs| == 0 then "" else xs[0] + [c] + Terminated(xs[1..], c)
  }

  lemma {:induction false} TerminatedSnoc(xs: seq<string>, x: string, c: char)
    ensures Terminated(xs + [x], c) == Terminated(xs, c) + x + [c]
    decreases |xs|
  {
    if |xs| > 0 {
      assert (xs + [x])[1..] == xs[1..] + [x];
      TerminatedSnoc(xs[1..], x, c);
    }
  }

  /** Splitting terminated parts that do not contain the terminator gives back the parts, then an empty rest. */
  lemma {:induction false} SplitTerminated(xs: seq<string>, c: char)
    requires forall k :: 0 <= k < |xs| ==> c !in xs[k]
    ensures Split(Terminated(xs, c), c) == xs + [""]
    decreases |xs|
  {
    if |xs| > 0 {
      SplitCons(xs[0], c, Terminated(xs[1..], c));
      SplitTerminated(xs[1..], c);
      assert xs == [xs[0]] + xs[1..];
    }
  }

  predicate IsDigit(c: char)
  {
    '0' <= c <= '9'
  }

  function DigitValue(c: char): (d: nat)
    requires IsDigit(c)
    ensures d < 10
  {
    c as int - '0' as int
  }

  function DigitChar(d: nat): (c: char)
    requires d < 10
    ensures IsDigit(c) && DigitValue(c) == d
  {
    ('0' as int + d) as char
  }

  /** Python's `str(n)` for a natural number: its decimal digits without leading zeros. */
  function NatToString(n: nat): (r: string)
    ensures |r| > 0 && forall k :: 0 <= k < |r| ==> IsDigit(r[k])
    ensures |r| > 1 ==> r[0] != '0'
    decreases n
  {
    if n < 10 then [DigitChar(n)] else NatToString(n / 10) + [DigitChar(n % 10)]
  }

  /** The value of a string of decimal digits. */
  function DigitsValue(s: string): nat
    requires forall k :: 0 <= k < |s| ==> IsDigit(s[k])
  {
    if |s| == 0 then 0 else 10 * DigitsValue(s[..|s| - 1]) + DigitValue(s[|s| - 1])
  }

  lemma DigitsValueShort(s: string)
    requires 1 <= |s| <= 2 && forall k :: 0 <= k < |s| ==> IsDigit(s[k])
    ensures |s| == 1 ==> DigitsValue(s) == DigitValue(s[0])
    ensures |s| == 2 ==> DigitsValue(s) == 10 * DigitValue(s[0]) + DigitValue(s[1])
  {
    assert s[..|s| - 1][..0] == [];
    if |s| == 2 {
      assert s[..1][..0] == [];
    }
  }

  /** Reading back the digits `str(n)` writes gives `n`. */
  lemma {:induction false} NatToStringRoundTrip(n: nat)
    ensures DigitsValue(NatToString(n)) == n
    decreases n
  {
    if n >= 10 {
      NatToStringRoundTrip(n / 10);
      var s := NatToString(n);
      assert s[..|s| - 1] == NatToString(n / 10);
    }
  }
}
