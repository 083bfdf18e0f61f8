/**
 * The few Python string builtins the scraper relies on, over `seq<char>`:
 * ASCII digits, `int()` of a digit string and `"%d" % n`, the substring test
 * `k in s`, `str.split`, `str.replace` of one character, and ASCII
 * `lower()` / `upper()`.
 */
module Strings {
  import opened Wrappers

  // ---------------------------------------------------------------- digits

  predicate IsDigit(c: char) {
    '0' <= c <= '9'
  }

  predicate AllDigits(s: string) {
    forall i :: 0 <= i < |s| ==> IsDigit(s[i])
  }

  function DigitValue(c: char): (d: nat)
    requires IsDigit(c)
    ensures d < 10
  {
    c as int - '0' as int
  }

  function DigitChar(d: nat): (c: char)
    requires d < 10
    ensures IsDigit(c) && DigitValue(c) == d
  {
    ('0' as int + d) as char
  }

  /** The value of a string of decimal digits, most significant first (Python `int(ds)`). */
  function DecimalValue(ds: string): nat
    requires AllDigits(ds)
  {
    if ds == [] then 0 else 10 * DecimalValue(ds[..|ds| - 1]) + DigitValue(ds[|ds| - 1])
  }

  /** The decimal spelling of `n` (Python `"%d" % n`). */
  function NatToString(n: nat): (s: string)
    ensures |s| > 0 && AllDigits(s)
  {
    if n < 10 then [DigitChar(n)] else NatToString(n / 10) + [DigitChar(n % 10)]
  }

  /** Reading back the decimal spelling of `n` gives `n`. */
  lemma {:induction false} DecimalValueOfNatToString(n: nat)
    ensures DecimalValue(NatToString(n)) == n
  {
    if n >= 10 {
      var s := NatToString(n);
      assert s[..|s| - 1] == NatToString(n / 10);
      DecimalValueOfNatToString(n / 10);
    }
  }

  /** Different numbers have different spellings. */
  lemma NatToStringInjective(m: nat, n: nat)
    requires NatToString(m) == NatToString(n)
    ensures m == n
  {
    DecimalValueOfNatToString(m);
    DecimalValueOfNatToString(n);
  }

  // ------------------------------------------------------------ substrings

  /** `k` occurs in `s` starting at index `i`. */
  ghost predicate OccursAt(s: string, k: string, i: int) {
    0 <= i && i + |k| <= |s| && s[i..i + |k|] == k
  }

  /** The first index at which `k` occurs in `s` (Python `s.find(k)`, with None for -1). */
  function IndexOf(s: string, k: string): (r: Option<nat>)
    ensures r.Some? ==> OccursAt(s, k, r.value)
    ensures forall j :: 0 <= j && (r.None? || j < r.value) ==> !OccursAt(s, k, j)
    decreases |s|
  {
    if |s| < |k| then None
    else if s[..|k|] == k then Some(0)
    else
      match IndexOf(s[1..], k)
      case Some(j) =>
        assert forall i :: 1 <= i ==> (OccursAt(s, k, i) <==> OccursAt(s[1..], k, i - 1));
        Some(j + 1)
      case None =>
        assert forall i :: 1 <= i ==> (OccursAt(s, k, i) <==> OccursAt(s[1..], k, i - 1));
        None
  }

  /** Python's substring test `k in s`. */
  predicate Contains(s: string, k: string) {
    IndexOf(s, k).Some?
  }

  /** Text appended after a first occurrence does not move it. */
  lemma IndexOfExtend(t: string, k: string, x: string)
    requires IndexOf(t, k).Some?
    ensures IndexOf(t + x, k) == IndexOf(t, k)
  {
    var i := IndexOf(t, k).value;
    assert (t + x)[i..i + |k|] == t[i..i + |k|];
    assert OccursAt(t + x, k, i);
    forall j | 0 <= j < i
      ensures !OccursAt(t + x, k, j)
    {
      assert !OccursAt(t, k, j);
      assert (t + x)[j..j + |k|] == t[j..j + |k|];
    }
    var r := IndexOf(t + x, k);
    assert r.Some? && r.value <= i;
  }

  /** Whoever contains a word contains each of its prefixes. */
  lemma ContainsPrefix(s: string, k: string, x: string)
    requires Contains(s, k + x)
    ensures Contains(s, k)
  {
    var i := IndexOf(s, k + x).value;
    assert s[i..i + |k|] == (k + x)[..|k|] == k;
    assert OccursAt(s, k, i);
  }

  /** A word whose first letter appears nowhere in `s` does not occur in `s`. */
  lemma NotContainsFirstChar(s: string, k: string)
    requires |k| > 0 && k[0] !in s
    ensures !Contains(s, k)
  {
    forall i | 0 <= i && i + |k| <= |s|
      ensures !OccursAt(s, k, i)
    {
      assert s[i..i + |k|][0] == s[i];
    }
  }

  // ------------------------------------------------------------ str.split

  /** Python `s.split(d)` for a non-empty separator: the pieces between the occurrences of `d`, left to right. */
  function Split(s: string, d: string): (parts: seq<string>)
    requires |d| > 0
    ensures |parts| >= 1
    decreases |s|
  {
    match IndexOf(s, d)
    case None => [s]
    case Some(i) => [s[..i]] + Split(s[i + |d|..], d)
  }

  /** Python `d.join(parts)`. */
  function Join(parts: seq<string>, d: string): string
    requires |parts| >= 1
  {
    if |parts| == 1 then parts[0] else parts[0] + d + Join(parts[1..], d)
  }

  /** Joining the pieces of a split with the separator gives back the text. */
  lemma {:induction false} JoinSplit(s: string, d: string)
    requires |d| > 0
    ensures Join(Split(s, d), d) == s
    decreases |s|
  {
    match IndexOf(s, d)
    case None =>
    case Some(i) =>
      var rest := s[i + |d|..];
      var parts := Split(s, d);
      assert parts == [s[..i]] + Split(rest, d);
      assert parts[0] == s[..i] && parts[1..] == Split(rest, d);
      calc {
        Join(parts, d);
        s[..i] + d + Join(Split(rest, d), d);
        { JoinSplit(rest, d); }
        s[..i] + d + rest;
        { assert s[i..i + |d|] == d; }
        s;
      }
  }

  /** The text before the first occurrence of `d` does not hold `d`. */
  lemma BeforeFirstFree(s: string, d: string, i: nat)
    requires |d| > 0 && IndexOf(s, d) == Some(i)
    ensures !Contains(s[..i], d)
  {
    var head := s[..i];
    forall j | 0 <= j && j + |d| <= |head|
      ensures !OccursAt(head, d, j)
    {
      assert j < i && !OccursAt(s, d, j);
      assert head[j..j + |d|] == s[j..j + |d|];
    }
  }

  /** No piece of a split still holds the separator. */
  lemma {:induction false} SplitPiecesFree(s: string, d: string)
    requires |d| > 0
    ensures forall p :: p in Split(s, d) ==> !Contains(p, d)
    decreases |s|
  {
    match IndexOf(s, d)
    case None =>
      assert Split(s, d) == [s];
    case Some(i) =>
      BeforeFirstFree(s, d, i);
      var rest := s[i + |d|..];
      assert Split(s, d) == [s[..i]] + Split(rest, d);
      SplitPiecesFree(rest, d);
  }

  // ------------------------------------------------------ character mapping

  function LowerChar(c: char): char {
    if 'A' <= c <= 'Z' then (c as int + 32) as char else c
  }

  function UpperChar(c: char): char {
    if 'a' <= c <= 'z' then (c as int - 32) as char else c
  }

  /** Python `s.lower()` restricted to ASCII letters. */
  function Lower(s: string): (r: string)
    ensures |r| == |s|
  {
    seq(|s|, i requires 0 <= i < |s| => LowerChar(s[i]))
  }

  /** Python `s.upper()` restricted to ASCII letters. */
  function Upper(s: string): (r: string)
    ensures |r| == |s|
  {
    seq(|s|, i requires 0 <= i < |s| => UpperChar(s[i]))
  }

  /** Python `s.replace(a, b)` for single characters. */
  function ReplaceChar(s: string, a: char, b: char): (r: string)
    ensures |r| == |s|
  {
    seq(|s|, i requires 0 <= i < |s| => if s[i] == a then b else s[i])
  }

  /**
   * A separator whose first character does not recur in it, placed once
   * between two pieces that do not hold it, splits the text into exactly
   * those two pieces.
   */
  lemma SplitOnce(a: string, d: string, b: string)
    requires |d| > 0 && forall k :: 0 < k < |d| ==> d[k] != d[0]
    requires !Contains(a, d) && !Contains(b, d)
    ensures IndexOf(a + d + b, d) == Some(|a|)
    ensures Split(a + d + b, d) == [a, b]
  {
    var s := a + d + b;
    assert s[|a|..|a| + |d|] == d;
    assert OccursAt(s, d, |a|);
    forall j | 0 <= j < |a|
      ensures !OccursAt(s, d, j)
    {
      if j + |d| <= |a| {
        assert s[j..j + |d|] == a[j..j + |d|];
        assert !OccursAt(a, d, j);
      } else {
        var k := |a| - j;
        assert s[j..j + |d|][k] == s[|a|] == d[0];
      }
    }
    assert IndexOf(s, d) == Some(|a|);
    assert s[|a| + |d|..] == b;
    assert s[..|a|] == a;
  }

  /** A first occurrence of `d` at `|a|` cuts the text after `a + d`. */
  lemma SplitAtFirst(a: string, d: string, tail: string)
    requires |d| > 0 && IndexOf(a + d + tail, d) == Some(|a|)
    ensures Split(a + d + tail, d) == [a] + Split(tail, d)
  {
    var s := a + d + tail;
    assert s[..|a|] == a;
    assert s[|a| + |d|..] == tail;
  }

  /** Regrouping a text made of five pieces. */
  lemma Regroup(a: string, d: string, b: string, e: string)
    ensures a + d + (b + d + e) == a + d + b + (d + e)
  {
    var x := a + d;
    assert b + d + e == b + (d + e);
    assert x + (b + (d + e)) == x + b + (d + e);
  }

  /** With two separators in the text, the first one is found first. */
  lemma FirstOfTwo(a: string, d: string, b: string, e: string)
    requires |d| > 0 && forall k :: 0 < k < |d| ==> d[k] != d[0]
    requires !Contains(a, d) && !Contains(b, d)
    ensures IndexOf(a + d + (b + d + e), d) == Some(|a|)
  {
    var t := a + d + b;
    SplitOnce(a, d, b);
    IndexOfExtend(t, d, d + e);
    Regroup(a, d, b, e);
  }

  /** The same separator placed twice between separator-free pieces splits the text into those three pieces. */
  lemma SplitTwice(a: string, d: string, b: string, e: string)
    requires |d| > 0 && forall k :: 0 < k < |d| ==> d[k] != d[0]
    requires !Contains(a, d) && !Contains(b, d) && !Contains(e, d)
    ensures Split(a + d + (b + d + e), d) == [a, b, e]
  {
    FirstOfTwo(a, d, b, e);
    SplitAtFirst(a, d, b + d + e);
    SplitOnce(b, d, e);
  }
}
