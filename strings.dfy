/**
 * String operations shared by the browser code and the data-preparation
 * scripts: literal replace-all (Python `str.replace`, JavaScript
 * `.replace(/x/g, ...)` with a one-character pattern), decimal rendering of
 * non-negative integers (`Number.prototype.toString`, Python `str`) and
 * zero padding (`padStart(2, '0')`, Python `{:02d}`).
 */
module Strings {

  /** Replaces every occurrence of `pat` in `s`, scanning left to right
      without overlap, as Python's `str.replace` and a global literal
      JavaScript replace do. */
  function ReplaceAll(s: string, pat: string, rep: string): string
    requires |pat| > 0
    decreases |s|
  {
    if |s| < |pat| then s
    else if s[..|pat|] == pat then rep + ReplaceAll(s[|pat|..], pat, rep)
    else [s[0]] + ReplaceAll(s[1..], pat, rep)
  }

  /** Replacing a pattern by itself changes nothing. */
  lemma {:induction false} ReplaceAllIdentity(s: string, pat: string)
    requires |pat| > 0
    ensures ReplaceAll(s, pat, pat) == s
    decreases |s|
  {
    if |s| < |pat| {
    } else if s[..|pat|] == pat {
      ReplaceAllIdentity(s[|pat|..], pat);
      assert s == pat + s[|pat|..];
    } else {
      ReplaceAllIdentity(s[1..], pat);
      assert s == [s[0]] + s[1..];
    }
  }

  /** What a one-character replace does to a single character. */
  function ReplaceChar(x: char, c: char, rep: string): (r: string)
    ensures x != c ==> r == [x]
  {
    if x == c then rep else [x]
  }

  /** A one-character replace-all works character by character. */
  lemma {:induction false} ReplaceAllCons(x: char, t: string, c: char, rep: string)
    ensures ReplaceAll([x] + t, [c], rep) == ReplaceChar(x, c, rep) + ReplaceAll(t, [c], rep)
  {
    var s := [x] + t;
    assert s[..1] == [x];
    assert s[1..] == t;
  }

  /** A one-character replace-all on a single character. */
  lemma ReplaceSingle(x: char, c: char, rep: string)
    ensures ReplaceAll([x], [c], rep) == ReplaceChar(x, c, rep)
  {
    ReplaceAllCons(x, [], c, rep);
    assert [x] + [] == [x];
  }

  /** A one-character replace-all distributes over concatenation. */
  lemma {:induction false} ReplaceAllConcat(a: string, b: string, c: char, rep: string)
    ensures ReplaceAll(a + b, [c], rep) == ReplaceAll(a, [c], rep) + ReplaceAll(b, [c], rep)
    decreases |a|
  {
    if a == [] {
      assert a + b == b;
    } else {
      ReplaceAllConcat(a[1..], b, c, rep);
      ReplaceAllCons(a[0], a[1..] + b, c, rep);
      ReplaceAllCons(a[0], a[1..], c, rep);
      assert a + b == [a[0]] + (a[1..] + b);
      assert a == [a[0]] + a[1..];
    }
  }

  /** After a one-character replace-all, every character came from the
      replacement or is an input character other than the pattern. */
  lemma {:induction false} ReplaceAllChars(s: string, c: char, rep: string)
    ensures forall x :: x in ReplaceAll(s, [c], rep) ==> x in rep || (x in s && x != c)
    decreases |s|
  {
    if s != [] {
      ReplaceAllChars(s[1..], c, rep);
      ReplaceAllCons(s[0], s[1..], c, rep);
      assert s == [s[0]] + s[1..];
    }
  }

  /** A one-character replace-all leaves a string without that character
      unchanged. */
  lemma {:induction false} ReplaceAllAbsent(s: string, c: char, rep: string)
    requires c !in s
    ensures ReplaceAll(s, [c], rep) == s
    decreases |s|
  {
    if s != [] {
      assert s == [s[0]] + s[1..];
      ReplaceAllCons(s[0], s[1..], c, rep);
      ReplaceAllAbsent(s[1..], c, rep);
    }
  }

  /** A prefix holding no character that starts the pattern is copied as it
      is, and the replace goes on after it. */
  lemma {:induction false} ReplaceAllSkip(a: string, x: string, pat: string, rep: string)
    requires |pat| > 0 && pat[0] !in a
    ensures ReplaceAll(a + x, pat, rep) == a + ReplaceAll(x, pat, rep)
    decreases |a|
  {
    if a == [] {
      assert a + x == x;
    } else {
      var s := a + x;
      ReplaceAllSkip(a[1..], x, pat, rep);
      ReplaceAllHead(s, pat, rep);
      assert s[1..] == a[1..] + x;
      assert a == [a[0]] + a[1..];
    }
  }

  /** A string whose first character cannot start the pattern keeps it. */
  lemma ReplaceAllHead(s: string, pat: string, rep: string)
    requires |pat| > 0 && s != [] && s[0] != pat[0]
    ensures ReplaceAll(s, pat, rep) == [s[0]] + ReplaceAll(s[1..], pat, rep)
  {
    if |s| < |pat| {
      assert ReplaceAll(s[1..], pat, rep) == s[1..];
      assert s == [s[0]] + s[1..];
    } else {
      assert s[..|pat|][0] == s[0];
    }
  }

  /** Every character of a replace-all's result comes from the input or from
      the replacement. */
  lemma {:induction false} ReplaceAllSubset(s: string, pat: string, rep: string)
    requires |pat| > 0
    ensures forall x :: x in ReplaceAll(s, pat, rep) ==> x in s || x in rep
    decreases |s|
  {
    if |s| < |pat| {
    } else if s[..|pat|] == pat {
      ReplaceAllSubset(s[|pat|..], pat, rep);
      assert forall x :: x in s[|pat|..] ==> x in s;
    } else {
      ReplaceAllSubset(s[1..], pat, rep);
      assert forall x :: x in s[1..] ==> x in s;
    }
  }

  /** The index of the first `c` in `s`, or `|s|` when there is none. */
  function Find(s: string, c: char): (k: nat)
    ensures k <= |s|
    ensures k < |s| ==> s[k] == c
    ensures forall i :: 0 <= i < k ==> s[i] != c
    decreases |s|
  {
    if s == [] || s[0] == c then 0 else 1 + Find(s[1..], c)
  }

  /** The first `c` of `a + [c] + rest` is at `|a|` when `a` holds none. */
  lemma FindAfter(a: string, c: char, rest: string)
    requires c !in a
    ensures Find(a + [c] + rest, c) == |a|
  {
    var t := a + [c] + rest;
    assert t[|a|] == c;
    assert forall i :: 0 <= i < |a| ==> t[i] == a[i];
  }

  // ---------------------------------------------------------------------
  // Trimming white space, for a given notion of white space

  /** Drops leading white space: the result is the suffix of `s` that
      starts at its first non-space character. */
  function TrimStart(s: string, isSpace: char -> bool): (r: string)
    ensures |r| <= |s| && r == s[|s| - |r|..]
    ensures r == [] || !isSpace(r[0])
    ensures forall i :: 0 <= i < |s| - |r| ==> isSpace(s[i])
    decreases |s|
  {
    if s != [] && isSpace(s[0]) then TrimStart(s[1..], isSpace) else s
  }

  /** Drops trailing white space: the result is the prefix of `s` that ends
      at its last non-space character. */
  function TrimEnd(s: string, isSpace: char -> bool): (r: string)
    ensures |r| <= |s| && r == s[..|r|]
    ensures r == [] || !isSpace(r[|r| - 1])
    ensures forall i :: |r| <= i < |s| ==> isSpace(s[i])
    decreases |s|
  {
    if s != [] && isSpace(s[|s| - 1]) then TrimEnd(s[..|s| - 1], isSpace) else s
  }

  /** Both ends trimmed: the result has no white space at either end, and
      is empty exactly when `s` is all white space. */
  function Trim(s: string, isSpace: char -> bool): (r: string)
    ensures r == [] || (!isSpace(r[0]) && !isSpace(r[|r| - 1]))
    ensures r == [] <==> forall i :: 0 <= i < |s| ==> isSpace(s[i])
  {
    var t := TrimStart(s, isSpace);
    var r := TrimEnd(t, isSpace);
    assert t == [] || t[0] == s[|s| - |t|];
    r
  }

  // ---------------------------------------------------------------------
  // Decimal rendering and zero padding

  predicate IsDigit(c: char) { '0' <= c <= '9' }

  function DigitChar(d: nat): (c: char)
    requires d < 10
    ensures IsDigit(c)
  {
    (48 + d) as char
  }

  function DigitValue(c: char): (d: nat)
    requires IsDigit(c)
    ensures d < 10
  {
    (c as int) - 48
  }

  /** The shortest decimal rendering of `n`, as `n.toString()` and `str(n)`
      produce it. */
  function DecimalString(n: nat): string
    decreases n
  {
    if n < 10 then [DigitChar(n)] else DecimalString(n / 10) + [DigitChar(n % 10)]
  }

  predicate AllDigits(s: string)
  {
    forall i :: 0 <= i < |s| ==> IsDigit(s[i])
  }

  /** A rendering is a non-empty digit string, at most two digits below 100. */
  lemma {:induction false} DecimalDigits(n: nat)
    ensures |DecimalString(n)| > 0 && AllDigits(DecimalString(n))
    ensures n < 100 ==> |DecimalString(n)| <= 2
    decreases n
  {
    if n >= 10 {
      DecimalDigits(n / 10);
    }
  }

  /** The number a string of decimal digits denotes (leading zeros allowed). */
  function DigitsValue(s: string): nat
    requires AllDigits(s)
    decreases |s|
  {
    if s == [] then 0 else DigitsValue(s[..|s| - 1]) * 10 + DigitValue(s[|s| - 1])
  }

  /** Reading back a rendered number gives the number. */
  lemma {:induction false} DecimalRoundTrip(n: nat)
    ensures AllDigits(DecimalString(n)) && DigitsValue(DecimalString(n)) == n
    decreases n
  {
    var s := DecimalString(n);
    DecimalDigits(n);
    if n < 10 {
      assert s[..0] == [];
    } else {
      DecimalRoundTrip(n / 10);
      assert s[..|s| - 1] == DecimalString(n / 10);
    }
  }

  /** Rendering is injective: distinct numbers have distinct renderings. */
  lemma DecimalInjective(m: nat, n: nat)
    requires DecimalString(m) == DecimalString(n)
    ensures m == n
  {
    DecimalRoundTrip(m);
    DecimalRoundTrip(n);
  }

  function Repeat(k: nat, c: char): (r: string)
    ensures |r| == k && forall i :: 0 <= i < k ==> r[i] == c
  {
    seq(k, _ => c)
  }

  /** JavaScript `String.prototype.padStart(width, fill)` with a one-character
      fill: pads on the left up to `width`, never truncates. */
  function PadStart(s: string, width: nat, fill: char): string
  {
    if |s| >= width then s else Repeat(width - |s|, fill) + s
  }

  /** Padding keeps `s` as a suffix, adds only `fill` before it, and reaches
      at least `width`. */
  lemma PadStartShape(s: string, width: nat, fill: char)
    ensures var r := PadStart(s, width, fill);
      && |r| == (if |s| >= width then |s| else width)
      && r[|r| - |s|..] == s
      && forall i :: 0 <= i < |r| - |s| ==> r[i] == fill
  {
  }

  /** Leading zeros do not change the value of a digit string. */
  lemma {:induction false} LeadingZeros(k: nat, s: string)
    requires AllDigits(s)
    ensures AllDigits(Repeat(k, '0') + s)
    ensures DigitsValue(Repeat(k, '0') + s) == DigitsValue(s)
    decreases |s|
  {
    var z := Repeat(k, '0');
    var t := z + s;
    if s == [] {
      assert t == z;
      ZerosValue(k);
    } else {
      LeadingZeros(k, s[..|s| - 1]);
      assert t[..|t| - 1] == z + s[..|s| - 1];
      assert t[|t| - 1] == s[|s| - 1];
    }
  }

  lemma {:induction false} ZerosValue(k: nat)
    ensures AllDigits(Repeat(k, '0'))
    ensures DigitsValue(Repeat(k, '0')) == 0
  {
    if k > 0 {
      ZerosValue(k - 1);
      assert Repeat(k, '0')[..k - 1] == Repeat(k - 1, '0');
    }
  }

  /** The two-digit zero-padded index used in part file names. */
  function Pad2(n: nat): string
  {
    PadStart(DecimalString(n), 2, '0')
  }

  /** The padded index is a digit string of length two for indices below 100
      (at least two otherwise) and denotes `n`. */
  lemma Pad2RoundTrip(n: nat)
    ensures |Pad2(n)| >= 2 && (n < 100 ==> |Pad2(n)| == 2)
    ensures AllDigits(Pad2(n)) && DigitsValue(Pad2(n)) == n
  {
    var d := DecimalString(n);
    DecimalRoundTrip(n);
    DecimalDigits(n);
    if |d| < 2 {
      LeadingZeros(2 - |d|, d);
    }
  }

  /** Distinct indices get distinct padded renderings. */
  lemma Pad2Injective(m: nat, n: nat)
    requires Pad2(m) == Pad2(n)
    ensures m == n
  {
    Pad2RoundTrip(m);
    Pad2RoundTrip(n);
  }
}
