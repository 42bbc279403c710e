/** String primitives of the JavaScript runtime that the frontmatter scripts rely on:
    the `\s` and `\d` character classes, `trim`, `split`, `join`, `startsWith`,
    `endsWith` and the decimal reading done by `Number` on a run of digits. */
module Strings {
  import opened Seqs

  /** A character matched by the regular-expression class `\s` and removed by
      `String.prototype.trim`: the WhiteSpace and LineTerminator code points of
      ECMAScript (both use the same set). */
  predicate IsWs(c: char) {
    || c == ' ' || c == '\t' || c == '\n' || c == '\r'
    || c == '\U{000B}' || c == '\U{000C}' || c == '\U{00A0}' || c == '\U{1680}'
    || ('\U{2000}' <= c <= '\U{200A}')
    || c == '\U{2028}' || c == '\U{2029}' || c == '\U{202F}' || c == '\U{205F}'
    || c == '\U{3000}' || c == '\U{FEFF}'
  }

  /** The ECMAScript line terminators: the regular-expression `.` matches
      every character except these. */
  predicate IsLineTerminator(c: char) {
    c == '\n' || c == '\r' || c == '\U{2028}' || c == '\U{2029}'
  }

  /** The `\d` class: ASCII digits only. */
  predicate IsDigit(c: char) {
    '0' <= c <= '9'
  }

  /** No character is both a digit and whitespace. */
  lemma DigitNotWs(c: char)
    ensures IsDigit(c) ==> !IsWs(c)
  {
  }

  predicate AllWs(s: string) {
    forall i :: 0 <= i < |s| ==> IsWs(s[i])
  }

  predicate AllDigits(s: string) {
    forall i :: 0 <= i < |s| ==> IsDigit(s[i])
  }

  /** Neither the first nor the last character is whitespace. */
  predicate IsTrimmed(s: string) {
    s == [] || (!IsWs(s[0]) && !IsWs(s[|s| - 1]))
  }

  predicate StartsWith(s: string, prefix: string) {
    |prefix| <= |s| && s[..|prefix|] == prefix
  }

  predicate EndsWith(s: string, suffix: string) {
    |suffix| <= |s| && s[|s| - |suffix|..] == suffix
  }

  /** Length of the whitespace run at the start of `s`. */
  function LeadingWs(s: string): (n: nat)
    ensures n <= |s| && AllWs(s[..n])
    ensures n == |s| || !IsWs(s[n])
  {
    if |s| == 0 || !IsWs(s[0]) then 0
    else
      var m := LeadingWs(s[1..]);
      assert forall i :: 1 <= i < 1 + m ==> s[i] == s[1..][..m][i - 1];
      1 + m
  }

  /** Length of the whitespace run at the end of `s`. */
  function TrailingWs(s: string): (n: nat)
    ensures n <= |s| && AllWs(s[|s| - n..])
    ensures n == |s| || !IsWs(s[|s| - n - 1])
  {
    if |s| == 0 || !IsWs(s[|s| - 1]) then 0
    else
      var init := s[..|s| - 1];
      var m := TrailingWs(init);
      assert forall i :: |s| - 1 - m <= i < |s| - 1 ==> s[i] == init[|init| - m..][i - (|s| - 1 - m)];
      1 + m
  }

  /** Length of the digit run at the start of `s` (what a greedy `^\d+` consumes). */
  function DigitRun(s: string): (n: nat)
    ensures n <= |s| && AllDigits(s[..n])
    ensures n == |s| || !IsDigit(s[n])
  {
    if |s| == 0 || !IsDigit(s[0]) then 0
    else
      var m := DigitRun(s[1..]);
      assert forall i :: 1 <= i < 1 + m ==> s[i] == s[1..][..m][i - 1];
      1 + m
  }

  /** The digit run of `digits + rest` is `digits` when `rest` does not
      start with a digit. */
  lemma {:induction false} DigitRunOf(digits: string, rest: string)
    requires AllDigits(digits)
    requires rest == [] || !IsDigit(rest[0])
    ensures DigitRun(digits + rest) == |digits|
    decreases |digits|
  {
    if |digits| > 0 {
      assert (digits + rest)[1..] == digits[1..] + rest;
      DigitRunOf(digits[1..], rest);
    } else {
      assert digits + rest == rest;
    }
  }

  /** `String.prototype.trim`: `s` without its leading and trailing whitespace. */
  function Trim(s: string): (r: string)
    ensures IsTrimmed(r)
    ensures exists i, j :: 0 <= i <= j <= |s| && r == s[i..j] && AllWs(s[..i]) && AllWs(s[j..])
  {
    var i := LeadingWs(s);
    var t := s[i..];
    var n := TrailingWs(t);
    var j := i + |t| - n;
    assert t[..|t| - n] == s[i..j];
    assert t[|t| - n..] == s[j..];
    s[i..j]
  }

  lemma {:induction false} LeadingWsPadded(w: string, t: string)
    requires AllWs(w)
    ensures LeadingWs(w + t) == |w| + LeadingWs(t)
    decreases |w|
  {
    if |w| > 0 {
      assert (w + t)[1..] == w[1..] + t;
      LeadingWsPadded(w[1..], t);
    } else {
      assert w + t == t;
    }
  }

  lemma {:induction false} TrailingWsPadded(t: string, w: string)
    requires AllWs(w)
    ensures TrailingWs(t + w) == |w| + TrailingWs(t)
    decreases |w|
  {
    if |w| > 0 {
      assert (t + w)[..|t + w| - 1] == t + w[..|w| - 1];
      TrailingWsPadded(t, w[..|w| - 1]);
    } else {
      assert t + w == t;
    }
  }

  /** Trimming is determined by the padding: whatever whitespace surrounds a
      trimmed string, `trim` gives that string back. */
  lemma TrimPadded(w1: string, r: string, w2: string)
    requires AllWs(w1) && AllWs(w2) && IsTrimmed(r)
    ensures Trim(w1 + r + w2) == r
  {
    var s := w1 + r + w2;
    assert s == w1 + (r + w2);
    LeadingWsPadded(w1, r + w2);
    if r == [] {
      assert r + w2 == w2;
      LeadingWsPadded(w2, "");
      assert w2 + "" == w2;
    } else {
      assert LeadingWs(r + w2) == 0 by { assert (r + w2)[0] == r[0]; }
      var t := s[|w1|..];
      assert t == r + w2;
      TrailingWsPadded(r, w2);
      assert TrailingWs(r) == 0;
      assert s[|w1|..|w1| + |r|] == r;
    }
  }

  /** A string with no surrounding whitespace is left alone by `trim`. */
  lemma TrimTrimmed(s: string)
    requires IsTrimmed(s)
    ensures Trim(s) == s
  {
    TrimPadded("", s, "");
    assert "" + s + "" == s;
  }

  /** One `suffix` removed from the end of `s` when it is there
      (`s.replace(/\.md$/, '')`, `s.slice(0, -3)` after `endsWith`). */
  function DropSuffix(s: string, suffix: string): (r: string)
    ensures EndsWith(s, suffix) ==> r + suffix == s
    ensures !EndsWith(s, suffix) ==> r == s
  {
    if EndsWith(s, suffix) then s[..|s| - |suffix|] else s
  }

  /** `Array.prototype.join`. */
  function Join(parts: seq<string>, sep: string): string
  {
    if |parts| == 0 then ""
    else if |parts| == 1 then parts[0]
    else parts[0] + sep + Join(parts[1..], sep)
  }

  /** `String.prototype.split` with a one-character separator: the maximal
      pieces between separators, empty pieces included. Joining the pieces
      again gives back the string. */
  function Split(s: string, c: char): (parts: seq<string>)
    ensures |parts| >= 1
    ensures forall i :: 0 <= i < |parts| ==> c !in parts[i]
    ensures Join(parts, [c]) == s
    decreases |s|
  {
    if |s| == 0 then [""]
    else
      var rest := Split(s[1..], c);
      if s[0] == c then
        assert [c] + s[1..] == s;
        [""] + rest
      else
        assert s == [s[0]] + s[1..];
        [[s[0]] + rest[0]] + rest[1..]
  }

  lemma {:induction false} SplitNoSeparator(a: string, c: char)
    requires c !in a
    ensures Split(a, c) == [a]
    decreases |a|
  {
    if |a| > 0 {
      SplitNoSeparator(a[1..], c);
      assert [a[0]] + a[1..] == a;
    }
  }

  lemma {:induction false} SplitAtSeparator(a: string, c: char, b: string)
    requires c !in a
    ensures Split(a + [c] + b, c) == [a] + Split(b, c)
    decreases |a|
  {
    var s := a + [c] + b;
    if |a| == 0 {
      assert s[1..] == b;
    } else {
      assert s[1..] == a[1..] + [c] + b;
      SplitAtSeparator(a[1..], c, b);
      assert [a[0]] + a[1..] == a;
    }
  }

  /** Splitting undoes joining when no piece contains the separator. */
  lemma {:induction false} SplitJoin(parts: seq<string>, c: char)
    requires |parts| >= 1
    requires forall i :: 0 <= i < |parts| ==> c !in parts[i]
    ensures Split(Join(parts, [c]), c) == parts
  {
    if |parts| == 1 {
      SplitNoSeparator(parts[0], c);
    } else {
      SplitJoin(parts[1..], c);
      SplitAtSeparator(parts[0], c, Join(parts[1..], [c]));
      assert [parts[0]] + parts[1..] == parts;
    }
  }

  /** `parts.filter(Boolean)`: the nonempty pieces, in order. */
  function NonEmpty(parts: seq<string>): (r: seq<string>)
    ensures forall i :: 0 <= i < |r| ==> r[i] != []
    ensures forall p :: p in r <==> p in parts && p != []
    ensures Subseq(r, parts)
  {
    if |parts| == 0 then []
    else
      var rest := NonEmpty(parts[1..]);
      assert parts == [parts[0]] + parts[1..];
      SubseqPrepend(rest, parts[0], parts[1..]);
      if parts[0] != [] then
        assert ([parts[0]] + rest)[1..] == rest;
        [parts[0]] + rest
      else rest
  }

  lemma {:induction false} NonEmptyAll(parts: seq<string>)
    requires forall i :: 0 <= i < |parts| ==> parts[i] != []
    ensures NonEmpty(parts) == parts
  {
    if |parts| > 0 {
      NonEmptyAll(parts[1..]);
      assert parts == [parts[0]] + parts[1..];
    }
  }

  function DigitValue(c: char): nat
    requires IsDigit(c)
  {
    (c as int) - ('0' as int)
  }

  function DigitChar(d: nat): (c: char)
    requires d < 10
    ensures IsDigit(c) && DigitValue(c) == d
  {
    ('0' as int + d) as char
  }

  /** The number a run of decimal digits denotes (what `Number` gives it,
      read with unbounded precision). */
  function DigitsValue(s: string): nat
    requires AllDigits(s)
  {
    if |s| == 0 then 0
    else DigitsValue(s[..|s| - 1]) * 10 + DigitValue(s[|s| - 1])
  }

  /** The shortest decimal spelling of `n`; reading it back gives `n`. */
  function DecimalString(n: nat): (s: string)
    ensures |s| >= 1 && AllDigits(s)
    ensures DigitsValue(s) == n
  {
    if n < 10 then [DigitChar(n)]
    else
      var init := DecimalString(n / 10);
      var s := init + [DigitChar(n % 10)];
      assert s[..|s| - 1] == init;
      s
  }

  /** Leading zeros do not change the value of a digit run. */
  lemma {:induction false} LeadingZeroIgnored(s: string)
    requires AllDigits(s)
    ensures AllDigits("0" + s) && DigitsValue("0" + s) == DigitsValue(s)
    decreases |s|
  {
    var z := "0" + s;
    assert AllDigits(z) by {
      assert forall i :: 1 <= i < |z| ==> z[i] == s[i - 1];
    }
    if |s| > 0 {
      var init := s[..|s| - 1];
      LeadingZeroIgnored(init);
      assert z[..|z| - 1] == "0" + init;
    }
  }
}
