/** `stripOrderPrefix` (scripts/frontmatter/helpers/stripOrderPrefix/stripOrderPrefix.ts):
    `name.replace(/^\d+\s+/, "").trim()`. */
module PrefixStripping {
  import opened Strings

  /** `n` is the length of some match of `^\d+\s+` at the start of `name`. */
  predicate IsPrefixMatch(name: string, n: nat) {
    exists d :: 0 < d < n <= |name| && AllDigits(name[..d]) && AllWs(name[d..n])
  }

  /** The regular expression matches: a digit run directly followed by whitespace. */
  predicate HasOrderPrefix(name: string) {
    var d := DigitRun(name);
    0 < d < |name| && IsWs(name[d])
  }

  /** The length of the text the greedy match removes: the whole digit run
      and the whole whitespace run after it. */
  function PrefixLength(name: string): (n: nat)
    requires HasOrderPrefix(name)
    ensures DigitRun(name) < n <= |name|
  {
    var d := DigitRun(name);
    d + LeadingWs(name[d..])
  }

  /** The greedy match is a match, and no match is longer. */
  lemma PrefixLengthLongest(name: string)
    requires HasOrderPrefix(name)
    ensures IsPrefixMatch(name, PrefixLength(name))
    ensures forall m: nat :: IsPrefixMatch(name, m) ==> m <= PrefixLength(name)
  {
    var d := DigitRun(name);
    var w := LeadingWs(name[d..]);
    assert name[d..][..w] == name[d..d + w];
    assert 0 < d < d + w <= |name| && AllDigits(name[..d]) && AllWs(name[d..d + w]);
    forall m: nat | IsPrefixMatch(name, m) ensures m <= d + w {
      var e :| 0 < e < m <= |name| && AllDigits(name[..e]) && AllWs(name[e..m]);
      PrefixMatchDigits(name, e, m);
    }
  }

  /** In any match the digits are exactly the leading digit run: digits and
      whitespace do not overlap, so `\d+` can neither stop early nor run on. */
  lemma PrefixMatchDigits(name: string, e: nat, m: nat)
    requires 0 < e < m <= |name| && AllDigits(name[..e]) && AllWs(name[e..m])
    ensures e == DigitRun(name)
  {
    var d := DigitRun(name);
    assert IsWs(name[e]) by { assert name[e] == name[e..m][0]; }
    DigitNotWs(name[e]);
    // both runs are digits of `name` itself, so neither can pass the other's end
    assert forall i :: 0 <= i < d ==> IsDigit(name[i]) by {
      forall i | 0 <= i < d ensures IsDigit(name[i]) { assert name[..d][i] == name[i]; }
    }
    assert forall i :: 0 <= i < e ==> IsDigit(name[i]) by {
      forall i | 0 <= i < e ensures IsDigit(name[i]) { assert name[..e][i] == name[i]; }
    }
  }

  /** `stripOrderPrefix`. */
  function StripOrderPrefix(name: string): (r: string)
    ensures IsTrimmed(r)
    ensures |r| <= |name|
    ensures exists i, j :: 0 <= i <= j <= |name| && r == name[i..j]
  {
    var p := if HasOrderPrefix(name) then PrefixLength(name) else 0;
    var r := Trim(name[p..]);
    SubstringOfSuffix(name, p, r);
    r
  }

  lemma SubstringOfSuffix(s: string, p: nat, r: string)
    requires p <= |s|
    requires exists i, j :: 0 <= i <= j <= |s[p..]| && r == s[p..][i..j]
    ensures exists i, j :: 0 <= i <= j <= |s| && r == s[i..j]
  {
    var i, j :| 0 <= i <= j <= |s[p..]| && r == s[p..][i..j];
    assert r == s[p + i..p + j];
  }

  /** The regular expression matches exactly when some match exists. */
  lemma OrderPrefixIffMatch(name: string)
    ensures HasOrderPrefix(name) <==> exists n: nat :: IsPrefixMatch(name, n)
  {
    if HasOrderPrefix(name) {
      PrefixLengthLongest(name);
    }
    if n: nat :| IsPrefixMatch(name, n) {
      var e :| 0 < e < n <= |name| && AllDigits(name[..e]) && AllWs(name[e..n]);
      PrefixMatchDigits(name, e, n);
      assert name[e] == name[e..n][0];
    }
  }

  /** Digits, then whitespace, then text that does not start with whitespace:
      the digits and the whitespace go, and the text is trimmed. */
  lemma StripDigitsWs(digits: string, ws: string, text: string)
    requires |digits| > 0 && AllDigits(digits)
    requires |ws| > 0 && AllWs(ws)
    requires text == [] || !IsWs(text[0])
    ensures StripOrderPrefix(digits + ws + text) == Trim(text)
  {
    var name := digits + ws + text;
    var d := |digits|;
    assert name[..d] == digits;
    assert name[d] == ws[0];
    assert DigitRun(name) == d by {
      assert !IsDigit(name[d]);
      PrefixMatchDigits(name, d, d + |ws|) by {
        assert name[d..d + |ws|] == ws;
      }
    }
    assert HasOrderPrefix(name);
    var w := LeadingWs(name[d..]);
    assert name[d..] == ws + text;
    LeadingWsPadded(ws, text);
    assert LeadingWs(text) == 0;
    assert name[d + |ws|..] == text;
  }

  /** A name without the prefix is only trimmed: in particular one that does
      not start with a digit. */
  lemma StripUnprefixed(name: string)
    requires !HasOrderPrefix(name)
    ensures StripOrderPrefix(name) == Trim(name)
  {
  }

  lemma NoLeadingDigitNoPrefix(name: string)
    requires name == [] || !IsDigit(name[0])
    ensures !HasOrderPrefix(name)
    ensures StripOrderPrefix(name) == Trim(name)
  {
  }

  /** A digit run followed by anything but whitespace is kept, e.g. "001-x". */
  lemma DigitsWithoutWsKept(digits: string, c: char, text: string)
    requires |digits| > 0 && AllDigits(digits)
    requires !IsWs(c) && !IsDigit(c)
    ensures !HasOrderPrefix(digits + [c] + text)
  {
    var name := digits + [c] + text;
    assert name[..|digits|] == digits;
    assert name[|digits|] == c;
  }

  /** Stripping is idempotent on every name whose stripped form carries no
      further prefix. */
  lemma StripIdempotentWhenNoNestedPrefix(name: string)
    requires !HasOrderPrefix(StripOrderPrefix(name))
    ensures StripOrderPrefix(StripOrderPrefix(name)) == StripOrderPrefix(name)
  {
    TrimTrimmed(StripOrderPrefix(name));
  }

  /** "001 Example" becomes "Example". */
  lemma ExampleFolder()
    ensures StripOrderPrefix("001" + " " + "Example") == "Example"
  {
    ExampleFolderParts();
    StripDigitsWs("001", " ", "Example");
    TrimTrimmed("Example");
  }

  lemma ExampleFolderParts()
    ensures AllDigits("001") && AllWs(" ")
    ensures !IsWs("Example"[0]) && IsTrimmed("Example")
  {
  }

  /** "001-x" is kept: a dash is not whitespace. */
  lemma ExampleDashKept()
    ensures StripOrderPrefix("001" + "-x") == "001" + "-x"
  {
    assert "001" + "-x" == "001" + ['-'] + "x";
    DigitsWithoutWsKept("001", '-', "x");
    TrimTrimmed("001" + "-x");
  }

  /** A name whose text after the prefix is itself prefixed and trimmed
      loses only the outer prefix. */
  lemma StripOuterPrefix(digits: string, ws: string, inner: string)
    requires |digits| > 0 && AllDigits(digits)
    requires |ws| > 0 && AllWs(ws)
    requires HasOrderPrefix(inner) && IsTrimmed(inner)
    ensures StripOrderPrefix(digits + ws + inner) == inner
  {
    DigitNotWs(inner[0]);
    StripDigitsWs(digits, ws, inner);
    TrimTrimmed(inner);
  }

  /** Stripping is not idempotent: a second numeric prefix shows through
      ("1 2 x" becomes "2 x", which becomes "x"). */
  lemma NotIdempotent(digits: string, ws: string, inner: string)
    requires |digits| > 0 && AllDigits(digits)
    requires |ws| > 0 && AllWs(ws)
    requires HasOrderPrefix(inner) && IsTrimmed(inner)
    ensures StripOrderPrefix(StripOrderPrefix(digits + ws + inner))
         != StripOrderPrefix(digits + ws + inner)
  {
    StripOuterPrefix(digits, ws, inner);
    StripShortens(inner);
  }

  /** A prefix, when there is one, is really removed: the result is shorter. */
  lemma StripShortens(name: string)
    requires HasOrderPrefix(name)
    ensures |StripOrderPrefix(name)| < |name|
  {
  }
}
