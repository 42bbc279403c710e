/** The line rewriter of todo.js: every numbered list item `N. text` becomes
    `N. [[clean text]]`, a wiki link with punctuation removed and whitespace
    collapsed; every other line is kept. Reading and writing the files is
    left out: the content is a parameter and the result a value. */
module TodoLinks {
  import opened Strings
  import opened Values
  import opened Seqs

  /** The class `[\/?¿!¡?*:—,]` of the first `replace`. */
  predicate IsRemoved(c: char) {
    || c == '/' || c == '?' || c == '\U{00BF}' || c == '!' || c == '\U{00A1}'
    || c == '*' || c == ':' || c == '\U{2014}' || c == ','
  }

  predicate NoneRemoved(s: string) {
    forall i :: 0 <= i < |s| ==> !IsRemoved(s[i])
  }

  /** The only whitespace character is the space. */
  predicate SpacesOnly(s: string) {
    forall i :: 0 <= i < |s| && IsWs(s[i]) ==> s[i] == ' '
  }

  /** No whitespace character follows another. */
  ghost predicate NoDoubleWs(s: string) {
    forall i, j :: 0 <= i < j < |s| && j == i + 1 ==> !IsWs(s[i]) || !IsWs(s[j])
  }

  /** Every character is one the regular-expression `.` matches. */
  predicate NoLineTerminator(s: string) {
    forall i :: 0 <= i < |s| ==> !IsLineTerminator(s[i])
  }

  /** One way `^(\d+\.)\s+(.*?)\s*$` can match `line`: digits up to the dot
      at `d`, whitespace up to `s`, the text up to `e`, whitespace to the end. */
  predicate IsMatchAt(line: string, d: nat, s: nat, e: nat) {
    && 0 < d && d + 1 < s <= e <= |line|
    && AllDigits(line[..d]) && line[d] == '.'
    && AllWs(line[d + 1..s]) && NoLineTerminator(line[s..e]) && AllWs(line[e..])
  }

  /** The two groups of a match: the number with its dot, and the text. */
  datatype Item = Item(number: string, text: string)

  /** Where the text starts when the dot is at `d`: `\s+` is greedy. */
  function TextStart(line: string, d: nat): (s: nat)
    requires d < |line|
    ensures d + 1 <= s <= |line|
  {
    d + 1 + LeadingWs(line[d + 1..])
  }

  /** Where the text ends when it starts at `s`: `.*?` is lazy, so the
      trailing whitespace is left to `\s*`. */
  function TextEnd(line: string, s: nat): (e: nat)
    requires s <= |line|
    ensures s <= e <= |line|
  {
    |line| - TrailingWs(line[s..])
  }

  /** `line.match(/^(\d+\.)\s+(.*?)\s*$/)`. */
  function MatchItem(line: string): Option<Item>
  {
    var d := DigitRun(line);
    if d == 0 || d == |line| || line[d] != '.' then None
    else
      var s := TextStart(line, d);
      var e := TextEnd(line, s);
      if s == d + 1 || !NoLineTerminator(line[s..e]) then None
      else Some(Item(line[..d + 1], line[s..e]))
  }

  /** The separator and the tail the greedy and lazy choices leave are
      whitespace, and the text between them has none at its ends. */
  lemma TextBounds(line: string, d: nat)
    requires d < |line|
    ensures var s := TextStart(line, d); var e := TextEnd(line, s);
      && AllWs(line[d + 1..s]) && AllWs(line[e..]) && IsTrimmed(line[s..e])
      && (s < |line| ==> !IsWs(line[s]))
  {
    var s := TextStart(line, d);
    var e := TextEnd(line, s);
    StartBounds(line, d);
    EndBounds(line, s);
    TrimmedBetween(line, s, e);
  }

  lemma TrimmedBetween(line: string, s: nat, e: nat)
    requires s <= e <= |line|
    requires s < e ==> !IsWs(line[s]) && !IsWs(line[e - 1])
    ensures IsTrimmed(line[s..e])
  {
    if s < e {
      assert line[s..e][0] == line[s];
      assert line[s..e][e - s - 1] == line[e - 1];
    }
  }

  lemma StartBounds(line: string, d: nat)
    requires d < |line|
    ensures var s := TextStart(line, d);
      AllWs(line[d + 1..s]) && (s < |line| ==> !IsWs(line[s]))
  {
    var x := line[d + 1..];
    var s := TextStart(line, d);
    assert x[..s - d - 1] == line[d + 1..s];
    if s < |line| {
      assert line[s] == x[s - d - 1];
    }
  }

  lemma EndBounds(line: string, s: nat)
    requires s <= |line|
    ensures var e := TextEnd(line, s);
      AllWs(line[e..]) && (s < e ==> !IsWs(line[e - 1]))
  {
    var y := line[s..];
    var n := TrailingWs(y);
    var e := TextEnd(line, s);
    assert y[|y| - n..] == line[e..];
    if s < e {
      assert line[e - 1] == y[|y| - n - 1];
    }
  }

  /** What the match returns is a match: its groups are the number and the text. */
  lemma MatchItemSound(line: string)
    requires MatchItem(line).Some?
    ensures exists d: nat, s: nat, e: nat :: IsMatchAt(line, d, s, e) && MatchItem(line).value == Item(line[..d + 1], line[s..e])
    ensures IsTrimmed(MatchItem(line).value.text)
  {
    var d := DigitRun(line);
    var s := TextStart(line, d);
    var e := TextEnd(line, s);
    TextBounds(line, d);
    assert IsMatchAt(line, d, s, e);
  }

  /** Every match of the pattern is found, and its text group is the
      matched text without surrounding whitespace: the greedy `\s+` takes
      all the leading whitespace and the lazy `.*?` leaves the trailing
      whitespace to `\s*`. */
  lemma MatchItemComplete(line: string, d: nat, s: nat, e: nat)
    requires IsMatchAt(line, d, s, e)
    ensures MatchItem(line) == Some(Item(line[..d + 1], Trim(line[s..e])))
  {
    MatchDigits(line, d);
    var s0 := TextStart(line, d);
    var e0 := TextEnd(line, s0);
    TextBounds(line, d);
    SeparatorCovered(line, d, s);
    if s0 <= e {
      TailCovered(line, s0, e);
      MatchTextInside(line, s, e, s0, e0);
      MatchTextTrim(line, d, s, e, s0, e0);
    } else {
      MatchTextBlank(line, d, s, e, s0);
    }
  }

  /** The greedy `\s+` takes at least the separator of any match. */
  lemma SeparatorCovered(line: string, d: nat, s: nat)
    requires d + 1 <= s <= |line| && AllWs(line[d + 1..s])
    ensures TextStart(line, d) >= s
  {
    LeadingWsAtLeast(line[d + 1..], s - d - 1) by {
      assert line[d + 1..][..s - d - 1] == line[d + 1..s];
    }
  }

  /** The lazy `.*?` leaves at least the tail of any match to `\s*`. */
  lemma TailCovered(line: string, s0: nat, e: nat)
    requires s0 <= e <= |line| && AllWs(line[e..])
    ensures TextEnd(line, s0) <= e
  {
    TrailingWsAtLeast(line[s0..], |line| - e) by {
      assert line[s0..][|line| - s0 - (|line| - e)..] == line[e..];
    }
  }

  /** The text of any match, trimmed, is the chosen text. */
  lemma MatchTextTrim(line: string, d: nat, s: nat, e: nat, s0: nat, e0: nat)
    requires d + 1 <= s <= s0 <= e0 <= e <= |line|
    requires AllWs(line[d + 1..s0]) && AllWs(line[e0..]) && IsTrimmed(line[s0..e0])
    ensures Trim(line[s..e]) == line[s0..e0]
  {
    AllWsSlice(line, d + 1, s0, s, s0);
    AllWsSuffixSlice(line, e0, e);
    assert line[s..e] == line[s..s0] + line[s0..e0] + line[e0..e];
    TrimPadded(line[s..s0], line[s0..e0], line[e0..e]);
  }

  /** The digits of a match are the whole leading digit run. */
  lemma MatchDigits(line: string, d: nat)
    requires d < |line| && AllDigits(line[..d]) && line[d] == '.'
    ensures DigitRun(line) == d
  {
    assert line == line[..d] + line[d..];
    DigitRunOf(line[..d], line[d..]);
  }

  /** The chosen text lies inside the text of any match. */
  lemma MatchTextInside(line: string, s: nat, e: nat, s0: nat, e0: nat)
    requires s <= s0 <= e0 <= e <= |line|
    requires NoLineTerminator(line[s..e])
    ensures NoLineTerminator(line[s0..e0])
  {
    forall i | 0 <= i < e0 - s0 ensures !IsLineTerminator(line[s0..e0][i]) {
      assert line[s0..e0][i] == line[s..e][i + s0 - s];
    }
  }

  /** A match whose text is only whitespace: the chosen text is empty. */
  lemma MatchTextBlank(line: string, d: nat, s: nat, e: nat, s0: nat)
    requires d + 1 <= s <= e < s0 <= |line|
    requires AllWs(line[d + 1..s0]) && AllWs(line[e..])
    ensures TextEnd(line, s0) == s0
    ensures Trim(line[s..e]) == []
  {
    AllWsSuffix(line, e, s0);
    TrailingWsAll(line[s0..]);
    AllWsSlice(line, d + 1, s0, s, e);
    TrimAllWs(line[s..e]);
  }

  lemma AllWsSlice(x: string, a: nat, b: nat, i: nat, j: nat)
    requires a <= i <= j <= b <= |x| && AllWs(x[a..b])
    ensures AllWs(x[i..j])
  {
    forall k | 0 <= k < j - i ensures IsWs(x[i..j][k]) {
      assert x[i..j][k] == x[a..b][k + i - a];
    }
  }

  lemma AllWsSuffix(x: string, a: nat, i: nat)
    requires a <= i <= |x| && AllWs(x[a..])
    ensures AllWs(x[i..])
  {
    forall k | 0 <= k < |x| - i ensures IsWs(x[i..][k]) {
      assert x[i..][k] == x[a..][k + i - a];
    }
  }

  lemma AllWsSuffixSlice(x: string, i: nat, j: nat)
    requires i <= j <= |x| && AllWs(x[i..])
    ensures AllWs(x[i..j])
  {
    forall k | 0 <= k < j - i ensures IsWs(x[i..j][k]) {
      assert x[i..j][k] == x[i..][k];
    }
  }

  lemma TrailingWsAll(w: string)
    requires AllWs(w)
    ensures TrailingWs(w) == |w|
  {
    TrailingWsPadded("", w);
    assert "" + w == w;
  }

  lemma TrimAllWs(w: string)
    requires AllWs(w)
    ensures Trim(w) == []
  {
    TrimPadded(w, "", "");
    assert w + "" + "" == w;
  }

  lemma LeadingWsAtLeast(x: string, k: nat)
    requires k <= |x| && AllWs(x[..k])
    ensures LeadingWs(x) >= k
  {
    assert x == x[..k] + x[k..];
    LeadingWsPadded(x[..k], x[k..]);
  }

  lemma TrailingWsAtLeast(x: string, k: nat)
    requires k <= |x| && AllWs(x[|x| - k..])
    ensures TrailingWs(x) >= k
  {
    assert x == x[..|x| - k] + x[|x| - k..];
    TrailingWsPadded(x[..|x| - k], x[|x| - k..]);
  }

  /** `.replace(/[\/?¿!¡?*:—,]/g, '')`: the other characters stay, in
      order (a subsequence) and each as often as in `t`. */
  function RemoveChars(t: string): (r: string)
    ensures NoneRemoved(r)
    ensures forall c :: c in r <==> c in t && !IsRemoved(c)
    ensures Subseq(r, t)
    ensures forall c :: multiset(r)[c] == if IsRemoved(c) then 0 else multiset(t)[c]
  {
    if |t| == 0 then []
    else
      var rest := RemoveChars(t[1..]);
      assert t == [t[0]] + t[1..];
      assert multiset(t) == multiset{t[0]} + multiset(t[1..]);
      if IsRemoved(t[0]) then
        SubseqPrepend(rest, t[0], t[1..]);
        rest
      else
        SubseqCons(t[0], rest, t[1..]);
        assert multiset([t[0]] + rest) == multiset{t[0]} + multiset(rest);
        [t[0]] + rest
  }

  /** The removal works character by character: it distributes over concatenation. */
  lemma {:induction false} RemoveCharsAppend(a: string, b: string)
    ensures RemoveChars(a + b) == RemoveChars(a) + RemoveChars(b)
  {
    if |a| > 0 {
      var head := if IsRemoved(a[0]) then [] else [a[0]];
      assert a == [a[0]] + a[1..];
      assert a + b == [a[0]] + (a[1..] + b);
      RemoveCharsCons(a[0], a[1..] + b);
      RemoveCharsCons(a[0], a[1..]);
      RemoveCharsAppend(a[1..], b);
      AppendAssoc(head, RemoveChars(a[1..]), RemoveChars(b));
    } else {
      assert a + b == b;
    }
  }

  lemma RemoveCharsCons(c: char, s: string)
    ensures RemoveChars([c] + s) == (if IsRemoved(c) then [] else [c]) + RemoveChars(s)
  {
    assert ([c] + s)[0] == c;
    assert ([c] + s)[1..] == s;
  }

  /** A final punctuation mark after text without any goes. */
  lemma RemoveCharsLast(a: string, c: char)
    requires NoneRemoved(a) && IsRemoved(c)
    ensures RemoveChars(a + [c]) == a
  {
    RemoveCharsAppend(a, [c]);
    RemoveCharsNone(a);
    assert RemoveChars([c]) == [];
  }

  /** Text without any of the characters is left as it is. */
  lemma {:induction false} RemoveCharsNone(t: string)
    requires NoneRemoved(t)
    ensures RemoveChars(t) == t
  {
    if |t| > 0 {
      RemoveCharsNone(t[1..]);
      assert t == [t[0]] + t[1..];
    }
  }

  /** The characters of `s` that are not whitespace, in order. */
  function NonWs(s: string): string {
    if |s| == 0 then [] else (if IsWs(s[0]) then [] else [s[0]]) + NonWs(s[1..])
  }

  lemma {:induction false} NonWsAppend(a: string, b: string)
    ensures NonWs(a + b) == NonWs(a) + NonWs(b)
  {
    if |a| > 0 {
      assert (a + b)[1..] == a[1..] + b;
      NonWsAppend(a[1..], b);
    } else {
      assert a + b == b;
    }
  }

  lemma {:induction false} NonWsAllWs(w: string)
    requires AllWs(w)
    ensures NonWs(w) == []
  {
    if |w| > 0 {
      NonWsAllWs(w[1..]);
    }
  }

  /** `.replace(/\s+/g, ' ')`: every whitespace run becomes one space. */
  function CollapseWs(t: string): (r: string)
    ensures |r| == 0 <==> |t| == 0
    ensures |r| > 0 ==> (IsWs(r[0]) <==> IsWs(t[0]))
    ensures SpacesOnly(r) && NoDoubleWs(r)
    ensures forall c :: c in r && c != ' ' ==> c in t
    ensures NonWs(r) == NonWs(t)
    decreases |t|
  {
    if |t| == 0 then []
    else if IsWs(t[0]) then
      var n := LeadingWs(t);
      var rest := CollapseWs(t[n..]);
      CollapseRun(t, n, rest);
      " " + rest
    else
      var rest := CollapseWs(t[1..]);
      CollapseKeep(t, rest);
      [t[0]] + rest
  }

  lemma CollapseRun(t: string, n: nat, rest: string)
    requires 0 < n <= |t| && AllWs(t[..n]) && (n == |t| || !IsWs(t[n]))
    requires |rest| == 0 <==> |t[n..]| == 0
    requires |rest| > 0 ==> (IsWs(rest[0]) <==> IsWs(t[n..][0]))
    requires SpacesOnly(rest) && NoDoubleWs(rest)
    requires forall c :: c in rest && c != ' ' ==> c in t[n..]
    requires NonWs(rest) == NonWs(t[n..])
    ensures var r := " " + rest;
      && SpacesOnly(r) && NoDoubleWs(r)
      && (forall c :: c in r && c != ' ' ==> c in t)
      && NonWs(r) == NonWs(t)
  {
    assert |rest| > 0 ==> !IsWs(rest[0]) by {
      if |rest| > 0 { assert t[n..][0] == t[n]; }
    }
    RunSpacesOnly(rest);
    RunNoDoubleWs(rest);
    RunChars(t, n, rest);
    RunNonWs(t, n, rest);
  }

  lemma RunSpacesOnly(rest: string)
    requires SpacesOnly(rest)
    ensures SpacesOnly(" " + rest)
  {
    var r := " " + rest;
    forall i | 0 <= i < |r| && IsWs(r[i]) ensures r[i] == ' ' {
      if i > 0 { assert r[i] == rest[i - 1]; }
    }
  }

  lemma RunNoDoubleWs(rest: string)
    requires NoDoubleWs(rest) && (|rest| > 0 ==> !IsWs(rest[0]))
    ensures NoDoubleWs(" " + rest)
  {
    var r := " " + rest;
    forall i, j | 0 <= i < j < |r| && j == i + 1 ensures !IsWs(r[i]) || !IsWs(r[j]) {
      if i > 0 { assert r[i] == rest[i - 1] && r[j] == rest[i]; }
      else { assert r[1] == rest[0]; }
    }
  }

  lemma RunChars(t: string, n: nat, rest: string)
    requires n <= |t|
    requires forall c :: c in rest && c != ' ' ==> c in t[n..]
    ensures forall c :: c in " " + rest && c != ' ' ==> c in t
  {
    forall c | c in " " + rest && c != ' ' ensures c in t {
      assert c in rest;
      var j :| 0 <= j < |t[n..]| && t[n..][j] == c;
      assert t[n + j] == c;
    }
  }

  lemma RunNonWs(t: string, n: nat, rest: string)
    requires n <= |t| && AllWs(t[..n])
    requires NonWs(rest) == NonWs(t[n..])
    ensures NonWs(" " + rest) == NonWs(t)
  {
    assert t == t[..n] + t[n..];
    NonWsAppend(t[..n], t[n..]);
    NonWsAllWs(t[..n]);
    assert (" " + rest)[1..] == rest;
  }

  lemma CollapseKeep(t: string, rest: string)
    requires |t| > 0 && !IsWs(t[0])
    requires SpacesOnly(rest) && NoDoubleWs(rest)
    requires forall c :: c in rest && c != ' ' ==> c in t[1..]
    requires NonWs(rest) == NonWs(t[1..])
    ensures var r := [t[0]] + rest;
      && SpacesOnly(r) && NoDoubleWs(r)
      && (forall c :: c in r && c != ' ' ==> c in t)
      && NonWs(r) == NonWs(t)
  {
    var r := [t[0]] + rest;
    KeepSpacesOnly(t[0], rest);
    KeepNoDoubleWs(t[0], rest);
    KeepChars(t, rest);
    assert r[1..] == rest;
  }

  lemma KeepSpacesOnly(c: char, rest: string)
    requires !IsWs(c) && SpacesOnly(rest)
    ensures SpacesOnly([c] + rest)
  {
    var r := [c] + rest;
    forall i | 0 <= i < |r| && IsWs(r[i]) ensures r[i] == ' ' {
      assert r[i] == rest[i - 1];
    }
  }

  lemma KeepNoDoubleWs(c: char, rest: string)
    requires !IsWs(c) && NoDoubleWs(rest)
    ensures NoDoubleWs([c] + rest)
  {
    var r := [c] + rest;
    forall i, j | 0 <= i < j < |r| && j == i + 1 ensures !IsWs(r[i]) || !IsWs(r[j]) {
      if i > 0 { assert r[i] == rest[i - 1] && r[j] == rest[i]; }
    }
  }

  lemma KeepChars(t: string, rest: string)
    requires |t| > 0
    requires forall c :: c in rest && c != ' ' ==> c in t[1..]
    ensures forall c :: c in [t[0]] + rest && c != ' ' ==> c in t
  {
    forall c | c in [t[0]] + rest && c != ' ' ensures c in t {
      if c != t[0] {
        assert c in rest;
        var j :| 0 <= j < |t[1..]| && t[1..][j] == c;
        assert t[j + 1] == c;
      }
    }
  }

  /** Text without whitespace is left as it is. */
  lemma {:induction false} CollapseNoWs(t: string)
    requires forall i :: 0 <= i < |t| ==> !IsWs(t[i])
    ensures CollapseWs(t) == t
  {
    if |t| > 0 {
      CollapseNoWs(t[1..]);
      assert t == [t[0]] + t[1..];
    }
  }

  /** Text whose only whitespace is single spaces is already collapsed. */
  lemma {:induction false} CollapseCollapsed(t: string)
    requires SpacesOnly(t) && NoDoubleWs(t)
    ensures CollapseWs(t) == t
  {
    if |t| > 0 {
      var s := t[1..];
      assert SpacesOnly(s) by {
        forall i | 0 <= i < |s| && IsWs(s[i]) ensures s[i] == ' ' { assert s[i] == t[i + 1]; }
      }
      assert NoDoubleWs(s) by {
        forall i, j | 0 <= i < j < |s| && j == i + 1 ensures !IsWs(s[i]) || !IsWs(s[j]) {
          assert s[i] == t[i + 1] && s[j] == t[j + 1];
        }
      }
      CollapseCollapsed(s);
      if IsWs(t[0]) {
        assert |t| == 1 || !IsWs(t[1]);
        assert LeadingWs(t) == 1;
      }
      assert t == [t[0]] + s;
    }
  }

  /** A word, one space, then collapsed text: nothing to collapse. */
  lemma CollapseSpaced(a: string, b: string)
    requires Word(a)
    requires CollapseWs(b) == b && (b == [] || !IsWs(b[0]))
    ensures CollapseWs(a + " " + b) == a + " " + b
  {
    CollapseNoWs(a);
    CollapseRunJoin(a, " ", b);
    AppendAssoc(a, " ", b);
  }

  /** Nonempty text without whitespace. */
  predicate Word(a: string) {
    |a| > 0 && forall i :: 0 <= i < |a| ==> !IsWs(a[i])
  }

  /** Four words with one space between each are already collapsed. */
  lemma CollapseFourWords(a: string, b: string, c: string, d: string)
    requires Word(a) && Word(b) && Word(c) && Word(d)
    ensures var s := a + " " + (b + " " + (c + " " + d));
      CollapseWs(s) == s
  {
    CollapseNoWs(d);
    CollapseSpaced(c, d);
    CollapseSpaced(b, c + " " + d);
    CollapseSpaced(a, b + " " + (c + " " + d));
  }

  /** Collapsing twice is collapsing once. */
  lemma CollapseIdempotent(t: string)
    ensures CollapseWs(CollapseWs(t)) == CollapseWs(t)
  {
    CollapseCollapsed(CollapseWs(t));
  }

  /** A whitespace run between text that does not end in whitespace and
      text that does not start with it becomes exactly one space there. */
  lemma CollapseRunJoin(u: string, w: string, v: string)
    requires |w| > 0 && AllWs(w)
    requires u == [] || !IsWs(u[|u| - 1])
    requires v == [] || !IsWs(v[0])
    ensures CollapseWs(u + (w + v)) == CollapseWs(u) + " " + CollapseWs(v)
  {
    CollapseAppend(u, w + v);
    CollapseLeadingRun(w, v);
    AppendAssoc(CollapseWs(u), " ", CollapseWs(v));
  }

  /** Text that does not end in whitespace collapses on its own: no run
      crosses the boundary. */
  lemma {:induction false} CollapseAppend(u: string, x: string)
    requires u == [] || !IsWs(u[|u| - 1])
    ensures CollapseWs(u + x) == CollapseWs(u) + CollapseWs(x)
    decreases |u|
  {
    if |u| == 0 {
      assert u + x == x;
    } else if !IsWs(u[0]) {
      assert u[1..] == [] || u[1..][|u[1..]| - 1] == u[|u| - 1];
      CollapseAppend(u[1..], x);
      CollapseFirstKept(u, x);
      AppendAssoc([u[0]], CollapseWs(u[1..]), CollapseWs(x));
    } else {
      var m := LeadingWs(u);
      assert forall i :: 0 <= i < m ==> IsWs(u[i]) by {
        forall i | 0 <= i < m ensures IsWs(u[i]) { assert u[..m][i] == u[i]; }
      }
      assert u[m..][|u[m..]| - 1] == u[|u| - 1];
      CollapseAppend(u[m..], x);
      CollapseFirstRun(u, x);
      AppendAssoc(" ", CollapseWs(u[m..]), CollapseWs(x));
    }
  }

  /** Leading whitespace becomes one space. */
  lemma CollapseLeadingRun(w: string, v: string)
    requires |w| > 0 && AllWs(w)
    requires v == [] || !IsWs(v[0])
    ensures CollapseWs(w + v) == " " + CollapseWs(v)
  {
    LeadingWsPadded(w, v);
    assert LeadingWs(v) == 0;
    assert (w + v)[0] == w[0];
    assert (w + v)[|w|..] == v;
  }

  /** A first character that is not whitespace is kept, whatever follows. */
  lemma CollapseFirstKept(u: string, x: string)
    requires |u| > 0 && !IsWs(u[0])
    ensures CollapseWs(u + x) == [u[0]] + CollapseWs(u[1..] + x)
    ensures CollapseWs(u) == [u[0]] + CollapseWs(u[1..])
  {
    assert (u + x)[0] == u[0];
    assert (u + x)[1..] == u[1..] + x;
  }

  /** A leading run in a string that is not all whitespace becomes one
      space, whatever follows. */
  lemma CollapseFirstRun(u: string, x: string)
    requires |u| > 0 && IsWs(u[0]) && LeadingWs(u) < |u|
    ensures CollapseWs(u + x) == " " + CollapseWs(u[LeadingWs(u)..] + x)
    ensures CollapseWs(u) == " " + CollapseWs(u[LeadingWs(u)..])
  {
    var m := LeadingWs(u);
    LeadingWsExtend(u, x);
    assert (u + x)[0] == u[0];
    assert (u + x)[m..] == u[m..] + x;
  }

  /** Text after a string that is not all whitespace does not change its leading run. */
  lemma {:induction false} LeadingWsExtend(u: string, x: string)
    requires LeadingWs(u) < |u|
    ensures LeadingWs(u + x) == LeadingWs(u)
  {
    if IsWs(u[0]) {
      assert (u + x)[1..] == u[1..] + x;
      LeadingWsExtend(u[1..], x);
    }
  }

  /** The cleaned text: `.replace(...).replace(/\s+/g, ' ').trim()`. */
  function Clean(text: string): string {
    Trim(CollapseWs(RemoveChars(text)))
  }

  /** The cleaned text holds none of the removed characters, no whitespace
      at its ends, no whitespace but single spaces, and exactly the
      non-whitespace characters of the text that are not removed, in order. */
  lemma CleanText(text: string)
    ensures var c := Clean(text);
      && NoneRemoved(c) && IsTrimmed(c) && SpacesOnly(c) && NoDoubleWs(c)
      && NoLineTerminator(c)
      && NonWs(c) == NonWs(RemoveChars(text))
  {
    var r := RemoveChars(text);
    var x := CollapseWs(r);
    var c := Trim(x);
    var i, j :| 0 <= i <= j <= |x| && c == x[i..j] && AllWs(x[..i]) && AllWs(x[j..]);
    CollapseNoneRemoved(r);
    SliceClean(x, i, j);
    SliceNoDoubleWs(x, i, j);
    SpacesNoTerminator(c);
    NonWsTrimmed(x, i, j);
  }

  /** Collapsing whitespace brings in no removed character. */
  lemma CollapseNoneRemoved(r: string)
    requires NoneRemoved(r)
    ensures NoneRemoved(CollapseWs(r))
  {
    var x := CollapseWs(r);
    forall k | 0 <= k < |x| ensures !IsRemoved(x[k]) {
      if x[k] != ' ' {
        assert x[k] in x;
      }
    }
  }

  lemma SliceClean(x: string, i: nat, j: nat)
    requires i <= j <= |x| && NoneRemoved(x) && SpacesOnly(x)
    ensures NoneRemoved(x[i..j]) && SpacesOnly(x[i..j])
  {
    forall k | 0 <= k < j - i ensures x[i..j][k] == x[i + k] {
    }
  }

  lemma SliceNoDoubleWs(x: string, i: nat, j: nat)
    requires i <= j <= |x| && NoDoubleWs(x)
    ensures NoDoubleWs(x[i..j])
  {
    var c := x[i..j];
    forall k, l | 0 <= k < l < |c| && l == k + 1 ensures !IsWs(c[k]) || !IsWs(c[l]) {
      assert c[k] == x[i + k] && c[l] == x[i + l];
    }
  }

  /** A string whose only whitespace is the space holds no line terminator. */
  lemma SpacesNoTerminator(c: string)
    requires SpacesOnly(c)
    ensures NoLineTerminator(c)
  {
    forall k | 0 <= k < |c| ensures !IsLineTerminator(c[k]) {
      if IsLineTerminator(c[k]) {
        assert IsWs(c[k]);
      }
    }
  }

  /** Trimming whitespace keeps every other character. */
  lemma NonWsTrimmed(x: string, i: nat, j: nat)
    requires i <= j <= |x| && AllWs(x[..i]) && AllWs(x[j..])
    ensures NonWs(x[i..j]) == NonWs(x)
  {
    assert x == x[..i] + x[i..j] + x[j..];
    NonWsAppend(x[..i] + x[i..j], x[j..]);
    NonWsAppend(x[..i], x[i..j]);
    NonWsAllWs(x[..i]);
    NonWsAllWs(x[j..]);
  }

  /** The callback of `.map`. */
  function ProcessLine(line: string): string {
    if Trim(line) == [] then line
    else
      match MatchItem(line)
      case None => line
      case Some(item) => item.number + " " + Link(item.text)
  }

  /** The wiki link `[[...]]` to the cleaned text. */
  function Link(text: string): string {
    "[[" + Clean(text) + "]]"
  }

  /** A blank or whitespace-only line is kept as it is. */
  lemma BlankLineKept(line: string)
    requires AllWs(line)
    ensures ProcessLine(line) == line
  {
    TrimPadded(line, "", "");
    assert line + "" + "" == line;
  }

  /** A line the pattern does not match is kept as it is. */
  lemma NonItemKept(line: string)
    requires forall d: nat, s: nat, e: nat :: !IsMatchAt(line, d, s, e)
    ensures ProcessLine(line) == line
  {
    if MatchItem(line).Some? {
      MatchItemSound(line);
    }
  }

  /** A numbered item is rewritten into another numbered item with the same
      number whose text is the wiki link to the cleaned text. */
  lemma RewrittenItem(line: string)
    requires Trim(line) != [] && MatchItem(line).Some?
    ensures var item := MatchItem(line).value;
      MatchItem(ProcessLine(line)) == Some(Item(item.number, Link(item.text)))
  {
    var digits := RewrittenForm(line);
    ItemOfLink(digits, MatchItem(line).value.text);
  }

  lemma ItemOfLink(digits: string, text: string)
    requires |digits| > 0 && AllDigits(digits)
    ensures MatchItem(digits + "." + " " + Link(text)) == Some(Item(digits + ".", Link(text)))
  {
    CleanText(text);
    LinkText(Clean(text));
    ItemOfParts(digits, " ", Link(text));
  }

  /** The rewrite of an item: its digits, the dot, one space and the link. */
  lemma RewrittenForm(line: string) returns (digits: string)
    requires Trim(line) != [] && MatchItem(line).Some?
    ensures |digits| > 0 && AllDigits(digits)
    ensures MatchItem(line).value.number == digits + "."
    ensures ProcessLine(line) == digits + "." + " " + Link(MatchItem(line).value.text)
  {
    var d := ItemNumber(line);
    digits := line[..d];
  }

  /** The number group of a match is the leading digits and the dot. */
  lemma ItemNumber(line: string) returns (d: nat)
    requires MatchItem(line).Some?
    ensures 0 < d < |line| && AllDigits(line[..d])
    ensures MatchItem(line).value.number == line[..d] + "." == line[..d + 1]
  {
    d := DigitRun(line);
    TakeDot(line, d);
  }

  lemma TakeDot(line: string, d: nat)
    requires d < |line| && line[d] == '.'
    ensures line[..d] + "." == line[..d + 1]
  {
    assert line[..d + 1] == line[..d] + [line[d]];
  }

  /** The wiki link to a one-line text is a valid, trimmed item text. */
  lemma LinkText(c: string)
    requires NoLineTerminator(c)
    ensures var link := "[[" + c + "]]";
      NoLineTerminator(link) && IsTrimmed(link)
  {
    var link := "[[" + c + "]]";
    forall k | 0 <= k < |link| ensures !IsLineTerminator(link[k]) {
      if 2 <= k < |link| - 2 {
        assert link[k] == c[k - 2];
      }
    }
  }

  /** An item line built from its parts is rewritten to its number, one
      space and the link. */
  lemma ItemLine(digits: string, w: string, text: string)
    requires |digits| > 0 && AllDigits(digits)
    requires |w| > 0 && AllWs(w)
    requires NoLineTerminator(text) && IsTrimmed(text)
    ensures ProcessLine(digits + "." + w + text) == digits + "." + " " + Link(text)
  {
    var line := digits + "." + w + text;
    ItemOfParts(digits, w, text);
    assert line[0] == digits[0] && IsDigit(digits[0]);
    DigitNotWs(digits[0]);
    TrimNonEmpty(line);
    ItemRewritten(line, Item(digits + ".", text));
  }

  lemma ItemRewritten(line: string, item: Item)
    requires Trim(line) != [] && MatchItem(line) == Some(item)
    ensures ProcessLine(line) == item.number + " " + Link(item.text)
  {
  }

  /** Text that starts with a character other than whitespace does not trim to nothing. */
  lemma TrimNonEmpty(s: string)
    requires |s| > 0 && !IsWs(s[0])
    ensures Trim(s) != []
  {
    var i, j :| 0 <= i <= j <= |s| && Trim(s) == s[i..j] && AllWs(s[..i]) && AllWs(s[j..]);
  }

  /** Digits, a dot, whitespace and a trimmed one-line text form a line the
      pattern matches, with exactly those groups. */
  lemma ItemOfParts(digits: string, w: string, text: string)
    requires |digits| > 0 && AllDigits(digits)
    requires |w| > 0 && AllWs(w)
    requires NoLineTerminator(text) && IsTrimmed(text)
    ensures MatchItem(digits + "." + w + text) == Some(Item(digits + ".", text))
  {
    PartsMatchAt(digits, w, text);
    var line := digits + "." + w + text;
    MatchAtItem(line, |digits|, |digits| + 1 + |w|, digits + ".", text);
  }

  lemma MatchAtItem(line: string, d: nat, s: nat, number: string, text: string)
    requires IsMatchAt(line, d, s, |line|) && IsTrimmed(text)
    requires line[..d + 1] == number && line[s..|line|] == text
    ensures MatchItem(line) == Some(Item(number, text))
  {
    MatchItemComplete(line, d, s, |line|);
    TrimTrimmed(text);
  }

  lemma PartsMatchAt(digits: string, w: string, text: string)
    requires |digits| > 0 && AllDigits(digits)
    requires |w| > 0 && AllWs(w)
    requires NoLineTerminator(text)
    ensures var line := digits + "." + w + text;
      && IsMatchAt(line, |digits|, |digits| + 1 + |w|, |line|)
      && line[..|digits| + 1] == digits + "."
      && line[|digits| + 1 + |w|..|line|] == text
  {
    var line := digits + "." + w + text;
    var d := |digits|;
    var s := d + 1 + |w|;
    assert line[..d] == digits;
    assert line[..d + 1] == digits + ".";
    assert line[d + 1..s] == w;
    assert line[s..|line|] == text;
    assert line[|line|..] == [];
  }

  /** The rewritten line has no newline when the line had none. */
  lemma ProcessLineNoNewline(line: string)
    requires '\n' !in line
    ensures '\n' !in ProcessLine(line)
  {
    if Trim(line) != [] && MatchItem(line).Some? {
      var item := MatchItem(line).value;
      var d := ItemNumber(line);
      assert '\n' !in line[..d + 1];
      CleanText(item.text);
      LinkText(Clean(item.text));
      NoNewline(Link(item.text));
    }
  }

  lemma NoNewline(s: string)
    requires NoLineTerminator(s)
    ensures '\n' !in s
  {
    forall k | 0 <= k < |s| ensures s[k] != '\n' {
      assert !IsLineTerminator(s[k]);
    }
  }

  /** `.map(...)` over the lines. */
  function ProcessLines(lines: seq<string>): (out: seq<string>)
    ensures |out| == |lines|
    ensures forall i :: 0 <= i < |lines| ==> out[i] == ProcessLine(lines[i])
  {
    seq(|lines|, i requires 0 <= i < |lines| => ProcessLine(lines[i]))
  }

  /** `content.split('\n').map(...).join('\n')`. */
  function ProcessContent(content: string): string {
    Join(ProcessLines(Split(content, '\n')), "\n")
  }

  /** The output has exactly as many lines as the input, and its line `i`
      is the rewrite of input line `i` alone. */
  lemma ProcessContentLines(content: string)
    ensures Split(ProcessContent(content), '\n') == ProcessLines(Split(content, '\n'))
  {
    var lines := Split(content, '\n');
    var out := ProcessLines(lines);
    forall i | 0 <= i < |out| ensures '\n' !in out[i] {
      ProcessLineNoNewline(lines[i]);
    }
    SplitJoin(out, '\n');
  }

  /** "1. What is a closure?" is an item numbered "1." with that question
      as its text. */
  lemma ExampleItem()
    ensures MatchItem("1" + "." + " " + "What is a closure?") == Some(Item("1" + ".", "What is a closure?"))
  {
    ExampleParts();
    ItemOfParts("1", " ", "What is a closure?");
  }

  /** The whole rewrite of the example item: the question mark goes and the
      words stay apart, one space each. */
  lemma ExampleProcessLine()
    ensures ProcessLine("1. What is a closure?") == "1. [[What is a closure]]"
  {
    ExampleParts();
    ItemLine("1", " ", "What is a closure?");
    ExampleLink();
    ExampleSpelling();
  }

  lemma ExampleLink()
    ensures Link("What is a closure?") == "[[" + "What is a closure" + "]]"
  {
    ExampleClean();
    LinkOfClean("What is a closure?", "What is a closure");
  }

  lemma LinkOfClean(text: string, c: string)
    requires Clean(text) == c
    ensures Link(text) == "[[" + c + "]]"
  {
  }

  /** The example line and its rewrite, spelled out from their parts. */
  lemma ExampleSpelling()
    ensures "1" + "." + " " + "What is a closure?" == "1. What is a closure?"
    ensures "1" + "." + " " + ("[[" + "What is a closure" + "]]") == "1. [[What is a closure]]"
  {
  }

  lemma ExampleClean()
    ensures Clean("What is a closure?") == "What is a closure"
  {
    ExampleRemove();
    ExampleCollapse();
    ExampleTrim();
  }

  lemma ExampleRemove()
    ensures RemoveChars("What is a closure?") == "What is a closure"
  {
    assert NoneRemoved("What is a closure");
    assert "What is a closure" + ['?'] == "What is a closure?";
    RemoveCharsLast("What is a closure", '?');
  }

  lemma ExampleCollapse()
    ensures CollapseWs("What is a closure") == "What is a closure"
  {
    ExampleWordsPlain();
    CollapseFourWords("What", "is", "a", "closure");
    ExampleWords();
  }

  lemma ExampleWordsPlain()
    ensures Word("What") && Word("is") && Word("a") && Word("closure")
  {
  }

  lemma ExampleWords()
    ensures "What" + " " + ("is" + " " + ("a" + " " + "closure")) == "What is a closure"
  {
  }

  lemma ExampleTrim()
    ensures Trim("What is a closure") == "What is a closure"
  {
    TrimTrimmed("What is a closure");
  }

  lemma ExampleParts()
    ensures AllDigits("1") && AllWs(" ")
    ensures NoLineTerminator("What is a closure?") && IsTrimmed("What is a closure?")
  {
  }
}
