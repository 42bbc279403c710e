/** `parseOrder` (scripts/frontmatter/helpers/parseOrder/parseOrder.ts): the
    number in a `^(\d+)[\s._-]` file-name prefix, 0 when there is none. */
module OrderParsing {
  import opened Strings

  /** The class `[\s._-]`. */
  predicate IsOrderSeparator(c: char) {
    IsWs(c) || c == '.' || c == '_' || c == '-'
  }

  /** The regular expression matches: a digit run directly followed by a separator.
      Backtracking cannot find another match, since a shorter run is followed by a digit. */
  predicate HasOrderNumber(fileName: string) {
    var d := DigitRun(fileName);
    0 < d < |fileName| && IsOrderSeparator(fileName[d])
  }

  /** `parseOrder`: `Number(match[1])` when the prefix is there, else 0.
      Numbers are read with unbounded precision. */
  function ParseOrder(fileName: string): nat {
    if HasOrderNumber(fileName) then DigitsValue(fileName[..DigitRun(fileName)]) else 0
  }

  /** A digit run followed by a separator yields the value of the run,
      whatever follows. */
  lemma ParseDigitsSeparator(digits: string, c: char, rest: string)
    requires |digits| > 0 && AllDigits(digits)
    requires IsOrderSeparator(c)
    ensures ParseOrder(digits + [c] + rest) == DigitsValue(digits)
  {
    var name := digits + [c] + rest;
    var d := |digits|;
    assert name == digits + ([c] + rest);
    DigitNotWs(c);
    DigitRunOf(digits, [c] + rest);
    assert name[..d] == digits;
  }

  /** Every match has this form, so the converse also holds: a nonzero
      result comes from a digit run and a separator. */
  lemma ParseOrderShape(fileName: string)
    ensures ParseOrder(fileName) != 0 ==>
      exists digits, c, rest :: |digits| > 0 && AllDigits(digits) && IsOrderSeparator(c)
                              && fileName == digits + [c] + rest
                              && ParseOrder(fileName) == DigitsValue(digits)
  {
    if ParseOrder(fileName) != 0 {
      var d := DigitRun(fileName);
      var digits, c, rest := fileName[..d], fileName[d], fileName[d + 1..];
      assert fileName == digits + [c] + rest;
    }
  }

  /** No leading digit, or digits not followed by a separator, gives 0. */
  lemma ParseNoDigit(fileName: string)
    requires fileName == [] || !IsDigit(fileName[0])
    ensures ParseOrder(fileName) == 0
  {
  }

  lemma ParseDigitsOnly(digits: string)
    requires AllDigits(digits)
    ensures ParseOrder(digits) == 0
  {
  }

  lemma ParseDigitsOther(digits: string, c: char, rest: string)
    requires |digits| > 0 && AllDigits(digits)
    requires !IsOrderSeparator(c) && !IsDigit(c)
    ensures ParseOrder(digits + [c] + rest) == 0
  {
    var name := digits + [c] + rest;
    assert name == digits + ([c] + rest);
    DigitRunOf(digits, [c] + rest);
  }

  /** Writing a number as the prefix and reading it back gives the number. */
  lemma ParseDecimalRoundTrip(n: nat, c: char, rest: string)
    requires IsOrderSeparator(c)
    ensures ParseOrder(DecimalString(n) + [c] + rest) == n
  {
    ParseDigitsSeparator(DecimalString(n), c, rest);
  }

  /** Leading zeros do not change the order. */
  lemma ParseLeadingZero(digits: string, c: char, rest: string)
    requires |digits| > 0 && AllDigits(digits)
    requires IsOrderSeparator(c)
    ensures ParseOrder("0" + digits + [c] + rest) == ParseOrder(digits + [c] + rest)
  {
    LeadingZeroIgnored(digits);
    ParseDigitsSeparator("0" + digits, c, rest);
    ParseDigitsSeparator(digits, c, rest);
  }

  lemma ExampleFile()
    ensures ParseOrder("001 File.md") == 1
  {
    assert "001 File.md" == "001" + [' '] + "File.md";
    ParseDigitsSeparator("001", ' ', "File.md");
    assert "001"[..2] == "00" && "00"[..1] == "0" && "0"[..0] == "";
  }

  lemma ExampleLeadingZeros()
    ensures ParseOrder("007-x") == 7
  {
    assert "007-x" == "007" + ['-'] + "x";
    ParseDigitsSeparator("007", '-', "x");
    assert "007"[..2] == "00" && "00"[..1] == "0" && "0"[..0] == "";
  }

  lemma ExampleNoSeparator()
    ensures ParseOrder("12") == 0
    ensures ParseOrder("12a.md") == 0
  {
    ParseDigitsOnly("12");
    assert "12a.md" == "12" + ['a'] + ".md";
    ParseDigitsOther("12", 'a', ".md");
  }
}
