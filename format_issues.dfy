/** `formatIssues` (scripts/frontmatter/helpers/formatIssues/formatIssues.ts):
    the text report of the files with problems. */
module IssueFormatting {
  import opened Strings
  import opened Values

  /** `FileIssue`: the validator fills `issues`, the update flow `missing`. */
  datatype FileIssue = FileIssue(file: string, issues: Option<seq<string>>, missing: Option<seq<string>>)

  /** The item prefix exactly as the source spells it: four spaces, the
      characters U+00E2 U+20AC U+00A2 (the UTF-8 bytes of a bullet read as
      Windows-1252) and a space. */
  const Bullet: string := "    \U{00E2}\U{20AC}\U{00A2} "

  /** `issue.issues ?? issue.missing ?? []`. */
  function ItemsOf(issue: FileIssue): (items: seq<string>)
    ensures issue.issues.Some? ==> items == issue.issues.value
    ensures issue.issues.None? && issue.missing.Some? ==> items == issue.missing.value
    ensures issue.issues.None? && issue.missing.None? ==> items == []
  {
    match issue.issues
    case Some(xs) => xs
    case None =>
      match issue.missing
      case Some(ys) => ys
      case None => []
  }

  /** The item lines of one entry. */
  function ItemLines(items: seq<string>): (lines: seq<string>)
    ensures |lines| == |items|
    ensures forall i :: 0 <= i < |items| ==> lines[i] == Bullet + items[i]
  {
    seq(|items|, i requires 0 <= i < |items| => Bullet + items[i])
  }

  /** One entry: a blank line, the file indented by two spaces, then its items. */
  function FormatEntry(issue: FileIssue): string
  {
    "\n  " + issue.file + "\n" + Join(ItemLines(ItemsOf(issue)), "\n")
  }

  function Entries(issues: seq<FileIssue>): (entries: seq<string>)
    ensures |entries| == |issues|
    ensures forall i :: 0 <= i < |issues| ==> entries[i] == FormatEntry(issues[i])
  {
    seq(|issues|, i requires 0 <= i < |issues| => FormatEntry(issues[i]))
  }

  /** `formatIssues`: the entries joined by newlines, in input order. */
  function FormatIssues(issues: seq<FileIssue>): string
  {
    Join(Entries(issues), "\n")
  }

  lemma FormatNoIssues()
    ensures FormatIssues([]) == ""
  {
  }

  lemma FormatOneIssue(issue: FileIssue)
    ensures FormatIssues([issue]) == FormatEntry(issue)
  {
  }

  lemma {:induction false} JoinAppend(a: seq<string>, b: seq<string>, sep: string)
    requires |a| > 0 && |b| > 0
    ensures Join(a + b, sep) == Join(a, sep) + sep + Join(b, sep)
    decreases |a|
  {
    if |a| == 1 {
      assert (a + b)[1..] == b;
    } else {
      assert (a + b)[1..] == a[1..] + b;
      JoinAppend(a[1..], b, sep);
    }
  }

  /** Reports concatenate: the entries of two lists are joined by one newline. */
  lemma FormatAppend(a: seq<FileIssue>, b: seq<FileIssue>)
    requires |a| > 0 && |b| > 0
    ensures FormatIssues(a + b) == FormatIssues(a) + "\n" + FormatIssues(b)
  {
    assert Entries(a + b) == Entries(a) + Entries(b);
    JoinAppend(Entries(a), Entries(b), "\n");
  }

  /** Split on newlines, an entry without newlines in its file name and
      items reads back as an empty line, the file line, and one line per
      item in order. */
  lemma EntryLines(issue: FileIssue)
    requires '\n' !in issue.file
    requires forall item :: item in ItemsOf(issue) ==> '\n' !in item
    requires ItemsOf(issue) != []
    ensures Split(FormatEntry(issue), '\n') == ["", "  " + issue.file] + ItemLines(ItemsOf(issue))
  {
    var lines := ItemLines(ItemsOf(issue));
    forall i | 0 <= i < |lines| ensures '\n' !in lines[i] {
      assert lines[i] == Bullet + ItemsOf(issue)[i];
      assert ItemsOf(issue)[i] in ItemsOf(issue);
    }
    var body := Join(lines, "\n");
    SplitJoin(lines, '\n');
    assert '\n' !in "  " + issue.file;
    assert FormatEntry(issue) == [] + ['\n'] + (("  " + issue.file) + ['\n'] + body);
    SplitAtSeparator("  " + issue.file, '\n', body);
    SplitAtSeparator([], '\n', ("  " + issue.file) + ['\n'] + body);
  }

  /** An entry whose list is empty is the file line followed by a newline. */
  lemma EntryWithoutItems(issue: FileIssue)
    requires ItemsOf(issue) == []
    ensures FormatEntry(issue) == "\n  " + issue.file + "\n"
  {
  }
}
