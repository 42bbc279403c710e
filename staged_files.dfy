/** The `getStagedFiles` line filter, written out twice in the source
    (scripts/frontmatter/lib/validate.ts and scripts/frontmatter/lib/generate-meta.ts):
    the Markdown files under the documents directory among the lines of
    `git diff --cached --name-only`, whose output is a parameter here. */
module StagedFiles {
  import opened Seqs
  import opened Strings

  /** `stdout.split(/\r?\n/)`: the pieces between newlines, each without the
      one carriage return that may precede its newline. The last piece has
      no newline after it and keeps a final carriage return. */
  function Lines(stdout: string): (lines: seq<string>)
    ensures |lines| == |Split(stdout, '\n')| >= 1
    ensures forall i :: 0 <= i < |lines| - 1 ==> lines[i] == DropSuffix(Split(stdout, '\n')[i], "\r")
    ensures lines[|lines| - 1] == Split(stdout, '\n')[|lines| - 1]
  {
    var parts := Split(stdout, '\n');
    seq(|parts|, i requires 0 <= i < |parts| =>
      if i < |parts| - 1 then DropSuffix(parts[i], "\r") else parts[i])
  }

  /** Lines joined with CRLF pieces: every one but the last gets a carriage return. */
  function WithCr(ls: seq<string>): (ps: seq<string>)
    ensures |ps| == |ls|
  {
    seq(|ls|, i requires 0 <= i < |ls| => if i < |ls| - 1 then ls[i] + "\r" else ls[i])
  }

  lemma {:induction false} JoinCrlf(ls: seq<string>)
    requires |ls| >= 1
    ensures Join(ls, "\r\n") == Join(WithCr(ls), "\n")
  {
    if |ls| >= 2 {
      JoinCrlf(ls[1..]);
      assert WithCr(ls)[1..] == WithCr(ls[1..]);
      assert ls[0] + "\r\n" + Join(ls[1..], "\r\n") == (ls[0] + "\r") + "\n" + Join(ls[1..], "\r\n");
    }
  }

  /** Splitting lines joined with CRLF gives them back, whatever carriage
      returns they hold themselves: only one is taken before each newline. */
  lemma LinesOfCrlfJoin(ls: seq<string>)
    requires |ls| >= 1
    requires forall i :: 0 <= i < |ls| ==> '\n' !in ls[i]
    ensures Lines(Join(ls, "\r\n")) == ls
  {
    var ps := WithCr(ls);
    JoinCrlf(ls);
    forall i | 0 <= i < |ps| ensures '\n' !in ps[i] {
      if i < |ls| - 1 {
        CrPieceNoNewline(ls[i]);
      }
    }
    SplitJoin(ps, '\n');
    var lines := Lines(Join(ls, "\r\n"));
    forall i | 0 <= i < |ls| ensures lines[i] == ls[i] {
      if i < |ls| - 1 {
        CrDropped(ls[i]);
      }
    }
  }

  lemma CrPieceNoNewline(l: string)
    requires '\n' !in l
    ensures '\n' !in l + "\r"
  {
  }

  /** One carriage return appended is one carriage return dropped. */
  lemma CrDropped(l: string)
    ensures DropSuffix(l + "\r", "\r") == l
  {
    var p := l + "\r";
    assert p[|p| - 1..] == "\r";
    assert p[..|p| - 1] == l;
  }

  /** Without carriage returns, the lines are the plain newline pieces. */
  lemma LinesWithoutCr(stdout: string)
    requires '\r' !in stdout
    ensures Lines(stdout) == Split(stdout, '\n')
  {
    var parts := Split(stdout, '\n');
    forall i | 0 <= i < |parts| - 1 ensures DropSuffix(parts[i], "\r") == parts[i] {
      JoinPieceIn(parts, i);
      CrFreeKept(parts[i]);
    }
  }

  /** A piece without a carriage return has none to drop. */
  lemma CrFreeKept(p: string)
    requires '\r' !in p
    ensures DropSuffix(p, "\r") == p
  {
    assert !EndsWith(p, "\r") by {
      if |p| >= 1 {
        assert p[|p| - 1..][0] == p[|p| - 1];
        assert p[|p| - 1] in p;
      }
    }
  }

  /** A piece of a join is a part of the joined string. */
  lemma {:induction false} JoinPieceIn(parts: seq<string>, i: nat)
    requires i < |parts|
    ensures forall c :: c in parts[i] ==> c in Join(parts, "\n")
  {
    if i > 0 {
      JoinPieceIn(parts[1..], i - 1);
      assert parts[1..][i - 1] == parts[i];
    }
  }

  /** `.map((file) => file.trim())`. */
  function TrimAll(lines: seq<string>): (ts: seq<string>)
    ensures |ts| == |lines|
    ensures forall i :: 0 <= i < |lines| ==> ts[i] == Trim(lines[i])
  {
    seq(|lines|, i requires 0 <= i < |lines| => Trim(lines[i]))
  }

  /** The second filter's test. */
  predicate IsDocsMarkdown(file: string, docsDir: string) {
    StartsWith(file, docsDir + "/") && EndsWith(file, ".md")
  }

  /** `.filter(...)` with that test, in order. */
  function SelectDocs(files: seq<string>, docsDir: string): (r: seq<string>)
    ensures forall f :: f in r <==> f in files && IsDocsMarkdown(f, docsDir)
    ensures Subseq(r, files)
  {
    if |files| == 0 then []
    else
      var rest := SelectDocs(files[1..], docsDir);
      assert files == [files[0]] + files[1..];
      SubseqPrepend(rest, files[0], files[1..]);
      if IsDocsMarkdown(files[0], docsDir) then
        assert ([files[0]] + rest)[1..] == rest;
        [files[0]] + rest
      else rest
  }

  /** Every piece `trim` leaves has no surrounding whitespace. */
  lemma TrimAllTrimmed(lines: seq<string>)
    ensures forall f :: f in TrimAll(lines) ==> IsTrimmed(f)
  {
    var ts := TrimAll(lines);
    forall f | f in ts ensures IsTrimmed(f) {
      var i :| 0 <= i < |ts| && ts[i] == f;
    }
  }

  /** `getStagedFiles` after the git call. */
  function StagedDocs(stdout: string, docsDir: string): (files: seq<string>)
    ensures forall f :: f in files ==>
      IsTrimmed(f) && f != [] && StartsWith(f, docsDir + "/") && EndsWith(f, ".md")
    ensures forall i :: 0 <= i < |Lines(stdout)| && IsDocsMarkdown(Trim(Lines(stdout)[i]), docsDir)
              ==> Trim(Lines(stdout)[i]) in files
    ensures Subseq(files, TrimAll(Lines(stdout)))
  {
    var trimmed := TrimAll(Lines(stdout));
    var nonEmpty := NonEmpty(trimmed);
    var files := SelectDocs(nonEmpty, docsDir);
    TrimAllTrimmed(Lines(stdout));
    SelectedPieces(trimmed, docsDir);
    SubseqTrans(files, nonEmpty, trimmed);
    files
  }

  /** A piece passes both filters exactly when it is nonempty and passes the path test. */
  lemma SelectedPieces(trimmed: seq<string>, docsDir: string)
    ensures forall f :: f in SelectDocs(NonEmpty(trimmed), docsDir) <==> (f in trimmed && f != [] && IsDocsMarkdown(f, docsDir))
    ensures forall i :: 0 <= i < |trimmed| && IsDocsMarkdown(trimmed[i], docsDir) ==> trimmed[i] in SelectDocs(NonEmpty(trimmed), docsDir)
  {
    forall i | 0 <= i < |trimmed| && IsDocsMarkdown(trimmed[i], docsDir)
      ensures trimmed[i] in SelectDocs(NonEmpty(trimmed), docsDir)
    {
      assert trimmed[i] in trimmed;
      assert |trimmed[i]| >= 1;
    }
  }

  /** A whitespace character at the end does not change the trimmed string. */
  lemma TrimSnocWs(q: string, c: char)
    requires IsWs(c)
    ensures Trim(q + [c]) == Trim(q)
  {
    var r := Trim(q);
    var i, j :| 0 <= i <= j <= |q| && r == q[i..j] && AllWs(q[..i]) && AllWs(q[j..]);
    var tail := q[j..] + [c];
    AllWsSnoc(q[j..], c);
    SplitThree(q, i, j, c);
    TrimPadded(q[..i], r, tail);
  }

  lemma AllWsSnoc(w: string, c: char)
    requires AllWs(w) && IsWs(c)
    ensures AllWs(w + [c])
  {
    var t := w + [c];
    forall k | 0 <= k < |t| ensures IsWs(t[k]) {
      if k < |w| { assert t[k] == w[k]; }
    }
  }

  lemma SplitThree(q: string, i: nat, j: nat, c: char)
    requires i <= j <= |q|
    ensures q + [c] == q[..i] + q[i..j] + (q[j..] + [c])
  {
    assert q == q[..i] + q[i..j] + q[j..];
  }

  /** Trimming removes the carriage return too, so dropping it first changes nothing. */
  lemma TrimDropCr(p: string)
    ensures Trim(DropSuffix(p, "\r")) == Trim(p)
  {
    if EndsWith(p, "\r") {
      var q := DropSuffix(p, "\r");
      assert p == q + ['\r'];
      TrimSnocWs(q, '\r');
    }
  }

  lemma LineTrim(stdout: string, i: nat)
    requires i < |Split(stdout, '\n')|
    ensures Trim(Lines(stdout)[i]) == Trim(Split(stdout, '\n')[i])
  {
    if i < |Split(stdout, '\n')| - 1 {
      TrimDropCr(Split(stdout, '\n')[i]);
    }
  }

  /** The lines are the newline-separated pieces up to surrounding whitespace:
      for the trimmed result, `\r?\n` and `\n` split alike. */
  lemma LinesTrimLikeSplit(stdout: string)
    ensures TrimAll(Lines(stdout)) == TrimAll(Split(stdout, '\n'))
  {
    var parts := Split(stdout, '\n');
    forall i | 0 <= i < |parts| ensures Trim(Lines(stdout)[i]) == Trim(parts[i]) {
      LineTrim(stdout, i);
    }
  }

  /** Dropping empty lines is already implied by the path test. */
  lemma {:induction false} NonEmptyFilterRedundant(files: seq<string>, docsDir: string)
    ensures SelectDocs(NonEmpty(files), docsDir) == SelectDocs(files, docsDir)
  {
    if |files| > 0 {
      NonEmptyFilterRedundant(files[1..], docsDir);
      if files[0] != [] {
        assert ([files[0]] + NonEmpty(files[1..]))[1..] == NonEmpty(files[1..]);
      } else {
        assert !StartsWith(files[0], docsDir + "/");
      }
    }
  }

  /** Nothing is selected from empty output. */
  lemma NoOutputNoFiles(docsDir: string)
    ensures StagedDocs("", docsDir) == []
  {
  }
}
