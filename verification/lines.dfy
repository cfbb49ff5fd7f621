/** A note as the task tools see it: the text of a file and the list that
    `text.splitlines(keepends=True)` makes of it, edited by index and
    written back with `"".join(lines)`. Only `'\n'` is a line break here. */
module Lines {
  import opened Wrappers
  import opened Text

  /** `"".join(lines)` */
  function Join(lines: seq<string>): string {
    if lines == [] then "" else lines[0] + Join(lines[1..])
  }

  /** Index of the first `'\n'` in `s`, or `|s|` when there is none. */
  function FirstNewline(s: string): (i: nat)
    ensures i <= |s|
  {
    if s == [] then 0 else if s[0] == '\n' then 0 else 1 + FirstNewline(s[1..])
  }

  /** No break before the first one. */
  lemma {:induction false} FirstNewlineSpec(s: string)
    ensures forall j :: 0 <= j < FirstNewline(s) ==> s[j] != '\n'
    ensures FirstNewline(s) < |s| ==> s[FirstNewline(s)] == '\n'
  {
    if s != [] && s[0] != '\n' {
      FirstNewlineSpec(s[1..]);
    }
  }

  /** `text.splitlines(keepends=True)` */
  function SplitLines(text: string): seq<string>
    decreases |text|
  {
    if text == [] then []
    else
      var i := FirstNewline(text);
      if i == |text| then [text] else [text[..i + 1]] + SplitLines(text[i + 1..])
  }

  predicate NoNewline(s: string) {
    forall j :: 0 <= j < |s| ==> s[j] != '\n'
  }

  predicate EndsWithNewline(s: string) {
    s != [] && s[|s| - 1] == '\n'
  }

  /** A non-empty line whose only break, if any, is its last character. */
  predicate IsLine(s: string) {
    s != [] && NoNewline(s[..|s| - 1])
  }

  /** What `splitlines(keepends=True)` can return: lines, every one but the
      last ending in a break. */
  predicate WellFormed(lines: seq<string>) {
    && (forall i :: 0 <= i < |lines| ==> IsLine(lines[i]))
    && (forall i :: 0 <= i < |lines| - 1 ==> EndsWithNewline(lines[i]))
  }

  lemma JoinCons(x: string, ls: seq<string>)
    ensures Join([x] + ls) == x + Join(ls)
  {
    assert ([x] + ls)[1..] == ls;
  }

  lemma WellFormedCons(x: string, ls: seq<string>)
    requires IsLine(x) && EndsWithNewline(x) && WellFormed(ls)
    ensures WellFormed([x] + ls)
  {
    forall k | 0 < k < |ls| + 1 ensures ([x] + ls)[k] == ls[k - 1] {
    }
  }

  /** Splitting and joining back gives the text again, and the pieces are
      well formed. */
  lemma {:induction false} SplitLinesJoin(text: string)
    ensures Join(SplitLines(text)) == text
    ensures WellFormed(SplitLines(text))
    decreases |text|
  {
    if text != [] {
      var i := FirstNewline(text);
      if i < |text| {
        SplitLinesJoin(text[i + 1..]);
        SplitLinesBreak(text, i);
      } else {
        SplitLinesNoBreak(text);
      }
    }
  }

  /** A text with a break: its first line, then the lines of the rest. */
  lemma SplitLinesBreak(text: string, i: nat)
    requires i < |text| && i == FirstNewline(text)
    requires Join(SplitLines(text[i + 1..])) == text[i + 1..] && WellFormed(SplitLines(text[i + 1..]))
    ensures Join(SplitLines(text)) == text
    ensures WellFormed(SplitLines(text))
  {
    var line, rest := text[..i + 1], text[i + 1..];
    SplitLinesUnfold(text, i);
    CutAt(text, i + 1);
    assert IsLine(line) && EndsWithNewline(line) by {
      FirstNewlineSpec(text);
      assert line[..i] == text[..i];
    }
    LineThenLines(line, rest);
  }

  lemma SplitLinesUnfold(text: string, i: nat)
    requires text != [] && i == FirstNewline(text) && i < |text|
    ensures SplitLines(text) == [text[..i + 1]] + SplitLines(text[i + 1..])
  {
  }

  lemma CutAt(s: string, k: nat)
    requires k <= |s|
    ensures s == s[..k] + s[k..]
  {
  }

  /** A line with its break, followed by the lines of the rest. */
  lemma LineThenLines(line: string, rest: string)
    requires IsLine(line) && EndsWithNewline(line)
    requires Join(SplitLines(rest)) == rest && WellFormed(SplitLines(rest))
    ensures Join([line] + SplitLines(rest)) == line + rest
    ensures WellFormed([line] + SplitLines(rest))
  {
    JoinCons(line, SplitLines(rest));
    WellFormedCons(line, SplitLines(rest));
  }

  /** A non-empty text without a break is one line. */
  lemma SplitLinesNoBreak(text: string)
    requires text != [] && FirstNewline(text) == |text|
    ensures Join(SplitLines(text)) == text
    ensures WellFormed(SplitLines(text))
  {
    assert SplitLines(text) == [text];
    FirstNewlineSpec(text);
    JoinCons(text, []);
    assert text + "" == text;
    assert text[..|text| - 1] == text[..FirstNewline(text) - 1];
  }

  /** Joining well-formed lines and splitting again gives the same lines:
      what is written is what the next operation reads. */
  lemma {:induction false} JoinSplitLines(lines: seq<string>)
    requires WellFormed(lines)
    ensures SplitLines(Join(lines)) == lines
  {
    if lines != [] {
      var l := lines[0];
      var rest := lines[1..];
      assert WellFormed(rest) by {
        forall k | 0 <= k < |rest| ensures IsLine(rest[k]) {
          assert rest[k] == lines[k + 1];
        }
        forall k | 0 <= k < |rest| - 1 ensures EndsWithNewline(rest[k]) {
          assert rest[k] == lines[k + 1];
        }
      }
      JoinSplitLines(rest);
      var text := Join(lines);
      assert text == l + Join(rest);
      if EndsWithNewline(l) {
        FirstNewlineAt(l, Join(rest));
        assert text[..|l|] == l;
        assert text[|l|..] == Join(rest);
      } else {
        assert |lines| == 1;
        assert rest == [];
        assert text == l;
        FirstNewlineNone(l);
      }
    }
  }

  lemma FirstNewlineAt(l: string, tail: string)
    requires IsLine(l) && EndsWithNewline(l)
    ensures FirstNewline(l + tail) == |l| - 1
  {
    var s := l + tail;
    FirstNewlineSpec(s);
    assert forall j :: 0 <= j < |l| - 1 ==> s[j] == l[..|l| - 1][j];
    assert s[|l| - 1] == '\n';
  }

  lemma FirstNewlineNone(l: string)
    requires IsLine(l) && !EndsWithNewline(l)
    ensures FirstNewline(l) == |l|
  {
    FirstNewlineSpec(l);
    assert forall j :: 0 <= j < |l| - 1 ==> l[j] == l[..|l| - 1][j];
  }

  /** The line as it reads without its break. */
  function Chomp(s: string): string {
    if EndsWithNewline(s) then s[..|s| - 1] else s
  }

  /** The list assignment `lines[n - 1] = new_line`, guarded by the
      `n < 1 or n > len(lines)` check that makes the tools fail without
      writing. */
  function ReplaceLine(lines: seq<string>, n: int, newLine: string): (r: Option<seq<string>>)
    ensures r.None? <==> !(1 <= n <= |lines|)
    ensures r.Some? ==> |r.value| == |lines| && r.value[n - 1] == newLine
    ensures r.Some? ==> forall i :: 0 <= i < |lines| && i != n - 1 ==> r.value[i] == lines[i]
  {
    if n < 1 || n > |lines| then None else Some(lines[n - 1 := newLine])
  }

  /** A replacement by one line that ends in a break keeps the file well
      formed, so reading it back gives the same number of lines and every
      line but line `n` as it was. */
  lemma ReplaceLineRereads(lines: seq<string>, n: int, newLine: string)
    requires WellFormed(lines) && 1 <= n <= |lines|
    requires NoNewline(newLine)
    ensures var ls := SplitLines(Join(ReplaceLine(lines, n, newLine + "\n").value));
      && |ls| == |lines|
      && ls[n - 1] == newLine + "\n"
      && forall i :: 0 <= i < |lines| && i != n - 1 ==> ls[i] == lines[i]
  {
    var x := newLine + "\n";
    var r := lines[n - 1 := x];
    assert x[..|x| - 1] == newLine;
    assert WellFormed(r) by {
      forall i | 0 <= i < |r| ensures IsLine(r[i]) {
        if i != n - 1 {
          assert r[i] == lines[i];
        }
      }
    }
    JoinSplitLines(r);
  }

  datatype InsertPosition = End | Top | AfterHeading

  /** Number of `#` characters that open the line. */
  function HashRun(s: string): (k: nat)
    ensures k <= |s|
    ensures forall j :: 0 <= j < k ==> s[j] == '#'
    ensures k < |s| ==> s[k] != '#'
  {
    if s != [] && s[0] == '#' then 1 + HashRun(s[1..]) else 0
  }

  /** The line matches `^#+\s+{re.escape(heading)}\s*$`: one or more `#`,
      at least one whitespace character, the heading exactly as given
      (its own spaces included), and nothing but whitespace to the end of
      the line. The hashes end where the whitespace begins, so `k` is the
      whole run of them. */
  predicate IsHeadingFor(line: string, heading: string) {
    var k := HashRun(line);
    && 1 <= k
    && exists j :: k < j && j + |heading| <= |line| && AllSpace(line, k, j)
         && line[j..j + |heading|] == heading && AllSpace(line, j + |heading|, |line|)
  }

  /** `## ` before any heading, and its line break after it, make a line
      that is a heading for it. */
  lemma HeadingLineMatches(heading: string)
    ensures IsHeadingFor("## " + heading + "\n", heading)
  {
    var line := "## " + heading + "\n";
    assert HashRun(line) == 2 by {
      assert line[0] == '#' && line[1] == '#' && line[2] == ' ';
      assert line[1..][1..] == line[2..];
    }
    assert line[3..3 + |heading|] == heading;
    assert line[3 + |heading|] == '\n';
    assert AllSpace(line, 2, 3);
    assert AllSpace(line, 3 + |heading|, |line|);
  }

  /** A heading's own trailing space is matched: `Tasks ` is found on
      `## Tasks `. */
  lemma TrailingSpaceHeading()
    ensures IsHeadingFor("## Tasks \n", "Tasks ")
  {
    HeadingLineMatches("Tasks ");
    assert "## " + "Tasks " + "\n" == "## Tasks \n";
  }

  /** A heading's own leading space is matched: ` Tasks` is found on
      `##  Tasks`. */
  lemma LeadingSpaceHeading()
    ensures IsHeadingFor("##  Tasks\n", " Tasks")
  {
    HeadingLineMatches(" Tasks");
    assert "## " + " Tasks" + "\n" == "##  Tasks\n";
  }

  /** A heading's own trailing space is literal: `Tasks ` is not found on
      `## Tasks` followed by its line break. */
  lemma HeadingNeedsItsSpaces()
    ensures !IsHeadingFor("## Tasks\n", "Tasks ")
  {
    var line := "## Tasks\n";
    assert HashRun(line) == 2 by {
      assert line[1..][1..] == line[2..];
    }
    forall j | 2 < j && j + 6 <= |line| && AllSpace(line, 2, j) ensures line[j..j + 6] != "Tasks " {
      assert !IsSpace(line[3]);
      assert j == 3;
      assert line[j..j + 6][5] == '\n';
    }
  }

  /** Index of the first heading line for `heading` at or after line `k`,
      in document order (the regex `search` over the joined text). */
  function FindHeading(lines: seq<string>, heading: string, k: nat): (r: Option<nat>)
    requires k <= |lines|
    ensures r.Some? ==> k <= r.value < |lines| && IsHeadingFor(lines[r.value], heading)
    ensures r.Some? ==> forall j :: k <= j < r.value ==> !IsHeadingFor(lines[j], heading)
    ensures r.None? ==> forall j :: k <= j < |lines| ==> !IsHeadingFor(lines[j], heading)
    decreases |lines| - k
  {
    if k == |lines| then None
    else if IsHeadingFor(lines[k], heading) then Some(k)
    else FindHeading(lines, heading, k + 1)
  }

  /** Where `insert_task_in_file` puts the new line in an existing file:
      `lines.insert(p, ...)` for `top` and for a heading that is found,
      `lines.append(...)` for everything else. */
  function InsertIndex(lines: seq<string>, at: InsertPosition, heading: Option<string>): (p: nat)
    ensures p <= |lines|
  {
    if at == Top then 0
    else if at == AfterHeading && heading.Some? && heading.value != "" then
      match FindHeading(lines, heading.value, 0)
      case Some(i) => i + 1
      case None => |lines|
    else |lines|
  }

  /** `top` inserts first; any other place inside the file is right after
      the first heading line for the heading asked for. */
  lemma InsertIndexSpec(lines: seq<string>, at: InsertPosition, heading: Option<string>)
    ensures var p := InsertIndex(lines, at, heading);
      && (at == Top ==> p == 0)
      && (at != Top && p < |lines| ==>
        && at == AfterHeading && heading.Some? && 0 < p
        && IsHeadingFor(lines[p - 1], heading.value)
        && forall i :: 0 <= i < p - 1 ==> !IsHeadingFor(lines[i], heading.value))
  {
    if at == AfterHeading && heading.Some? && heading.value != "" {
      var f := FindHeading(lines, heading.value, 0);
      assert f.Some? ==> InsertIndex(lines, at, heading) == f.value + 1;
    }
  }

  /** `end` appends, `top` goes first, and `after_heading` falls back to
      appending when the heading is not given. */
  lemma InsertIndexPlain(lines: seq<string>, at: InsertPosition, heading: Option<string>)
    ensures at == End ==> InsertIndex(lines, at, heading) == |lines|
    ensures at == Top ==> InsertIndex(lines, at, heading) == 0
    ensures at == AfterHeading && (heading.None? || heading.value == "") ==>
      InsertIndex(lines, at, heading) == |lines|
  {
  }

  /** A heading that no line matches makes `after_heading` append. */
  lemma InsertIndexHeadingMissing(lines: seq<string>, heading: string)
    requires forall j :: 0 <= j < |lines| ==> !IsHeadingFor(lines[j], heading)
    ensures InsertIndex(lines, AfterHeading, Some(heading)) == |lines|
  {
  }

  /** When some line `j` is a heading for `heading`, the task goes right
      after the first such line, which is at or before `j`. */
  lemma InsertIndexHeadingFound(lines: seq<string>, heading: string, j: nat)
    requires heading != "" && j < |lines| && IsHeadingFor(lines[j], heading)
    ensures var p := InsertIndex(lines, AfterHeading, Some(heading));
      && 0 < p <= j + 1
      && IsHeadingFor(lines[p - 1], heading)
      && forall i :: 0 <= i < p - 1 ==> !IsHeadingFor(lines[i], heading)
  {
    FindHeadingFinds(lines, heading, 0, j);
    InsertIndexFound(lines, heading);
    var i := FindHeading(lines, heading, 0).value;
    assert lines[i + 1 - 1] == lines[i];
  }

  lemma InsertIndexFound(lines: seq<string>, heading: string)
    requires heading != "" && FindHeading(lines, heading, 0).Some?
    ensures InsertIndex(lines, AfterHeading, Some(heading)) == FindHeading(lines, heading, 0).value + 1
  {
  }

  /** A heading line at `j` is found, at `j` or before it. */
  lemma {:induction false} FindHeadingFinds(lines: seq<string>, heading: string, k: nat, j: nat)
    requires k <= j < |lines| && IsHeadingFor(lines[j], heading)
    ensures FindHeading(lines, heading, k).Some? && FindHeading(lines, heading, k).value <= j
    decreases j - k
  {
    if k < j && !IsHeadingFor(lines[k], heading) {
      FindHeadingFinds(lines, heading, k + 1, j);
    }
  }

  /** The list edit of `insert_task_in_file` on an existing file: the new
      lines and the 1-based line number it reports, which holds the task
      line in a list one line longer. */
  function InsertTaskLines(lines: seq<string>, taskLine: string, at: InsertPosition,
                           heading: Option<string>): (res: (seq<string>, int))
    ensures |res.0| == |lines| + 1
    ensures res.1 == InsertIndex(lines, at, heading) + 1
    ensures res.0[res.1 - 1] == taskLine + "\n"
  {
    var p := InsertIndex(lines, at, heading);
    (lines[..p] + [taskLine + "\n"] + lines[p..], p + 1)
  }

  /** The old lines before and after the task line, in their old order. */
  lemma InsertTaskLinesShape(lines: seq<string>, taskLine: string, at: InsertPosition,
                             heading: Option<string>)
    ensures var res := InsertTaskLines(lines, taskLine, at, heading);
      && res.0[..res.1 - 1] + res.0[res.1..] == lines
      && (forall j :: 0 <= j < res.1 - 1 ==> res.0[j] == lines[j])
      && (forall j :: res.1 <= j < |res.0| ==> res.0[j] == lines[j - 1])
  {
    SpliceParts(lines, InsertIndex(lines, at, heading), taskLine + "\n");
  }

  lemma SpliceParts(lines: seq<string>, p: nat, x: string)
    requires p <= |lines|
    ensures var r := lines[..p] + [x] + lines[p..];
      && |r| == |lines| + 1 && r[p] == x
      && r[..p] + r[p + 1..] == lines
      && (forall j :: 0 <= j < p ==> r[j] == lines[j])
      && (forall j :: p + 1 <= j < |r| ==> r[j] == lines[j - 1])
  {
    var r := lines[..p] + [x] + lines[p..];
    assert r[..p] == lines[..p];
    assert r[p + 1..] == lines[p..];
    assert lines[..p] + lines[p..] == lines;
  }

  /** `insert_task_in_file` as a whole, on the file's text; `None` is a
      file that does not exist yet and is created holding the one line. */
  function InsertTaskText(text: Option<string>, taskLine: string, at: InsertPosition,
                          heading: Option<string>): (string, int)
  {
    match text
    case None => (taskLine + "\n", 1)
    case Some(t) =>
      var (ls, n) := InsertTaskLines(SplitLines(t), taskLine, at, heading);
      (Join(ls), n)
  }

  /** A missing file becomes a one-line file holding the task, reported at
      line 1. */
  lemma InsertIntoMissingFile(taskLine: string, at: InsertPosition, heading: Option<string>)
    requires NoNewline(taskLine)
    ensures var (t, n) := InsertTaskText(None, taskLine, at, heading);
      n == 1 && SplitLines(t) == [taskLine + "\n"]
  {
    var x := taskLine + "\n";
    assert x[..|x| - 1] == taskLine;
    assert WellFormed([x]);
    JoinSplitLines([x]);
    assert [x][1..] == [];
    assert Join([x]) == x;
  }

  /** As written, appending to a file whose last line has no break glues
      the task onto that line: reading the file back finds no more lines
      than before, so the reported line number points past the end, and the
      last line now holds the old text followed by the task. */
  lemma AppendWithoutFinalNewlineMerges(lines: seq<string>, taskLine: string)
    requires WellFormed(lines) && lines != [] && !EndsWithNewline(lines[|lines| - 1])
    requires NoNewline(taskLine)
    ensures var (r, n) := InsertTaskLines(lines, taskLine, End, None);
      var reread := SplitLines(Join(r));
      && n == |lines| + 1
      && |reread| == |lines| < n
      && reread[|lines| - 1] == lines[|lines| - 1] + taskLine + "\n"
  {
    var last := lines[|lines| - 1];
    var x := taskLine + "\n";
    var merged := lines[..|lines| - 1] + [last + x];
    assert InsertTaskLines(lines, taskLine, End, None).0 == lines + [x];
    JoinAppend(lines[..|lines| - 1], last, x);
    assert lines[..|lines| - 1] + [last] == lines;
    assert WellFormed(merged) by {
      forall i | 0 <= i < |merged| ensures IsLine(merged[i]) {
        if i < |lines| - 1 {
          assert merged[i] == lines[i];
        } else {
          assert (last + x)[..|last + x| - 1] == last + taskLine;
          assert NoNewline(last);
        }
      }
      forall i | 0 <= i < |merged| - 1 ensures EndsWithNewline(merged[i]) {
        assert merged[i] == lines[i];
      }
    }
    JoinSplitLines(merged);
  }

  /** Gluing two strings onto the end of a list or onto its last element
      joins to the same text. */
  lemma {:induction false} JoinAppend(front: seq<string>, last: string, x: string)
    ensures Join(front + [last] + [x]) == Join(front + [last + x])
  {
    if front == [] {
      var a := [last] + [x];
      assert a[0] == last && a[1..] == [x];
      assert [x][1..] == [] && [last + x][1..] == [];
      assert Join([x]) == x;
      assert Join(a) == last + x;
      assert Join([last + x]) == last + x;
    } else {
      assert (front + [last] + [x])[1..] == front[1..] + [last] + [x];
      assert (front + [last + x])[1..] == front[1..] + [last + x];
      JoinAppend(front[1..], last, x);
    }
  }

  /** Put the missing break back on the last line before inserting. */
  function EnsureFinalNewline(lines: seq<string>): seq<string> {
    if lines != [] && !EndsWithNewline(lines[|lines| - 1])
    then lines[..|lines| - 1] + [lines[|lines| - 1] + "\n"]
    else lines
  }

  /** The corrected insertion: as written, but on lines whose last line
      ends in a break. */
  function InsertTaskLinesFixed(lines: seq<string>, taskLine: string, at: InsertPosition,
                                heading: Option<string>): (seq<string>, int)
  {
    InsertTaskLines(EnsureFinalNewline(lines), taskLine, at, heading)
  }

  /** Every line ends in its own break. */
  predicate AllTerminated(lines: seq<string>) {
    forall i :: 0 <= i < |lines| ==> IsLine(lines[i]) && EndsWithNewline(lines[i])
  }

  lemma EnsureFinalNewlineTerminates(lines: seq<string>)
    requires WellFormed(lines)
    ensures var e := EnsureFinalNewline(lines);
      && |e| == |lines|
      && AllTerminated(e)
      && forall i :: 0 <= i < |lines| ==> Chomp(e[i]) == Chomp(lines[i])
  {
    var e := EnsureFinalNewline(lines);
    forall i | 0 <= i < |lines|
      ensures IsLine(e[i]) && EndsWithNewline(e[i]) && Chomp(e[i]) == Chomp(lines[i])
    {
      if i == |lines| - 1 && !EndsWithNewline(lines[i]) {
        assert e[i] == lines[i] + "\n";
        assert e[i][..|e[i]| - 1] == lines[i];
      } else {
        assert e[i] == lines[i];
      }
    }
  }

  lemma SpliceTerminated(e: seq<string>, p: nat, x: string)
    requires AllTerminated(e) && p <= |e| && IsLine(x) && EndsWithNewline(x)
    ensures AllTerminated(e[..p] + [x] + e[p..])
    ensures WellFormed(e[..p] + [x] + e[p..])
  {
    var r := e[..p] + [x] + e[p..];
    forall i | 0 <= i < |r| ensures IsLine(r[i]) && EndsWithNewline(r[i]) {
      if i < p {
        assert r[i] == e[i];
      } else if i > p {
        assert r[i] == e[i - 1];
      }
    }
  }

  /** With the correction, reading the file back finds exactly one more
      line, the task at the reported line number, and every old line with
      its text unchanged and in its old order. */
  lemma InsertTaskLinesFixedRereads(lines: seq<string>, taskLine: string, at: InsertPosition,
                                    heading: Option<string>)
    requires WellFormed(lines) && NoNewline(taskLine)
    ensures var res := InsertTaskLinesFixed(lines, taskLine, at, heading);
      && SplitLines(Join(res.0)) == res.0
      && |res.0| == |lines| + 1
      && 1 <= res.1 <= |res.0|
      && res.0[res.1 - 1] == taskLine + "\n"
      && (forall j :: 0 <= j < res.1 - 1 ==> Chomp(res.0[j]) == Chomp(lines[j]))
      && (forall j :: res.1 <= j < |res.0| ==> Chomp(res.0[j]) == Chomp(lines[j - 1]))
  {
    var e := EnsureFinalNewline(lines);
    EnsureFinalNewlineTerminates(lines);
    var x := taskLine + "\n";
    assert x[..|x| - 1] == taskLine;
    var p := InsertIndex(e, at, heading);
    var r := e[..p] + [x] + e[p..];
    assert InsertTaskLinesFixed(lines, taskLine, at, heading) == (r, p + 1);
    SpliceRereads(e, p, x);
    SpliceChomps(lines, e, p, x);
  }

  /** Terminated lines with a terminated line spliced in read back as
      themselves. */
  lemma SpliceRereads(e: seq<string>, p: nat, x: string)
    requires AllTerminated(e) && p <= |e| && IsLine(x) && EndsWithNewline(x)
    ensures SplitLines(Join(e[..p] + [x] + e[p..])) == e[..p] + [x] + e[p..]
  {
    SpliceTerminated(e, p, x);
    JoinSplitLines(e[..p] + [x] + e[p..]);
  }

  /** Splicing into lines that match `lines` line by line keeps the match
      on both sides of the new line. */
  lemma SpliceChomps(lines: seq<string>, e: seq<string>, p: nat, x: string)
    requires |e| == |lines| && p <= |e|
    requires forall i :: 0 <= i < |lines| ==> Chomp(e[i]) == Chomp(lines[i])
    ensures var r := e[..p] + [x] + e[p..];
      && (forall j :: 0 <= j < p ==> Chomp(r[j]) == Chomp(lines[j]))
      && (forall j :: p + 1 <= j < |r| ==> Chomp(r[j]) == Chomp(lines[j - 1]))
  {
    SpliceParts(e, p, x);
  }

  /** A text that is empty or ends in a break: what is appended to it
      starts a line of its own. */
  predicate Terminated(text: string) {
    text == [] || EndsWithNewline(text)
  }

  lemma {:induction false} JoinSnoc(ls: seq<string>, x: string)
    ensures Join(ls + [x]) == Join(ls) + x
  {
    if ls == [] {
      assert [x][1..] == [];
      assert Join([x]) == x;
    } else {
      assert (ls + [x])[1..] == ls[1..] + [x];
      JoinSnoc(ls[1..], x);
    }
  }

  lemma LastOfAppend(a: string, b: string)
    requires b != []
    ensures (a + b)[|a + b| - 1] == b[|b| - 1]
  {
  }

  /** The last line of a terminated text ends in a break, so the correction
      leaves its lines alone. */
  lemma TerminatedNeedsNoFix(text: string)
    requires Terminated(text)
    ensures EnsureFinalNewline(SplitLines(text)) == SplitLines(text)
  {
    var ls := SplitLines(text);
    if ls != [] {
      SplitLinesJoin(text);
      var k := |ls| - 1;
      assert ls[..k] + [ls[k]] == ls;
      JoinSnoc(ls[..k], ls[k]);
      assert IsLine(ls[k]);
      LastOfAppend(Join(ls[..k]), ls[k]);
    }
  }

  /** A missing file, or a file whose text is terminated. */
  predicate Appendable(text: Option<string>) {
    text.Some? ==> Terminated(text.value)
  }

  /** The file read back after inserting `taskLine` at line `n`: one more
      line than before (none before for a missing file), the task line at
      `n`, and every old line unchanged and in its old order around it. */
  predicate InsertedAt(before: Option<string>, after: string, taskLine: string, n: int) {
    var a := SplitLines(after);
    && 1 <= n <= |a|
    && a[n - 1] == taskLine + "\n"
    && (before.Some? ==>
          var b := SplitLines(before.value);
          |a| == |b| + 1 && a[..n - 1] + a[n..] == b)
  }

  /** As written, on a missing file or one whose text is terminated, the
      task lands on a line of its own at the reported number. */
  lemma InsertTaskTextRereads(text: Option<string>, taskLine: string, at: InsertPosition,
                              heading: Option<string>)
    requires NoNewline(taskLine) && Appendable(text)
    ensures var ins := InsertTaskText(text, taskLine, at, heading);
      InsertedAt(text, ins.0, taskLine, ins.1)
  {
    if text.None? {
      InsertIntoMissingFile(taskLine, at, heading);
    } else {
      var lines := SplitLines(text.value);
      SplitLinesJoin(text.value);
      TerminatedNeedsNoFix(text.value);
      var res := InsertTaskLines(lines, taskLine, at, heading);
      assert InsertTaskLinesFixed(lines, taskLine, at, heading) == res;
      InsertTaskLinesFixedRereads(lines, taskLine, at, heading);
      InsertTaskLinesShape(lines, taskLine, at, heading);
      assert InsertTaskText(text, taskLine, at, heading) == (Join(res.0), res.1);
      assert SplitLines(Join(res.0)) == res.0;
    }
  }
}
