/** The tools that write task lines back into notes: `update_task_in_file`,
    `insert_task_in_file`, `create_task_fs_tool`, `toggle_task_status_fs_tool`
    and `update_task_metadata_fs_tool`. A vault is the text of each of its
    notes by relative path; a read that raises (a missing note) is the
    error the tools report, and nothing is written then. The tools write
    with `format_task_line` and insert with a plain append, as the source
    does; what the corrected formatter and insertion would give is stated
    by the `...Fixed` lemmas beside them. */
module TaskEdits {
  import opened Wrappers
  import opened Text
  import opened Dates
  import opened TaskCodec
  import opened TaskRoundTrip
  import opened Lines

  /** `lines[n - 1] = newLine + "\n"` on the lines of `text`, written back
      with `"".join(lines)`; `None` when there is no line `n`. */
  function WriteLine(text: string, n: int, newLine: string): (r: Option<string>)
    ensures r.None? <==> !(1 <= n <= |SplitLines(text)|)
  {
    match ReplaceLine(SplitLines(text), n, newLine + "\n")
    case None => None
    case Some(ls) => Some(Join(ls))
  }

  /** Rewriting one line by a line without breaks leaves every other line
      of the note as it was and puts the new line in its place. */
  lemma WriteLineRereads(text: string, n: int, newLine: string)
    requires 1 <= n <= |SplitLines(text)| && NoNewline(newLine)
    ensures var old_ := SplitLines(text);
      var ls := SplitLines(WriteLine(text, n, newLine).value);
      && |ls| == |old_|
      && ls[n - 1] == newLine + "\n"
      && forall i :: 0 <= i < |old_| && i != n - 1 ==> ls[i] == old_[i]
  {
    SplitLinesJoin(text);
    ReplaceLineRereads(SplitLines(text), n, newLine);
  }

  /** The task line `n` of the note at `path` holds, if the note exists, has
      such a line, and the line parses. */
  function TaskOnLine(files: map<string, string>, path: string, n: int): (r: Option<Task>)
    ensures r.Some? ==> path in files && 1 <= n <= |SplitLines(files[path])|
    ensures r.Some? ==> r.value.lineNumber == n && r.value.sourceFile == path
  {
    if path !in files then None
    else
      var lines := SplitLines(files[path]);
      if 1 <= n <= |lines| then ParseTaskLine(lines[n - 1], n, path) else None
  }

  // ----------------------------------------------------------------- toggle

  /** The task after `toggle_task_status_fs_tool`: the other status; a
      reopened task loses its done date, a completed one gets today's only
      when asked to and otherwise keeps what it had. */
  function Toggled(t: Task, addDoneDate: bool, today: CalendarDate): Task {
    if t.status == Incomplete then
      t.(status := Completed, doneDate := if addDoneDate then Some(today) else t.doneDate)
    else
      t.(status := Incomplete, doneDate := None)
  }

  /** Toggling changes the status and the done date and nothing else. */
  lemma ToggledChanges(t: Task, addDoneDate: bool, today: CalendarDate)
    ensures var r := Toggled(t, addDoneDate, today);
      && r.status != t.status
      && r == t.(status := r.status, doneDate := r.doneDate)
      && (r.status == Incomplete ==> r.doneDate.None?)
      && (r.status == Completed && addDoneDate ==> r.doneDate == Some(today))
  {
  }

  /** Toggling twice restores the status; an open task without a done date
      completed without one and reopened is the task it was. */
  lemma ToggleTwice(t: Task, a: bool, b: bool, today: CalendarDate, later: CalendarDate)
    ensures Toggled(Toggled(t, a, today), b, later).status == t.status
    ensures t.status == Incomplete && t.doneDate.None? ==> Toggled(Toggled(t, false, today), b, later) == t
  {
  }

  /** The line a toggle writes reads back as the toggled task, less the
      created date and the rule `format_task_line` writes behind a token the
      parser cuts first; unchanged exactly when nothing is written there. */
  lemma ToggleRereads(t: Task, addDoneDate: bool, today: CalendarDate)
    requires Writable(t)
    ensures var r := Toggled(t, addDoneDate, today);
      var back := ParseTaskLine(FormatTaskLine(r), t.lineNumber, t.sourceFile);
      && back == Some(AsWrittenReadBack(r))
      && (back == Some(r) <==> KeepsMetadata(r))
  {
    var r := Toggled(t, addDoneDate, today);
    assert Writable(r);
    AsWrittenRoundTrip(r);
  }

  /** With the corrected formatter, the toggled task reads back whole. */
  lemma ToggleRereadsFixed(t: Task, addDoneDate: bool, today: CalendarDate)
    requires Writable(t)
    ensures var r := Toggled(t, addDoneDate, today);
      ParseTaskLine(FormatTaskLineFixed(r), t.lineNumber, t.sourceFile) == Some(r)
  {
    FixedRoundTrip(Toggled(t, addDoneDate, today));
  }

  datatype ToggleResult = ToggleResult(newStatus: Status, doneDate: Option<CalendarDate>, updatedLine: string)

  // --------------------------------------------------------------- metadata

  /** The names the tools accept for a priority. */
  function PriorityNamed(s: string): Option<Priority> {
    if s == "highest" then Some(Highest)
    else if s == "high" then Some(High)
    else if s == "normal" then Some(Normal)
    else if s == "low" then Some(Low)
    else if s == "lowest" then Some(Lowest)
    else None
  }

  /** `value.strip().lower().startswith("every")` */
  predicate RecurrenceRule(v: string) {
    StartsWith(Lower(Strip(v)), "every")
  }

  /** A date argument that is set (not `None`, not empty) and that
      `strptime(value, "%Y-%m-%d")` rejects. */
  predicate DateInvalid(v: Option<string>) {
    v.GetOr("") != "" && ParseIsoDate(v.GetOr("")).None?
  }

  /** The date a date argument stands for: none for `None` or `""`. */
  function DateArg(v: Option<string>): Result<Option<CalendarDate>, string> {
    var s := v.GetOr("");
    if s == "" then Success(None)
    else match ParseIsoDate(s)
      case Some(d) => Success(Some(d))
      case None => Failure("time data '" + s + "' does not match format '%Y-%m-%d'")
  }

  /** The `updates` dict of `update_task_metadata_fs_tool`: for each key,
      `None` when the key is absent, otherwise the value, itself `None` or a
      string. */
  datatype Updates = Updates(
    priority: Option<Option<string>>,
    dueDate: Option<Option<string>>,
    scheduledDate: Option<Option<string>>,
    startDate: Option<Option<string>>,
    recurrence: Option<Option<string>>)

  /** A priority value is applied when it is `None` or a priority name. */
  predicate PriorityApplies(u: Updates) {
    u.priority.Some? && (u.priority.value.None? || PriorityNamed(u.priority.value.value).Some?)
  }

  /** A recurrence value is applied when it is `None` or a non-empty rule
      that starts with `every`. */
  predicate RecurrenceApplies(u: Updates) {
    u.recurrence.Some? && (u.recurrence.value.None? || (u.recurrence.value.value != "" && RecurrenceRule(u.recurrence.value.value)))
  }

  function PriorityStep(t: Task, u: Updates): (Task, seq<string>) {
    if !PriorityApplies(u) then (t, [])
    else (t.(priority := PriorityNamed(u.priority.value.GetOr("normal")).GetOr(Normal)), ["priority"])
  }

  function DateStep(acc: (Task, seq<string>), v: Option<Option<string>>, f: DateField): Result<(Task, seq<string>), string>
    requires f == Due || f == Scheduled || f == Start
  {
    if v.None? then Success(acc)
    else match DateArg(v.value)
      case Failure(e) => Failure(e)
      case Success(d) =>
        var t := acc.0;
        var name := if f == Due then "due_date" else if f == Scheduled then "scheduled_date" else "start_date";
        var t' := if f == Due then t.(dueDate := d) else if f == Scheduled then t.(scheduledDate := d) else t.(startDate := d);
        Success((t', acc.1 + [name]))
  }

  function RecurrenceStep(acc: (Task, seq<string>), u: Updates): (Task, seq<string>) {
    if !RecurrenceApplies(u) then acc
    else (acc.0.(recurrence := u.recurrence.value), acc.1 + ["recurrence"])
  }

  /** The task after the updates and the keys applied, in the order the
      tool applies them: priority, the three dates, recurrence. */
  function ApplyUpdates(t: Task, u: Updates): (r: Result<(Task, seq<string>), string>)
    ensures r.Failure? <==>
      (u.dueDate.Some? && DateInvalid(u.dueDate.value))
      || (u.scheduledDate.Some? && DateInvalid(u.scheduledDate.value))
      || (u.startDate.Some? && DateInvalid(u.startDate.value))
  {
    var a := PriorityStep(t, u);
    match DateStep(a, u.dueDate, Due)
    case Failure(e) => Failure(e)
    case Success(b) =>
      match DateStep(b, u.scheduledDate, Scheduled)
      case Failure(e) => Failure(e)
      case Success(c) =>
        match DateStep(c, u.startDate, Start)
        case Failure(e) => Failure(e)
        case Success(d) => Success(RecurrenceStep(d, u))
  }

  /** What one date step does: an absent key changes nothing, a present
      one sets the date it spells, or clears it, and is reported. */
  lemma DateStepSpec(acc: (Task, seq<string>), v: Option<Option<string>>, f: DateField)
    requires f == Due || f == Scheduled || f == Start
    requires DateStep(acc, v, f).Success?
    ensures var (r, changes) := DateStep(acc, v, f).value;
      var name := if f == Due then "due_date" else if f == Scheduled then "scheduled_date" else "start_date";
      var d := if v.Some? then ParseIsoDate(v.value.GetOr("")) else None;
      && changes == acc.1 + (if v.Some? then [name] else [])
      && r == (if v.None? then acc.0
               else if f == Due then acc.0.(dueDate := d)
               else if f == Scheduled then acc.0.(scheduledDate := d)
               else acc.0.(startDate := d))
  {
    assert ParseIsoDate("") == None;
  }

  /** The updates leave the content, status, done and created dates and
      tags alone. */
  lemma ApplyUpdatesKeeps(t: Task, u: Updates)
    requires ApplyUpdates(t, u).Success?
    ensures var r := ApplyUpdates(t, u).value.0;
      && r.content == t.content && r.status == t.status && r.tags == t.tags
      && r.doneDate == t.doneDate && r.createdDate == t.createdDate
      && r.lineNumber == t.lineNumber && r.sourceFile == t.sourceFile
  {
    var a := PriorityStep(t, u);
    var b := DateStep(a, u.dueDate, Due).value;
    var c := DateStep(b, u.scheduledDate, Scheduled).value;
    DateStepSpec(a, u.dueDate, Due);
    DateStepSpec(b, u.scheduledDate, Scheduled);
    DateStepSpec(c, u.startDate, Start);
  }

  /** A key that is absent leaves its field alone, a date key sets the
      date it spells or clears it, and a priority or rule that is applied
      replaces the old one. */
  lemma ApplyUpdatesFields(t: Task, u: Updates)
    requires ApplyUpdates(t, u).Success?
    ensures var r := ApplyUpdates(t, u).value.0;
      && r.priority == (if PriorityApplies(u) then PriorityNamed(u.priority.value.GetOr("normal")).value else t.priority)
      && r.dueDate == (if u.dueDate.Some? then ParseIsoDate(u.dueDate.value.GetOr("")) else t.dueDate)
      && r.scheduledDate == (if u.scheduledDate.Some? then ParseIsoDate(u.scheduledDate.value.GetOr("")) else t.scheduledDate)
      && r.startDate == (if u.startDate.Some? then ParseIsoDate(u.startDate.value.GetOr("")) else t.startDate)
      && r.recurrence == (if RecurrenceApplies(u) then u.recurrence.value else t.recurrence)
  {
    var a := PriorityStep(t, u);
    var b := DateStep(a, u.dueDate, Due).value;
    var c := DateStep(b, u.scheduledDate, Scheduled).value;
    DateStepSpec(a, u.dueDate, Due);
    DateStepSpec(b, u.scheduledDate, Scheduled);
    DateStepSpec(c, u.startDate, Start);
  }

  /** The keys reported are those applied, in the order of application. */
  lemma ApplyUpdatesChanges(t: Task, u: Updates)
    requires ApplyUpdates(t, u).Success?
    ensures ApplyUpdates(t, u).value.1 ==
      (if PriorityApplies(u) then ["priority"] else [])
      + (if u.dueDate.Some? then ["due_date"] else [])
      + (if u.scheduledDate.Some? then ["scheduled_date"] else [])
      + (if u.startDate.Some? then ["start_date"] else [])
      + (if RecurrenceApplies(u) then ["recurrence"] else [])
  {
    var a := PriorityStep(t, u);
    var b := DateStep(a, u.dueDate, Due).value;
    var c := DateStep(b, u.scheduledDate, Scheduled).value;
    DateStepSpec(a, u.dueDate, Due);
    DateStepSpec(b, u.scheduledDate, Scheduled);
    DateStepSpec(c, u.startDate, Start);
  }

  /** The line an update writes reads back as the updated task, less the
      created date and the rule written behind a token the parser cuts
      first; unchanged exactly when nothing is written there. */
  lemma UpdateRereads(t: Task, u: Updates)
    requires ApplyUpdates(t, u).Success? && Writable(ApplyUpdates(t, u).value.0)
    ensures var r := ApplyUpdates(t, u).value.0;
      var back := ParseTaskLine(FormatTaskLine(r), t.lineNumber, t.sourceFile);
      && back == Some(AsWrittenReadBack(r))
      && (back == Some(r) <==> KeepsMetadata(r))
  {
    var r := ApplyUpdates(t, u).value.0;
    ApplyUpdatesKeeps(t, u);
    AsWrittenRoundTrip(r);
    AsWrittenRoundTripIff(r);
  }

  /** With the corrected formatter, an update the line can carry reads back
      whole. */
  lemma UpdateRereadsFixed(t: Task, u: Updates)
    requires ApplyUpdates(t, u).Success? && Writable(ApplyUpdates(t, u).value.0)
    ensures var r := ApplyUpdates(t, u).value.0;
      ParseTaskLine(FormatTaskLineFixed(r), t.lineNumber, t.sourceFile) == Some(r)
  {
    ApplyUpdatesKeeps(t, u);
    FixedRoundTrip(ApplyUpdates(t, u).value.0);
  }

  // ----------------------------------------------------------------- create

  /** The task `create_task_fs_tool` builds, or the `ValueError` it raises
      for a date `strptime` rejects or a rule not starting with `every`. */
  function NewTask(path: string, content: string, priority: Option<Priority>, due: Option<string>,
                   scheduled: Option<string>, start: Option<string>, recurrence: Option<string>): (r: Result<Task, string>)
    ensures r.Failure? <==> DateInvalid(due) || DateInvalid(scheduled) || DateInvalid(start)
                            || (recurrence.GetOr("") != "" && !RecurrenceRule(recurrence.GetOr("")))
  {
    match (DateArg(due), DateArg(scheduled), DateArg(start))
    case (Failure(e), _, _) => Failure(e)
    case (_, Failure(e), _) => Failure(e)
    case (_, _, Failure(e)) => Failure(e)
    case (Success(d), Success(s), Success(a)) =>
      if recurrence.GetOr("") != "" && !RecurrenceRule(recurrence.GetOr("")) then
        Failure("Recurrence pattern must start with 'every'")
      else
        Success(Task(content, Incomplete, priority.GetOr(Normal), d, s, a, None, None, recurrence, 0, path, []))
  }

  /** A new task is open, has exactly the given content, priority (normal
      when none), dates and rule, and no done date, created date or tags. */
  lemma NewTaskSpec(path: string, content: string, priority: Option<Priority>, due: Option<string>,
                    scheduled: Option<string>, start: Option<string>, recurrence: Option<string>)
    requires NewTask(path, content, priority, due, scheduled, start, recurrence).Success?
    ensures var t := NewTask(path, content, priority, due, scheduled, start, recurrence).value;
      && t.status == Incomplete && t.content == content && t.sourceFile == path
      && t.priority == (if priority.Some? then priority.value else Normal)
      && t.dueDate == ParseIsoDate(due.GetOr("")) && t.scheduledDate == ParseIsoDate(scheduled.GetOr(""))
      && t.startDate == ParseIsoDate(start.GetOr(""))
      && t.recurrence == recurrence
      && t.doneDate.None? && t.createdDate.None? && t.tags == []
  {
    assert ParseIsoDate("") == None;
  }

  /** The text of the note at `path`, `None` when there is no such note. */
  function TextAt(files: map<string, string>, path: string): (r: Option<string>)
    ensures r.Some? <==> path in files
    ensures r.Some? ==> r.value == files[path]
  {
    if path in files then Some(files[path]) else None
  }

  /** The vault the tools read and write. */
  class Vault {
    var files: map<string, string>

    constructor(files0: map<string, string>)
      ensures files == files0
    {
      files := files0;
    }

    /** `update_task_in_file`: the line is replaced by the new one,
        right-stripped and ended by a break; `false`, and nothing written,
        for a missing note or a line number outside it. */
    method UpdateTaskInFile(path: string, n: int, newLine: string) returns (ok: bool)
      modifies this
      ensures ok <==> path in old(files) && 1 <= n <= |SplitLines(old(files)[path])|
      ensures ok ==> files == old(files)[path := WriteLine(old(files)[path], n, RStrip(newLine)).value]
      ensures !ok ==> files == old(files)
      ensures ok && NoNewline(newLine) ==>
        var before := SplitLines(old(files)[path]);
        var after := SplitLines(files[path]);
        && |after| == |before|
        && after[n - 1] == RStrip(newLine) + "\n"
        && forall i :: 0 <= i < |before| && i != n - 1 ==> after[i] == before[i]
    {
      if path !in files {
        return false;
      }
      var text := files[path];
      var written := WriteLine(text, n, RStrip(newLine));
      if written.None? {
        return false;
      }
      if NoNewline(newLine) {
        var r := RStrip(newLine);
        assert NoNewline(r) by {
          forall j | 0 <= j < |r| ensures r[j] != '\n' {
            assert r[j] == newLine[j];
          }
        }
        WriteLineRereads(text, n, r);
      }
      files := files[path := written.value];
      ok := true;
    }

    /** `insert_task_in_file`: a missing note is created holding the task
        line, reported at line 1; otherwise the line goes at the end, at the
        top, or after the first matching heading (at the end when there is
        none), and its 1-based number is reported. */
    method InsertTaskInFile(path: string, taskLine: string, at: InsertPosition, heading: Option<string>)
      returns (n: int)
      modifies this
      ensures var ins := InsertTaskText(TextAt(old(files), path), taskLine, at, heading);
        files == old(files)[path := ins.0] && n == ins.1
      ensures NoNewline(taskLine) && Appendable(TextAt(old(files), path)) ==>
        InsertedAt(TextAt(old(files), path), files[path], taskLine, n)
    {
      var text := TextAt(files, path);
      var (written, m) := InsertTaskText(text, taskLine, at, heading);
      if NoNewline(taskLine) && Appendable(text) {
        InsertTaskTextRereads(text, taskLine, at, heading);
      }
      files := files[path := written];
      n := m;
    }

    /** `create_task_fs_tool`: build the task, format it with
        `format_task_line`, insert it. */
    method CreateTask(path: string, content: string, priority: Option<Priority>, due: Option<string>,
                      scheduled: Option<string>, start: Option<string>, recurrence: Option<string>,
                      at: InsertPosition, heading: Option<string>) returns (r: Result<(string, int), string>)
      modifies this
      ensures var t := NewTask(path, content, priority, due, scheduled, start, recurrence);
        && (r.Failure? <==> t.Failure?)
        && (r.Failure? ==> files == old(files))
        && (r.Success? ==>
              var ins := InsertTaskText(TextAt(old(files), path), FormatTaskLine(t.value), at, heading);
              r.value == (FormatTaskLine(t.value), ins.1) && files == old(files)[path := ins.0])
      ensures r.Success? && NoNewline(r.value.0) && Appendable(TextAt(old(files), path)) ==>
        InsertedAt(TextAt(old(files), path), files[path], r.value.0, r.value.1)
    {
      var t := NewTask(path, content, priority, due, scheduled, start, recurrence);
      if t.Failure? {
        return Failure(t.error);
      }
      var line := FormatTaskLine(t.value);
      ghost var before := files;
      var n := InsertTaskInFile(path, line, at, heading);
      assert files == before[path := InsertTaskText(TextAt(before, path), line, at, heading).0];
      r := Success((line, n));
    }

    /** `toggle_task_status_fs_tool`: the task on line `n` is toggled and
        its line rewritten; a missing note, a line outside the note or a
        line that is not a task is an error and nothing is written. */
    method ToggleTaskStatus(path: string, n: int, addDoneDate: bool, today: CalendarDate)
      returns (r: Result<ToggleResult, string>)
      modifies this
      ensures r.Success? <==> TaskOnLine(old(files), path, n).Some?
      ensures r.Success? ==>
        var t := Toggled(TaskOnLine(old(files), path, n).value, addDoneDate, today);
        && r.value == ToggleResult(t.status, t.doneDate, FormatTaskLine(t))
        && files == old(files)[path := WriteLine(old(files)[path], n, FormatTaskLine(t)).value]
      ensures r.Success? && Writable(TaskOnLine(old(files), path, n).value) ==>
        var t := Toggled(TaskOnLine(old(files), path, n).value, addDoneDate, today);
        ParseTaskLine(r.value.updatedLine, n, path) == Some(AsWrittenReadBack(t))
      ensures r.Failure? ==> files == old(files)
    {
      if path !in files {
        return Failure("No such file or directory: " + path);
      }
      var lines := SplitLines(files[path]);
      if n < 1 || n > |lines| {
        return Failure("Line " + IntToString(n) + " out of range (file has " + IntToString(|lines|) + " lines)");
      }
      var task := ParseTaskLine(lines[n - 1], n, path);
      if task.None? {
        return Failure("Line is not a task");
      }
      var t := Toggled(task.value, addDoneDate, today);
      var newLine := FormatTaskLine(t);
      if Writable(task.value) {
        ToggleRereads(task.value, addDoneDate, today);
      }
      files := files[path := WriteLine(files[path], n, newLine).value];
      r := Success(ToggleResult(t.status, t.doneDate, newLine));
    }

    /** `update_task_metadata_fs_tool`: the updates are applied to the task
        on line `n` and its line rewritten, reporting the keys applied; a
        date that does not parse is an error like a missing task, and
        nothing is written. */
    method UpdateTaskMetadata(path: string, n: int, u: Updates) returns (r: Result<(string, seq<string>), string>)
      modifies this
      ensures r.Success? <==> TaskOnLine(old(files), path, n).Some? && ApplyUpdates(TaskOnLine(old(files), path, n).value, u).Success?
      ensures r.Success? ==>
        var (t, changes) := ApplyUpdates(TaskOnLine(old(files), path, n).value, u).value;
        && r.value == (FormatTaskLine(t), changes)
        && files == old(files)[path := WriteLine(old(files)[path], n, FormatTaskLine(t)).value]
      ensures r.Success? && Writable(ApplyUpdates(TaskOnLine(old(files), path, n).value, u).value.0) ==>
        var t := ApplyUpdates(TaskOnLine(old(files), path, n).value, u).value.0;
        ParseTaskLine(r.value.0, n, path) == Some(AsWrittenReadBack(t))
      ensures r.Failure? ==> files == old(files)
    {
      if path !in files {
        return Failure("No such file or directory: " + path);
      }
      var lines := SplitLines(files[path]);
      if n < 1 || n > |lines| {
        return Failure("Line " + IntToString(n) + " out of range");
      }
      var task := ParseTaskLine(lines[n - 1], n, path);
      if task.None? {
        return Failure("Line is not a task");
      }
      var updated := ApplyUpdates(task.value, u);
      if updated.Failure? {
        return Failure(updated.error);
      }
      var (t, changes) := updated.value;
      var newLine := FormatTaskLine(t);
      if Writable(t) {
        UpdateRereads(task.value, u);
      }
      files := files[path := WriteLine(files[path], n, newLine).value];
      r := Success((newLine, changes));
    }
  }
}
