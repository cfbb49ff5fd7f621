# Obsidian task and Dataview tools in Dafny

This project models the filesystem task tools of an Obsidian MCP server, plus its Dataview query helpers, and proves properties of the model.

The task tools read and write Markdown task lines in the format of the Obsidian Tasks plugin:

```
- [ ] Water plants ⏫ 🛫 2025-02-20 📅 2025-03-01 🔁 every week
```

The tool layer does the following:

- It reads such a line into a task record. The record holds content, status, priority, five dates, a recurrence rule, tags and the line's place.
- It writes a task record back out as a line.
- It scans a vault's notes for tasks.
- It filters the tasks by status, priority, date bounds, date windows around today, recurrence and tag.
- It sorts them by due date, priority, file or line.
- It cuts the result to a limit.
- It counts and groups them for statistics.
- It edits notes in place: replacing one line, inserting a new task, toggling a task's status, and updating a task's metadata.

The Dataview helpers build the text of `TABLE` queries, check a query before it is sent, and build the queries of the "list by tag" and "list by folder" tools.

Modules, one per file:

| module | file | what it holds |
|---|---|---|
| `Wrappers` | wrappers.dfy | `Option` and `Result` |
| `Text` | text.dfy | Python's `strip`/`rstrip`, `upper`/`lower`, `" ".join`, `str(int)` and string order |
| `Dates` | dates.dfy | calendar dates, `strptime`/`strftime` with `%Y-%m-%d`, and `toordinal` |
| `TaskCodec` | task_codec.dfy | the task record, the emoji tables, `parse_task_line` and `format_task_line` |
| `TaskRoundTrip` | task_roundtrip.dfy | what reading back a formatted line gives, with the formatter as written and with the corrected one |
| `Lines` | lines.dfy | `splitlines(keepends=True)` and `"".join`, line replacement, and the insertion of `insert_task_in_file` |
| `Sorting` | sorting.dfy | Python's stable `sorted(key=…, reverse=…)` |
| `TaskQuery` | task_query.dfy | `scan_vault_for_tasks`, `filter_tasks`, `sort_tasks` and the core of `search_tasks_fs_tool` |
| `TaskStats` | task_stats.dfy | `get_task_statistics_fs_tool` |
| `TaskEdits` | task_edits.dfy | `update_task_in_file`, `insert_task_in_file`, and the create, toggle and update tools, over a `Vault` class whose state is the text of every note |
| `Dql` | dql.dfy | `validate_dql_query`, `build_dql_list_query`, `build_dql_table_query`, and the query text of the execute, tag and folder tools |

How the outside world becomes input:

- Today's date is a parameter.
- A vault to scan is a sequence of (relative path, lines) pairs.
- A vault to edit is a map from relative path to file text.
- Reading a missing file is an error result.
- The filter dates of `search_tasks_fs_tool` arrive already parsed.

## Model

| member | source | states |
|---|---|---|
| Text.StripSpec | src/tools/tasks.py:53 | `strip()` returns one contiguous slice of the string that neither starts nor ends with whitespace, and everything cut from either end is whitespace |
| Text.Strip | src/tools/tasks.py:53 | `strip()` neither starts nor ends with whitespace |
| Text.RStrip | src/tools/tasks.py:338 | `rstrip()` returns a prefix that does not end in whitespace, and everything it drops is whitespace |
| Text.Upper | src/tools/dataview_api.py:70 | `upper()` maps each character by ASCII case and keeps the length |
| Text.Lower | src/tools/tasks.py:540 | `lower()` maps each character by ASCII case and keeps the length |
| Text.NatToStringRoundTrip | src/tools/dataview_api.py:112 | the decimal text of a number in `LIMIT {limit}` reads back as that number |
| Text.SpaceJoinAppend | src/tools/tasks.py:159 | `" ".join` of two concatenated lists is the two joins with one space between them |
| Text.StrLeTotal | src/tools/tasks.py:310 | string order, used to sort by file, is total |
| Text.StrLeTransitive | src/tools/tasks.py:310 | string order is transitive |
| Text.StrLeAntisymmetric | src/tools/tasks.py:310 | string order is antisymmetric |
| Dates.ParseIsoDate | src/tools/tasks.py:78 | `strptime(s, "%Y-%m-%d")` succeeds exactly on `DDDD-DD-DD` text naming a real date in years 1..9999, and yields that date |
| Dates.FormatIsoDate | src/tools/tasks.py:145-153 | `strftime('%Y-%m-%d')` writes `DDDD-DD-DD` |
| Dates.ParseFormatIsoDate | src/tools/tasks.py:145-153 | a written date reads back as the same date |
| Dates.FormatParseIsoDate | src/tools/tasks.py:78 | a date text that parses is written back exactly as it was |
| Dates.OrdinalOrder | src/tools/tasks.py:243-249 | date comparison agrees with ordinal comparison, which is what `timedelta` arithmetic counts in |
| Dates.DateLeTotal | src/tools/tasks.py:300 | the date order used to sort by due date is total |
| Dates.DateLeTransitive | src/tools/tasks.py:300 | the date order is transitive |
| TaskCodec.PriorityMapsInverse | src/tools/tasks.py:30-38 | `EMOJI_PRIORITY_MAP` inverts `PRIORITY_EMOJI_MAP`; "normal" has no emoji, and every emoji names a non-normal priority |
| TaskCodec.PriorityEmojiKeys | src/tools/tasks.py:85-89 | the priority token matched is exactly a key of the reverse map, so the `"normal"` fallback of `.get` never fires |
| TaskCodec.MatchCheckbox | src/tools/tasks.py:53-58 | the checkbox matches exactly when the stripped line is `- [`, a marker (` `, `x` or `X`), `]`, and then either the end or a whitespace character. The marker is group 1, and group 2 is the text after that whitespace character |
| TaskCodec.FindDateToken | src/tools/tasks.py:75 | `pattern.search` finds the leftmost date token and nothing before it |
| TaskCodec.PeelDateSpec | src/tools/tasks.py:75-83 | `PeelDate`, one date step: a date token found gives the date its ten characters parse to, and the text before it right-stripped. An unparsable date leaves the text as it was |
| TaskCodec.PeelDateAbsent | src/tools/tasks.py:75-76 | text without the emoji yields no date and stays as it was |
| TaskCodec.PeelPriorityRest | src/tools/tasks.py:85-92 | `PeelPriority`: the priority is normal exactly when no priority emoji occurs. The rest is a prefix of the text and stays stripped |
| TaskCodec.PeelRecurrenceRest | src/tools/tasks.py:94-98 | `PeelRecurrence`: a recurrence is found exactly when 🔁 occurs. The rule is stripped, and the rest is a prefix of the text |
| TaskCodec.TagsFrom | src/tools/tasks.py:100-101 | each tag found is non-empty, made of tag characters, and occurs after a `#` in the text |
| TaskCodec.TagsFromComplete | src/tools/tasks.py:101 | `finditer` misses no tag: every `#tag` that begins in the text is in the list |
| TaskCodec.TagsFromFirst | src/tools/tasks.py:101 | the tags come left to right: the first is the tag at the first place a tag begins, and the rest are read after it |
| TaskCodec.TagsFromNone | src/tools/tasks.py:101 | text where no tag begins has no tags |
| TaskCodec.ParseBody | src/tools/tasks.py:64-119 | the metadata steps keep the caller's status, line number and file. From stripped text they leave a stripped content that is a prefix of it, with the tags of that content, and a stripped rule |
| TaskCodec.ParseTaskLine | src/tools/tasks.py:41-119 | no task exactly when the checkbox does not match; the status is completed exactly for `x`/`X`; the content is a stripped prefix of the checkbox text; the tags are those of the content; the line number and file are the given ones |
| TaskCodec.FormatTaskLine | src/tools/tasks.py:122-159 | the line starts with the checkbox and a space, and starts with `- [x] ` exactly when the task is completed |
| TaskCodec.MetadataTokensSpec | src/tools/tasks.py:133-156 | the tokens after the content come in the order priority, 🛫, ⏳, 📅, ✅, ➕, 🔁. A token is written exactly when the task has a non-normal priority, the date, or a non-empty rule, and it carries that value |
| TaskRoundTrip.FormatTaskLineEmoji | src/tools/tasks.py:133-156 | on the written line, a priority emoji occurs exactly when it is the emoji of the task's priority, so normal priority writes none. A date's emoji occurs exactly when that date is set, and 🔁 exactly when there is a rule |
| TaskRoundTrip.FormatTwoTokens | src/tools/tasks.py:157-159 | a task with two tokens is written as `checkbox content token token`, separated by single spaces |
| TaskRoundTrip.HighestDueLine | src/tools/tasks.py:122-159 | an open task with highest priority and a due date is written as `- [ ] content ⏫ 📅 YYYY-MM-DD`, and that line reads back as the task |
| TaskRoundTrip.BuyMilkExample | src/tools/tasks.py:122-159 | the task "Buy milk", highest priority, due 2025-03-01, is written `- [ ] Buy milk ⏫ 📅 2025-03-01` and reads back unchanged |
| TaskRoundTrip.AsWrittenRoundTrip | src/tools/tasks.py:41-159 | reading back a line written by `format_task_line` gives the task, minus its creation date when a start, scheduled, due or done date is present, and minus its recurrence when any other date or a non-normal priority is present |
| TaskRoundTrip.AsWrittenRoundTripIff | src/tools/tasks.py:122-159 | a written task reads back unchanged exactly when its creation date, if any, comes with no other date, and its recurrence, if any, comes with no date and normal priority |
| TaskRoundTrip.FormatTaskLineFixed | src/tools/tasks.py:122-159 | the corrected formatter also starts with the checkbox and a space |
| TaskRoundTrip.FixedRoundTrip | src/tools/tasks.py:41-159 | every writable task reads back unchanged from the line the corrected formatter writes |
| Lines.FirstNewlineSpec | src/tools/tasks.py:332 | the line break found is the first one |
| Lines.SplitLinesJoin | src/tools/tasks.py:332 | `"".join(text.splitlines(keepends=True)) == text`, and every piece but the last ends in its only newline |
| Lines.JoinSplitLines | src/tools/tasks.py:341 | splitting the join of well-formed lines gives back those lines |
| Lines.ReplaceLine | src/tools/tasks.py:334-338 | no result exactly when the line number is out of range; otherwise line `n` is the new line and every other line stays |
| Lines.ReplaceLineRereads | src/tools/tasks.py:334-341 | after the write, the file reads back with the same number of lines, the new line at `n` and the rest unchanged |
| Lines.FindHeading | src/tools/tasks.py:385-389 | the heading search finds the first matching heading line, or reports that none matches |
| Lines.HeadingLineMatches | src/tools/tasks.py:387 | `^#+\s+{re.escape(heading)}\s*$` matches `## ` + heading + line break, for any heading |
| Lines.TrailingSpaceHeading | src/tools/tasks.py:387 | the heading is matched with its own trailing space: `Tasks ` is found on `## Tasks ` |
| Lines.LeadingSpaceHeading | src/tools/tasks.py:387 | the heading is matched with its own leading space: ` Tasks` is found on `##  Tasks` |
| Lines.HeadingNeedsItsSpaces | src/tools/tasks.py:387 | a heading's own space is literal: `Tasks ` is not found on `## Tasks` followed by a line break |
| Lines.InsertIndexSpec | src/tools/tasks.py:377-407 | `top` inserts at index 0. With `after_heading`, an index inside the file comes right after the first heading line that matches |
| Lines.InsertIndexPlain | src/tools/tasks.py:377-407 | `end` inserts after the last line, and `top` before the first; `after_heading` without a heading falls back to the end |
| Lines.InsertIndexHeadingMissing | src/tools/tasks.py:396-399 | a heading that is not there falls back to the end |
| Lines.InsertIndexHeadingFound | src/tools/tasks.py:391-395 | the task goes right after the first matching heading |
| Lines.InsertTaskLines | src/tools/tasks.py:375-409 | as written: one element is added, `task_line + "\n"` at the reported 1-based number |
| Lines.InsertTaskLinesShape | src/tools/tasks.py:377-407 | one line is added, `task_line + "\n"` at the reported 1-based number, and the old lines keep their order around it |
| Lines.InsertIntoMissingFile | src/tools/tasks.py:369-373 | a missing file is created holding just the task line, reported as line 1 |
| Lines.TerminatedNeedsNoFix | src/tools/tasks.py:375-379 | when the file is empty or ends in a newline, terminating the last line changes nothing, so the source's append is then the corrected one |
| Lines.InsertTaskTextRereads | src/tools/tasks.py:369-409 | as written, for a missing note or one that is empty or ends in a newline: the file reads back with the task at the reported line, and the old lines in order around it |
| Lines.AppendWithoutFinalNewlineMerges | src/tools/tasks.py:377-379 | as written: appending to a file whose last line has no newline glues the task onto that line, and the reported number is past the end (Finding A) |
| Lines.EnsureFinalNewlineTerminates | src/tools/tasks.py:375 | corrected: terminating the last line changes no line's text and leaves every line terminated |
| Lines.InsertTaskLinesFixedRereads | src/tools/tasks.py:375-409 | corrected: after an insertion, the file reads back with one more line, the task at the reported number, and every other line in order with its text unchanged |
| Sorting.SortBy | src/tools/tasks.py:300 | `sorted(key=…, reverse=…)` is a permutation, is sorted by the key, and keeps equal keys in their original order |
| Sorting.InsertSorted | src/tools/tasks.py:307 | one step of the stable sort keeps the sequence sorted |
| TaskQuery.OrdinalRange | src/tools/tasks.py:243 | every date lies in ordinals 1..3652059, and 3652059 is `date.max` |
| TaskQuery.SelectCount | src/tools/tasks.py:224-276 | the list comprehensions keep each occurrence of a task exactly when every criterion holds for it |
| TaskQuery.ChainIsSelect | src/tools/tasks.py:224-276 | filtering criterion after criterion equals one pass with all of them |
| TaskQuery.SelectAppend | src/tools/tasks.py:224-276 | filtering distributes over concatenation, so the order is kept |
| TaskQuery.DueCriteriaMeaning | src/tools/tasks.py:236-249 | the due-date criteria hold exactly when the due date exists and meets every bound given (strict before/after, window from today to today+N inclusive) |
| TaskQuery.ScheduledCriteriaMeaning | src/tools/tasks.py:251-264 | the same for the scheduled date |
| TaskQuery.CriteriaMeaning | src/tools/tasks.py:228-274 | the criteria built from the filter arguments hold exactly when the task meets the reference reading of every argument |
| TaskQuery.FilterTasks | src/tools/tasks.py:194-276 | the filter fails exactly when a `within_days` window is given and today + N leaves the date range (`OverflowError`) |
| TaskQuery.FilterTasksKeeps | src/tools/tasks.py:194-276 | the filtered list holds each task as often as the input does if it meets the filters, and otherwise not at all |
| TaskQuery.FilterTasksOrder | src/tools/tasks.py:194-276 | filtering keeps the input order |
| TaskQuery.KeyLtTotalOrder | src/tools/tasks.py:296-313 | the sort keys (dates, priority ranks, file names, (file, line) pairs) are compared by a strict total order |
| TaskQuery.PriorityRankingIndex | src/tools/tasks.py:304-307 | `priority_order.index(p)` is the urgency rank ascending and its mirror image descending |
| TaskQuery.SortTasks | src/tools/tasks.py:279-315 | every sort is a permutation of its input |
| TaskQuery.DatedUndated | src/tools/tasks.py:298-299 | the tasks with and without a due date together are the input |
| TaskQuery.SortByDueAscending | src/tools/tasks.py:296-301 | ascending: dated tasks come first in date order, equal dates stable, then the undated tasks in input order |
| TaskQuery.SortByDueDescending | src/tools/tasks.py:296-301 | descending: undated tasks come first in input order, then the dated tasks latest first, equal dates stable |
| TaskQuery.SortByPriorityOrder | src/tools/tasks.py:303-307 | sorted by urgency (highest first ascending, lowest first descending), stable |
| TaskQuery.SortByFileOrder | src/tools/tasks.py:309-310 | sorted by file name in the chosen direction, stable |
| TaskQuery.SortByLineOrder | src/tools/tasks.py:312-313 | sorted by (file, line) in the chosen direction, stable |
| TaskQuery.LineTasks | src/tools/tasks.py:183-186 | a line yields at most one task, carrying the file and the line number |
| TaskQuery.ScanLinesMembers | src/tools/tasks.py:183-186 | a task is found in a note exactly when some line of the note parses to it |
| TaskQuery.ScanLinesPlaces | src/tools/tasks.py:183-186 | every task found carries the note's path and a line number within the note |
| TaskQuery.ScanLinesOrder | src/tools/tasks.py:183-186 | the tasks of a note come in strictly increasing line order |
| TaskQuery.ScanVaultMembers | src/tools/tasks.py:162-191 | `scan_vault_for_tasks`: a task is found in the vault exactly when some line of some note parses to it |
| TaskQuery.Take | src/tools/tasks.py:471 | `s[:limit]` is a prefix of `s` |
| TaskQuery.SearchTasksSpec | src/tools/tasks.py:464-471 | `SearchTasks`: the search fails exactly when the filter does. Otherwise `total_found` counts the matches, the result is a prefix of the sorted matches and only holds tasks of the vault that meet the filters. For a limit ≥ 0 it has min(limit, total) tasks, and `truncated` means something was cut. A negative limit drops that many from the end and always sets `truncated` |
| TaskStats.ScopeTasks | src/tools/tasks.py:758-773 | note scope without a path, or with a missing note, is an error; note scope scans that note; vault scope scans the vault |
| TaskStats.CountTasks | src/tools/tasks.py:776-796 | the counts fail exactly when today + 7 days overflows while some task is due today or later; otherwise `total_tasks` is the number of tasks and `by_priority` has the five priority keys |
| TaskStats.StatusCountsAdd | src/tools/tasks.py:777-779 | incomplete plus completed is the total |
| TaskStats.PriorityCountsAdd | src/tools/tasks.py:781-787 | the five priority counts add up to the total |
| TaskStats.DueCountsBounded | src/tools/tasks.py:789-794 | overdue plus upcoming is at most the incomplete count |
| TaskStats.CountTasksConsistent | src/tools/tasks.py:776-796 | the counts returned obey those three sums, and recurring ≤ total |
| TaskStats.OverdueMeaning | src/tools/tasks.py:790 | a task counts as overdue exactly when it is incomplete and due before today |
| TaskStats.UpcomingMeaning | src/tools/tasks.py:791-794 | a task counts as upcoming exactly when it is incomplete and due between today and today+7 inclusive |
| TaskStats.RecurringMeaning | src/tools/tasks.py:795 | a task counts as recurring exactly when it has a non-empty rule |
| TaskStats.Keys | src/tools/tasks.py:810-818 | one group key per task, in task order: the priority, status or file of that task, as `group_by` asks |
| TaskStats.BumpGet | src/tools/tasks.py:820 | `grouped_data.get(key, 0) + 1` raises that key's count by one and no other |
| TaskStats.BumpKeySet | src/tools/tasks.py:820 | bumping a key adds it to the keys and adds no other |
| TaskStats.BumpDistinct | src/tools/tasks.py:820 | bumping keeps every key in the dict once |
| TaskStats.TallySpec | src/tools/tasks.py:808-820 | `Tally`: the grouped dict has each key once; its keys are exactly the keys met; each count is how often its key occurs; the counts add up to the number of tasks |
| TaskStats.TallyCounts | src/tools/tasks.py:808-820 | each entry's count is how often its key occurs |
| TaskStats.GroupCounts | src/tools/tasks.py:808-820 | the grouping loop computes that dict, in first-seen order |
| TaskStats.RankGroups | src/tools/tasks.py:822-825 | ranking the groups is a permutation of them |
| TaskStats.RankGroupsOrder | src/tools/tasks.py:822-825 | ranked groups come in non-increasing count order, and equal counts keep first-seen order |
| TaskStats.TaskStatistics | src/tools/tasks.py:736-827 | the statistics fail exactly when gathering the tasks or counting them fails. Otherwise they are those counts, and with `group_by` they add the ranked tally of that grouping |
| TaskEdits.WriteLine | src/tools/tasks.py:604-607 | rewriting a line fails exactly when the file has no such line |
| TaskEdits.WriteLineRereads | src/tools/tasks.py:636-637 | the rewritten file reads back with the same number of lines, the new line in place and every other line unchanged |
| TaskEdits.TaskOnLine | src/tools/tasks.py:604-616 | a task is found only in an existing note on an existing line, and carries that line number and path |
| TaskEdits.ToggledChanges | src/tools/tasks.py:622-630 | `Toggled`: a toggle flips the status and changes only the status and the done date. A reopened task has no done date, and a task completed with `add_done_date` has today's |
| TaskEdits.ToggleTwice | src/tools/tasks.py:622-630 | toggling twice restores the status, and restores an open undated task completely |
| TaskEdits.ToggleRereads | src/tools/tasks.py:622-633 | as written: the line a toggle writes with `format_task_line` reads back as the toggled task minus the fields the parser loses (Finding B). It reads back unchanged exactly when the created date and the rule are not written behind a token the parser peels first |
| TaskEdits.ToggleRereadsFixed | src/tools/tasks.py:622-633 | corrected: the line the corrected formatter writes reads back as the toggled task |
| TaskEdits.ApplyUpdates | src/tools/tasks.py:694-716 | updating fails exactly when a date given is not a valid `%Y-%m-%d` date |
| TaskEdits.DateStepSpec | src/tools/tasks.py:703-710 | a date key sets that date (`None` or `""` clears it) and is always reported as changed |
| TaskEdits.ApplyUpdatesKeeps | src/tools/tasks.py:694-716 | an update leaves unchanged the content, status, tags, done and created dates, line number and file |
| TaskEdits.ApplyUpdatesFields | src/tools/tasks.py:697-716 | an accepted priority (or `None`, meaning normal) and an accepted rule (`None`, or one starting with "every") replace the old ones; others are ignored. Dates are set from their keys |
| TaskEdits.ApplyUpdatesChanges | src/tools/tasks.py:694-716 | `changes_made` lists the applied keys in the order priority, due, scheduled, start, recurrence |
| TaskEdits.UpdateRereads | src/tools/tasks.py:694-719 | as written: the line an update writes reads back as the updated task minus the fields the parser loses, and unchanged exactly when those fields are not written behind an earlier-peeled token |
| TaskEdits.UpdateRereadsFixed | src/tools/tasks.py:694-719 | corrected: the line the corrected formatter writes reads back as the updated task |
| TaskEdits.NewTask | src/tools/tasks.py:531-541 | creation fails exactly when a date given does not parse or a non-empty rule does not start with "every" |
| TaskEdits.NewTaskSpec | src/tools/tasks.py:544-556 | the new task is incomplete, with the given content, file, priority, dates and rule, and no done date, creation date or tags |
| TaskEdits.Vault.UpdateTaskInFile | src/tools/tasks.py:318-344 | succeeds exactly when the note and line exist. It then replaces only that line by the right-stripped new line plus a newline, and otherwise changes nothing |
| TaskEdits.Vault.InsertTaskInFile | src/tools/tasks.py:347-411 | the note becomes the as-written insertion: a missing note holds just the task line at line 1, and otherwise the lines are split, the task line plus a newline is put at the chosen index, and the lines are joined. The returned number is the task's 1-based line. Nothing else changes. For a missing note, or one that is empty or ends in a newline, the file reads back with the task at that line and the old lines around it |
| TaskEdits.Vault.CreateTask | src/tools/tasks.py:497-577 | fails, writing nothing, exactly when the arguments are refused. Otherwise it inserts the new task's `format_task_line` text into that note, as `insert_task_in_file` does, and changes no other note. It returns the line and its number, and for an appendable note the line reads back there |
| TaskEdits.Vault.ToggleTaskStatus | src/tools/tasks.py:580-650 | succeeds exactly when the line holds a task. It then writes `format_task_line` of the toggled task in place of that line, changes nothing else, and reports the new status, done date and line. The reported line reads back as the toggled task minus what the parser loses. On error nothing changes |
| TaskEdits.Vault.UpdateTaskMetadata | src/tools/tasks.py:653-733 | succeeds exactly when the line holds a task and the updates are accepted. It then writes `format_task_line` of the updated task in place of that line, changes nothing else, and reports the line with the changes made. The line reads back as the updated task minus what the parser loses. On error nothing changes |
| Dql.ValidateDqlQueryMeaning | src/tools/dataview_api.py:55-77 | `ValidateDqlQuery`: a query is valid exactly when, stripped, it starts with `TABLE` in any letter case. The length check never decides |
| Dql.BuildDqlTableQuery | src/tools/dataview_api.py:140-141 | building a table query fails exactly when no field is given |
| Dql.BuildDqlTableQueryText | src/tools/dataview_api.py:117-158 | the query is `TABLE f1, f2, …` followed by ` FROM`, ` WHERE`, ` SORT`, ` LIMIT` for each clause given, in that order |
| Dql.ListIsTable | src/tools/dataview_api.py:80-114 | `BuildDqlListQuery` is the table query of the single field `file.name` |
| Dql.EmptyClausesIgnored | src/tools/dataview_api.py:102-113 | empty clauses and a zero limit are the same as leaving them out |
| Dql.TableQueryExample | src/tools/dataview_api.py:137-138 | the documented example gives `TABLE file.name, status FROM #project` |
| Dql.BuiltQueriesValid | src/tools/dataview_api.py:55-158 | every query the two builders make passes `validate_dql_query` |
| Dql.CheckQuery | src/tools/dataview_api.py:177-182 | `execute_dataview_query_api_tool` refuses exactly the queries that do not validate, and passes the others on unchanged |
| Dql.NormalizeTagSpec | src/tools/dataview_api.py:210-212 | `NormalizeTag`: the tag becomes `#` plus the tag without its own leading `#`, and normalising twice changes nothing |
| Dql.ListFromTagSpec | src/tools/dataview_api.py:210-219 | `ListFromTagQuery`: `x` and `#x` ask for the same query, which starts `TABLE file.name FROM #x` |
| Dql.ListFromFolderSpec | src/tools/dataview_api.py:247-255 | `ListFromFolderQuery`: the folder query starts `TABLE file.name FROM "folder"` |

## Left out

- The regular expressions `TASK_CHECKBOX`, `TASK_PRIORITY`, the date patterns, `TASK_RECURRENCE` and `TAG_PATTERN` live in `src/utils/patterns.py`, which is not part of this model. Each is modelled by a matcher written from how the code uses it:
  - a checkbox is `- [` + ` `/`x`/`X` + `]`, then the end or whitespace;
  - a date token is its emoji, one space and ten characters, and the leftmost one is used;
  - a priority token is the leftmost of the four emoji;
  - a recurrence is everything after the leftmost 🔁, stripped;
  - a tag is `#` at the start or after whitespace, followed by letters, digits, `_`, `/` or `-`.
- `Task` in `src/models/obsidian.py` is not part of this model. It is a Dafny datatype with the fields the code uses.
- `scan_vault_for_tasks`: directory walking, the skipping of hidden paths, unreadable files and the `rglob` order are left out. The vault is given as a sequence of notes in scan order.
- `splitlines` only breaks at `\n`. Python also breaks at `\r`, `\r\n` and other Unicode separators.
- `upper` and `lower` change only ASCII letters. Python's full Unicode case mapping can change the length of a string.
- `strptime` is modelled as accepting exactly four, two and two digits. Python also accepts one-digit months and days.
- File I/O, the `OBSIDIAN_VAULT_PATH` check and the creation of parent directories are left out. So is the conversion of results to dicts, including `absolute_path` and ISO date strings.
- A failure to write a file is left out: writes always succeed.
- Exception texts (the `strptime` message, `No such file or directory`) are approximations of Python's wording.
- `date.today()` is a parameter. The source calls it several times and could see midnight pass between calls.
- The search filter dates are parsed by `strptime` before `filter_tasks` runs. Here they arrive as dates, so a malformed filter date is not modelled.
- In `insert_task_in_file`, `\s*$` in the heading pattern can run past the heading's own newline, because of `re.MULTILINE`: across blank lines after it, or to the end of the file when the heading is the last line. The model matches headings line by line, so the task goes right after the heading line. Within a line, the model matches the pattern in full: hashes, at least one whitespace character, the heading text exactly as given (its own spaces included, which is what `re.escape` keeps literal), then only whitespace.
- Running a Dataview query, which is a call to Obsidian's REST API, and `table_query_api_tool`'s call to it are left out. Only the query text and the validation are modelled.
- Group keys are a datatype, not strings, so a file literally named `high` stays a separate group from the priority `high`. The source never mixes groupings in one call.
- Dates.FormatIsoDate: always writes a four-digit year. `strftime('%Y')` pads years below 1000 on some platforms and not on others, so the model follows the padded form.
- TaskEdits.Vault.CreateTask: does not model a `None` line number from a failed insert, because writes cannot fail here.
- TaskEdits.Vault.ToggleTaskStatus: the `ensures` states success and the new state, not the error texts. The method returns those texts, and their wording is approximate.

## Findings

| source | as written | input that shows it | evidently intended | confidence | as-written member | corrected member |
|---|---|---|---|---|---|---|
| src/tools/tasks.py:377-379 | `lines.append(task_line + "\n")` after `splitlines(keepends=True)` of a file whose last line has no newline | file text `"- [ ] a"`, insert `"- [ ] b"` at the end: the file becomes `"- [ ] a- [ ] b\n"`, one line, while line 2 is reported | the task on a line of its own at the reported number | not executed | Lines.AppendWithoutFinalNewlineMerges | Lines.InsertTaskLinesFixedRereads |
| src/tools/tasks.py:141-156 | `format_task_line` writes 🔁 and ➕ after the other dates. `parse_task_line` cuts the text at every date it finds, so a rule or a creation date written after a date or a priority is lost. | toggling `- [ ] Water plants 📅 2025-03-01 🔁 every week` writes `- [x] Water plants 📅 2025-03-01`, and the recurrence is gone | a formatted task reads back as itself | not executed | TaskRoundTrip.AsWrittenRoundTripIff | TaskRoundTrip.FixedRoundTrip |

The `Vault` methods write as the source does, with `format_task_line` and the plain append. Their read-back guarantees are the as-written ones. The corrected behaviour is stated beside them:

- `InsertTaskLinesFixed` terminates the last line first, and `Lines.InsertTaskLinesFixedRereads` proves its read-back. `Lines.TerminatedNeedsNoFix` shows it agrees with the source whenever the file already ends in a newline.
- `FormatTaskLineFixed` writes the rule, then the priority, the creation date and the other dates, in the order the parser peels them. `TaskRoundTrip.FixedRoundTrip`, `TaskEdits.ToggleRereadsFixed` and `TaskEdits.UpdateRereadsFixed` prove that what it writes reads back unchanged.
