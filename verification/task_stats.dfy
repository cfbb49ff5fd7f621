/** `get_task_statistics_fs_tool`: the tasks of one note or of the whole
    vault, their counts, and optionally how many fall in each group. */
module TaskStats {
  import opened Wrappers
  import opened Dates
  import opened TaskCodec
  import opened Sorting
  import opened TaskQuery

  datatype Scope = NoteScope | VaultScope

  /** The tasks the statistics cover. A note is named by `filePath` and
      read as `note`, its lines, or `None` when no such file exists; the
      vault is every note the scan visits. */
  function ScopeTasks(scope: Scope, filePath: Option<string>, note: Option<seq<string>>,
                      vault: seq<(string, seq<string>)>): (r: Result<seq<Task>, string>)
    ensures r.Failure? <==> scope == NoteScope && (filePath.GetOr("") == "" || note.None?)
    ensures scope == VaultScope ==> r == Success(ScanVault(vault))
    ensures r.Success? && scope == NoteScope ==> r.value == ScanLines(filePath.value, note.value, 0)
  {
    match scope
    case VaultScope => Success(ScanVault(vault))
    case NoteScope =>
      if filePath.GetOr("") == "" then Failure("file_path required when scope='note'")
      else if note.None? then Failure("File not found: " + filePath.value)
      else Success(ScanLines(filePath.value, note.value, 0))
  }

  // ----------------------------------------------------------------- counts

  /** `sum(1 for t in tasks if <all of cs>)` */
  function Count(ts: seq<Task>, cs: seq<Criterion>, today: CalendarDate): nat {
    |Select(ts, cs, today)|
  }

  /** `t.due_date and t.due_date < today and t.status == "incomplete"` */
  function Overdue(today: CalendarDate): seq<Criterion> {
    [DueBefore(today), StatusIs(Incomplete)]
  }

  /** `t.due_date and today <= t.due_date <= today + timedelta(days=7) and
      t.status == "incomplete"` */
  const Upcoming: seq<Criterion> := [DueWithin(7), StatusIs(Incomplete)]

  datatype Counts = Counts(
    total: nat,
    incomplete: nat,
    completed: nat,
    byPriority: map<Priority, nat>,
    overdue: nat,
    upcoming: nat,
    recurring: nat)

  /** The upcoming count adds seven days to `today` for every task due on or
      after `today`; past 9999-12-24 that addition raises. */
  predicate UpcomingOverflows(ts: seq<Task>, today: CalendarDate) {
    !ShiftInRange(today, 7) &&
    exists i :: 0 <= i < |ts| && ts[i].dueDate.Some? && DateLe(today, ts[i].dueDate.value)
  }

  /** The counts of `get_task_statistics_fs_tool`. */
  function CountTasks(ts: seq<Task>, today: CalendarDate): (r: Result<Counts, string>)
    ensures r.Failure? <==> UpcomingOverflows(ts, today)
    ensures r.Success? ==> r.value.total == |ts| && r.value.byPriority.Keys == {Highest, High, Normal, Low, Lowest}
  {
    if UpcomingOverflows(ts, today) then Failure(OverflowError)
    else
      Success(Counts(
        |ts|,
        Count(ts, [StatusIs(Incomplete)], today),
        Count(ts, [StatusIs(Completed)], today),
        map p | p in {Highest, High, Normal, Low, Lowest} :: Count(ts, [PriorityIs(p)], today),
        Count(ts, Overdue(today), today),
        Count(ts, Upcoming, today),
        Count(ts, [Recurring(true)], today)))
  }

  lemma MatchesOne(c: Criterion, today: CalendarDate, t: Task)
    ensures MatchesAll([c], today, t) <==> Holds(c, today, t)
  {
    assert [c][0] == c;
  }

  lemma MatchesTwo(c: Criterion, d: Criterion, today: CalendarDate, t: Task)
    ensures MatchesAll([c, d], today, t) <==> Holds(c, today, t) && Holds(d, today, t)
  {
    assert [c, d][0] == c && [c, d][1] == d;
  }

  /** One step of a count: the first task adds one when it matches. */
  lemma CountStep(ts: seq<Task>, cs: seq<Criterion>, today: CalendarDate)
    requires ts != []
    ensures Count(ts, cs, today) == (if MatchesAll(cs, today, ts[0]) then 1 else 0) + Count(ts[1..], cs, today)
  {
  }

  /** Every task is incomplete or completed. */
  lemma {:induction false} StatusCountsAdd(ts: seq<Task>, today: CalendarDate)
    ensures Count(ts, [StatusIs(Incomplete)], today) + Count(ts, [StatusIs(Completed)], today) == |ts|
  {
    if ts != [] {
      StatusCountsAdd(ts[1..], today);
      CountStep(ts, [StatusIs(Incomplete)], today);
      CountStep(ts, [StatusIs(Completed)], today);
      MatchesOne(StatusIs(Incomplete), today, ts[0]);
      MatchesOne(StatusIs(Completed), today, ts[0]);
    }
  }

  function PriorityTotal(ts: seq<Task>, today: CalendarDate): nat {
    Count(ts, [PriorityIs(Highest)], today) + Count(ts, [PriorityIs(High)], today)
    + Count(ts, [PriorityIs(Normal)], today) + Count(ts, [PriorityIs(Low)], today)
    + Count(ts, [PriorityIs(Lowest)], today)
  }

  /** Every task has exactly one of the five priorities. */
  lemma {:induction false} PriorityCountsAdd(ts: seq<Task>, today: CalendarDate)
    ensures PriorityTotal(ts, today) == |ts|
  {
    if ts != [] {
      PriorityCountsAdd(ts[1..], today);
      var t := ts[0];
      CountStep(ts, [PriorityIs(Highest)], today);
      CountStep(ts, [PriorityIs(High)], today);
      CountStep(ts, [PriorityIs(Normal)], today);
      CountStep(ts, [PriorityIs(Low)], today);
      CountStep(ts, [PriorityIs(Lowest)], today);
      MatchesOne(PriorityIs(Highest), today, t);
      MatchesOne(PriorityIs(High), today, t);
      MatchesOne(PriorityIs(Normal), today, t);
      MatchesOne(PriorityIs(Low), today, t);
      MatchesOne(PriorityIs(Lowest), today, t);
    }
  }

  /** A task is overdue before today and upcoming from today on, never
      both, and only an incomplete task is either. */
  lemma {:induction false} DueCountsBounded(ts: seq<Task>, today: CalendarDate)
    ensures Count(ts, Overdue(today), today) + Count(ts, Upcoming, today) <= Count(ts, [StatusIs(Incomplete)], today)
  {
    if ts != [] {
      DueCountsBounded(ts[1..], today);
      var t := ts[0];
      CountStep(ts, Overdue(today), today);
      CountStep(ts, Upcoming, today);
      CountStep(ts, [StatusIs(Incomplete)], today);
      MatchesTwo(DueBefore(today), StatusIs(Incomplete), today, t);
      MatchesTwo(DueWithin(7), StatusIs(Incomplete), today, t);
      MatchesOne(StatusIs(Incomplete), today, t);
    }
  }

  /** The counts add up: incomplete and completed make the total, so do the
      five priorities, and the overdue and upcoming tasks are distinct
      incomplete ones. */
  lemma CountTasksConsistent(ts: seq<Task>, today: CalendarDate)
    requires CountTasks(ts, today).Success?
    ensures var c := CountTasks(ts, today).value;
      && c.incomplete + c.completed == c.total
      && c.byPriority[Highest] + c.byPriority[High] + c.byPriority[Normal] + c.byPriority[Low] + c.byPriority[Lowest] == c.total
      && c.overdue + c.upcoming <= c.incomplete
      && c.recurring <= c.total
  {
    StatusCountsAdd(ts, today);
    PriorityCountsAdd(ts, today);
    DueCountsBounded(ts, today);
  }

  /** The overdue count counts each incomplete task due before today. */
  lemma OverdueMeaning(ts: seq<Task>, today: CalendarDate, t: Task)
    ensures multiset(Select(ts, Overdue(today), today))[t] ==
      if t.dueDate.Some? && DateLt(t.dueDate.value, today) && t.status == Incomplete then multiset(ts)[t] else 0
  {
    SelectCount(ts, Overdue(today), today, t);
    MatchesTwo(DueBefore(today), StatusIs(Incomplete), today, t);
  }

  /** The upcoming count counts each incomplete task due from today to
      seven days later. */
  lemma UpcomingMeaning(ts: seq<Task>, today: CalendarDate, t: Task)
    ensures multiset(Select(ts, Upcoming, today))[t] ==
      if InWindow(t.dueDate, today, 7) && t.status == Incomplete then multiset(ts)[t] else 0
  {
    SelectCount(ts, Upcoming, today, t);
    MatchesTwo(DueWithin(7), StatusIs(Incomplete), today, t);
  }

  /** The recurring count counts each task with a non-empty recurrence. */
  lemma RecurringMeaning(ts: seq<Task>, today: CalendarDate, t: Task)
    ensures multiset(Select(ts, [Recurring(true)], today))[t] == if HasRecurrence(t) then multiset(ts)[t] else 0
  {
    SelectCount(ts, [Recurring(true)], today, t);
    MatchesOne(Recurring(true), today, t);
  }

  // --------------------------------------------------------------- grouping

  datatype GroupBy = GroupByPriority | GroupByStatus | GroupByFile

  /** The `group_key` of a task: its priority, its status or its file. */
  datatype GroupKey = PriorityGroup(priority: Priority) | StatusGroup(status: Status) | FileGroup(file: string)

  function GroupKeyOf(t: Task, grouping: GroupBy): GroupKey {
    match grouping
    case GroupByPriority => PriorityGroup(t.priority)
    case GroupByStatus => StatusGroup(t.status)
    case GroupByFile => FileGroup(t.sourceFile)
  }

  function Keys(ts: seq<Task>, grouping: GroupBy): (r: seq<GroupKey>)
    ensures |r| == |ts|
    ensures forall i :: 0 <= i < |ts| ==> r[i] == GroupKeyOf(ts[i], grouping)
  {
    if ts == [] then [] else Keys(ts[..|ts| - 1], grouping) + [GroupKeyOf(ts[|ts| - 1], grouping)]
  }

  /** `d[k] = d.get(k, 0) + 1` on a dict kept as its items in insertion
      order: an existing key is counted up in place, a new one goes last. */
  function Bump(groups: seq<(GroupKey, nat)>, k: GroupKey): (r: seq<(GroupKey, nat)>) {
    if groups == [] then [(k, 1)]
    else if groups[0].0 == k then [(k, groups[0].1 + 1)] + groups[1..]
    else [groups[0]] + Bump(groups[1..], k)
  }

  /** The dict after counting every key of `keys` in turn. */
  function Tally(keys: seq<GroupKey>): seq<(GroupKey, nat)>
    decreases |keys|
  {
    if keys == [] then [] else Bump(Tally(keys[..|keys| - 1]), keys[|keys| - 1])
  }

  /** `d.get(k, 0)` */
  function Get(groups: seq<(GroupKey, nat)>, k: GroupKey): nat {
    if groups == [] then 0 else if groups[0].0 == k then groups[0].1 else Get(groups[1..], k)
  }

  function KeySet(groups: seq<(GroupKey, nat)>): set<GroupKey> {
    set i | 0 <= i < |groups| :: groups[i].0
  }

  predicate Distinct(groups: seq<(GroupKey, nat)>) {
    forall i, j :: 0 <= i < j < |groups| ==> groups[i].0 != groups[j].0
  }

  function SumCounts(groups: seq<(GroupKey, nat)>): nat {
    if groups == [] then 0 else groups[0].1 + SumCounts(groups[1..])
  }

  lemma {:induction false} BumpGet(groups: seq<(GroupKey, nat)>, k: GroupKey, x: GroupKey)
    ensures Get(Bump(groups, k), x) == Get(groups, x) + (if x == k then 1 else 0)
  {
    if groups != [] && groups[0].0 != k {
      BumpGet(groups[1..], k, x);
    }
  }

  lemma KeySetCons(g: (GroupKey, nat), rest: seq<(GroupKey, nat)>)
    ensures KeySet([g] + rest) == {g.0} + KeySet(rest)
  {
    var s := [g] + rest;
    forall x | x in KeySet(s) ensures x in {g.0} + KeySet(rest) {
      var i :| 0 <= i < |s| && s[i].0 == x;
      if i > 0 {
        assert rest[i - 1].0 == x;
      }
    }
    forall x | x in KeySet(rest) ensures x in KeySet(s) {
      var i :| 0 <= i < |rest| && rest[i].0 == x;
      assert s[i + 1].0 == x;
    }
    assert s[0].0 == g.0;
  }

  lemma {:induction false} BumpKeySet(groups: seq<(GroupKey, nat)>, k: GroupKey)
    ensures KeySet(Bump(groups, k)) == KeySet(groups) + {k}
  {
    if groups == [] {
      assert Bump(groups, k)[0].0 == k;
    } else if groups[0].0 == k {
      KeySetCons((k, groups[0].1 + 1), groups[1..]);
      KeySetCons(groups[0], groups[1..]);
      assert groups == [groups[0]] + groups[1..];
    } else {
      BumpKeySet(groups[1..], k);
      KeySetCons(groups[0], Bump(groups[1..], k));
      KeySetCons(groups[0], groups[1..]);
      assert groups == [groups[0]] + groups[1..];
    }
  }

  lemma DistinctCons(g: (GroupKey, nat), rest: seq<(GroupKey, nat)>)
    requires Distinct(rest) && g.0 !in KeySet(rest)
    ensures Distinct([g] + rest)
  {
    var s := [g] + rest;
    forall i, j | 0 <= i < j < |s| ensures s[i].0 != s[j].0 {
      assert s[j] == rest[j - 1];
      if i > 0 {
        assert s[i] == rest[i - 1];
      } else {
        assert rest[j - 1].0 in KeySet(rest);
      }
    }
  }

  lemma {:induction false} BumpDistinct(groups: seq<(GroupKey, nat)>, k: GroupKey)
    requires Distinct(groups)
    ensures Distinct(Bump(groups, k))
  {
    if groups != [] {
      var rest := groups[1..];
      assert Distinct(rest) by {
        forall i, j | 0 <= i < j < |rest| ensures rest[i].0 != rest[j].0 {
          assert rest[i] == groups[i + 1] && rest[j] == groups[j + 1];
        }
      }
      assert groups[0].0 !in KeySet(rest) by {
        forall i | 0 <= i < |rest| ensures rest[i].0 != groups[0].0 {
          assert rest[i] == groups[i + 1];
        }
      }
      if groups[0].0 == k {
        DistinctCons((k, groups[0].1 + 1), rest);
      } else {
        BumpDistinct(rest, k);
        BumpKeySet(rest, k);
        DistinctCons(groups[0], Bump(rest, k));
      }
    }
  }

  lemma {:induction false} BumpSum(groups: seq<(GroupKey, nat)>, k: GroupKey)
    ensures SumCounts(Bump(groups, k)) == SumCounts(groups) + 1
  {
    if groups != [] && groups[0].0 != k {
      BumpSum(groups[1..], k);
    }
  }

  /** The dict holds each key of `keys` once, with the number of times it
      occurs, and no other key; its counts add up to the number of keys. */
  lemma {:induction false} TallySpec(keys: seq<GroupKey>)
    ensures Distinct(Tally(keys))
    ensures KeySet(Tally(keys)) == set k | k in keys
    ensures forall k :: Get(Tally(keys), k) == multiset(keys)[k]
    ensures SumCounts(Tally(keys)) == |keys|
    decreases |keys|
  {
    if keys != [] {
      var front, last := keys[..|keys| - 1], keys[|keys| - 1];
      TallySpec(front);
      assert keys == front + [last];
      BumpDistinct(Tally(front), last);
      BumpKeySet(Tally(front), last);
      BumpSum(Tally(front), last);
      forall k ensures Get(Tally(keys), k) == multiset(keys)[k] {
        BumpGet(Tally(front), last, k);
      }
    }
  }

  /** In a dict without repeated keys, an item's count is what `get`
      returns for its key. */
  lemma {:induction false} GetDistinct(groups: seq<(GroupKey, nat)>, i: nat)
    requires Distinct(groups) && i < |groups|
    ensures Get(groups, groups[i].0) == groups[i].1
  {
    if i > 0 {
      assert Distinct(groups[1..]) by {
        forall a, b | 0 <= a < b < |groups| - 1 ensures groups[1..][a].0 != groups[1..][b].0 {
          assert groups[1..][a] == groups[a + 1] && groups[1..][b] == groups[b + 1];
        }
      }
      GetDistinct(groups[1..], i - 1);
    }
  }

  /** Every item of the dict carries the number of tasks with its key. */
  lemma TallyCounts(keys: seq<GroupKey>)
    ensures forall i :: 0 <= i < |Tally(keys)| ==> Tally(keys)[i].1 == multiset(keys)[Tally(keys)[i].0]
  {
    TallySpec(keys);
    forall i | 0 <= i < |Tally(keys)| ensures Tally(keys)[i].1 == multiset(keys)[Tally(keys)[i].0] {
      GetDistinct(Tally(keys), i);
    }
  }

  /** The grouping loop of `get_task_statistics_fs_tool`. */
  method GroupCounts(ts: seq<Task>, grouping: GroupBy) returns (groups: seq<(GroupKey, nat)>)
    ensures groups == Tally(Keys(ts, grouping))
  {
    groups := [];
    var i := 0;
    while i < |ts|
      invariant 0 <= i <= |ts|
      invariant groups == Tally(Keys(ts[..i], grouping))
    {
      KeysSnoc(ts, i, grouping);
      TallySnoc(Keys(ts[..i], grouping), GroupKeyOf(ts[i], grouping));
      groups := Bump(groups, GroupKeyOf(ts[i], grouping));
      i := i + 1;
    }
    assert ts[..i] == ts;
  }

  lemma KeysSnoc(ts: seq<Task>, i: nat, grouping: GroupBy)
    requires i < |ts|
    ensures Keys(ts[..i + 1], grouping) == Keys(ts[..i], grouping) + [GroupKeyOf(ts[i], grouping)]
  {
    assert ts[..i + 1][..i] == ts[..i];
  }

  lemma TallySnoc(keys: seq<GroupKey>, k: GroupKey)
    ensures Tally(keys + [k]) == Bump(Tally(keys), k)
  {
    assert (keys + [k])[..|keys|] == keys;
  }

  function CountKey(g: (GroupKey, nat)): Key {
    RankKey(-(g.1 as int))
  }

  /** `sorted(grouped_data.items(), key=lambda x: -x[1])` */
  function RankGroups(groups: seq<(GroupKey, nat)>): (r: seq<(GroupKey, nat)>)
    ensures multiset(r) == multiset(groups)
  {
    KeyLtTotalOrder();
    SortBy(groups, CountKey, KeyLt, false)
  }

  /** The groups come largest first; groups of equal size keep the order in
      which their keys were first met. */
  lemma RankGroupsOrder(groups: seq<(GroupKey, nat)>)
    ensures var r := RankGroups(groups);
      && (forall i, j :: 0 <= i < j < |r| ==> r[i].1 >= r[j].1)
      && (forall key :: WithKey(r, CountKey, key) == WithKey(groups, CountKey, key))
  {
    KeyLtTotalOrder();
    var r := RankGroups(groups);
    forall i, j | 0 <= i < j < |r| ensures r[i].1 >= r[j].1 {
      assert !KeyLt(CountKey(r[j]), CountKey(r[i]));
    }
  }

  datatype Stats = Stats(counts: Counts, grouped: Option<seq<(GroupKey, nat)>>)

  /** `get_task_statistics_fs_tool`: gather the tasks of the scope, count
      them, and group them when asked. */
  method TaskStatistics(scope: Scope, filePath: Option<string>, note: Option<seq<string>>,
                        vault: seq<(string, seq<string>)>, groupBy: Option<GroupBy>,
                        today: CalendarDate) returns (r: Result<Stats, string>)
    ensures var tasks := ScopeTasks(scope, filePath, note, vault);
      && (r.Failure? <==> tasks.Failure? || CountTasks(tasks.value, today).Failure?)
      && (r.Success? ==>
            && r.value.counts == CountTasks(tasks.value, today).value
            && r.value.grouped.Some? == groupBy.Some?
            && (groupBy.Some? ==> r.value.grouped.value == RankGroups(Tally(Keys(tasks.value, groupBy.value)))))
  {
    var tasks := ScopeTasks(scope, filePath, note, vault);
    if tasks.Failure? {
      return Failure(tasks.error);
    }
    var counts := CountTasks(tasks.value, today);
    if counts.Failure? {
      return Failure(counts.error);
    }
    var grouped := None;
    if groupBy.Some? {
      var groups := GroupCounts(tasks.value, groupBy.value);
      grouped := Some(RankGroups(groups));
    }
    r := Success(Stats(counts.value, grouped));
  }
}
