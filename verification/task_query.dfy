/** Reading tasks out of a vault and choosing among them: the scan of every
    note, `filter_tasks`, `sort_tasks`, and the limit that
    `search_tasks_fs_tool` applies to the sorted result. `today` is a
    parameter wherever the tools call `date.today()`. */
module TaskQuery {
  import opened Wrappers
  import opened Text
  import opened Dates
  import opened TaskCodec
  import opened Sorting

  // ------------------------------------------------------------------ dates

  /** The ordinal of 9999-12-31, the last day `datetime.date` holds. */
  const MaxOrdinal: int := 3652059

  /** Every date Python can hold has an ordinal from 1 to `MaxOrdinal`. */
  lemma OrdinalRange(d: CalendarDate)
    ensures Ordinal(Date(9999, 12, 31)) == MaxOrdinal
    ensures 1 <= Ordinal(d) <= MaxOrdinal
  {
    DaysBeforeMonthNonNegative(d.year, d.month);
    var last := Date(9999, 12, 31);
    assert DaysBeforeMonth(9999, 12) == 334 by {
      DaysBeforeMonthYear(9999);
    }
    if d != last {
      OrdinalOrder(d, last);
    }
  }

  /** `today + timedelta(days=n)` is a date; otherwise the addition raises
      `OverflowError`. */
  predicate ShiftInRange(today: CalendarDate, n: int) {
    1 <= Ordinal(today) + n <= MaxOrdinal
  }

  /** The date is set and `today <= d <= today + timedelta(days=n)`. The
      cutoff date is compared through its ordinal, which orders dates as
      Python does (`OrdinalOrder`). */
  predicate InWindow(d: Option<CalendarDate>, today: CalendarDate, n: int) {
    d.Some? && DateLe(today, d.value) && Ordinal(d.value) <= Ordinal(today) + n
  }

  // ---------------------------------------------------------------- filters

  /** `t.recurrence` is truthy: set and not empty. */
  predicate HasRecurrence(t: Task) {
    t.recurrence.Some? && t.recurrence.value != ""
  }

  /** One comprehension of `filter_tasks`. */
  datatype Criterion =
    | StatusIs(status: Status)
    | PriorityIs(priority: Priority)
    | DueBefore(dueLimit: CalendarDate)
    | DueAfter(dueLimit: CalendarDate)
    | DueWithin(dueDays: int)
    | ScheduledBefore(scheduledLimit: CalendarDate)
    | ScheduledAfter(scheduledLimit: CalendarDate)
    | ScheduledWithin(scheduledDays: int)
    | Recurring(wanted: bool)
    | HasTag(tag: string)

  predicate Holds(c: Criterion, today: CalendarDate, t: Task) {
    match c
    case StatusIs(s) => t.status == s
    case PriorityIs(p) => t.priority == p
    case DueBefore(d) => t.dueDate.Some? && DateLt(t.dueDate.value, d)
    case DueAfter(d) => t.dueDate.Some? && DateLt(d, t.dueDate.value)
    case DueWithin(n) => InWindow(t.dueDate, today, n)
    case ScheduledBefore(d) => t.scheduledDate.Some? && DateLt(t.scheduledDate.value, d)
    case ScheduledAfter(d) => t.scheduledDate.Some? && DateLt(d, t.scheduledDate.value)
    case ScheduledWithin(n) => InWindow(t.scheduledDate, today, n)
    case Recurring(w) => HasRecurrence(t) == w
    case HasTag(g) => g in t.tags
  }

  /** `[t for t in ts if <c>]` */
  function Where(ts: seq<Task>, c: Criterion, today: CalendarDate): (r: seq<Task>)
    ensures |r| <= |ts|
  {
    if ts == [] then [] else (if Holds(c, today, ts[0]) then [ts[0]] else []) + Where(ts[1..], c, today)
  }

  predicate MatchesAll(cs: seq<Criterion>, today: CalendarDate, t: Task) {
    forall i :: 0 <= i < |cs| ==> Holds(cs[i], today, t)
  }

  /** One pass that keeps the tasks meeting every criterion, in order: the
      reference the chained comprehensions are compared with. */
  function Select(ts: seq<Task>, cs: seq<Criterion>, today: CalendarDate): (r: seq<Task>)
    ensures |r| <= |ts|
  {
    if ts == [] then [] else (if MatchesAll(cs, today, ts[0]) then [ts[0]] else []) + Select(ts[1..], cs, today)
  }

  /** The comprehensions applied one after the other, each to what the
      previous one kept. */
  function Chain(ts: seq<Task>, cs: seq<Criterion>, today: CalendarDate): seq<Task>
    decreases |cs|
  {
    if cs == [] then ts else Chain(Where(ts, cs[0], today), cs[1..], today)
  }

  lemma {:induction false} SelectNone(ts: seq<Task>, today: CalendarDate)
    ensures Select(ts, [], today) == ts
  {
    if ts != [] {
      SelectNone(ts[1..], today);
      assert ts == [ts[0]] + ts[1..];
    }
  }

  lemma {:induction false} SelectWhere(ts: seq<Task>, c: Criterion, cs: seq<Criterion>, today: CalendarDate)
    ensures Select(Where(ts, c, today), cs, today) == Select(ts, [c] + cs, today)
  {
    if ts != [] {
      var t := ts[0];
      MatchesAllAppend([c], cs, today, t);
      WhenMeaning(true, c, today, t);
      SelectWhere(ts[1..], c, cs, today);
      var w := Where(ts[1..], c, today);
      if Holds(c, today, t) {
        assert Where(ts, c, today) == [t] + w;
        assert ([t] + w)[1..] == w;
      } else {
        assert Where(ts, c, today) == w;
      }
    }
  }

  /** Chaining the comprehensions keeps exactly what one pass with all the
      criteria at once keeps. */
  lemma {:induction false} ChainIsSelect(ts: seq<Task>, cs: seq<Criterion>, today: CalendarDate)
    ensures Chain(ts, cs, today) == Select(ts, cs, today)
    decreases |cs|
  {
    if cs == [] {
      SelectNone(ts, today);
    } else {
      ChainIsSelect(Where(ts, cs[0], today), cs[1..], today);
      SelectWhere(ts, cs[0], cs[1..], today);
      assert [cs[0]] + cs[1..] == cs;
    }
  }

  /** Selecting from two lists one after the other is selecting from each:
      the order of what is kept is the order of the input. */
  lemma {:induction false} SelectAppend(a: seq<Task>, b: seq<Task>, cs: seq<Criterion>, today: CalendarDate)
    ensures Select(a + b, cs, today) == Select(a, cs, today) + Select(b, cs, today)
  {
    if a == [] {
      assert a + b == b;
    } else {
      assert (a + b)[1..] == a[1..] + b;
      SelectAppend(a[1..], b, cs, today);
    }
  }

  /** Every task that meets the criteria is kept as often as it occurs, and
      no other task is kept. */
  lemma {:induction false} SelectCount(ts: seq<Task>, cs: seq<Criterion>, today: CalendarDate, t: Task)
    ensures multiset(Select(ts, cs, today))[t] == if MatchesAll(cs, today, t) then multiset(ts)[t] else 0
  {
    if ts != [] {
      var rest := Select(ts[1..], cs, today);
      SelectCount(ts[1..], cs, today, t);
      assert multiset(ts) == multiset{ts[0]} + multiset(ts[1..]) by {
        assert ts == [ts[0]] + ts[1..];
      }
      if MatchesAll(cs, today, ts[0]) {
        assert multiset(Select(ts, cs, today)) == multiset{ts[0]} + multiset(rest);
      } else {
        assert Select(ts, cs, today) == rest;
      }
    }
  }

  datatype StatusFilter = AllStatuses | OnlyStatus(only: Status)

  /** The keyword arguments of `filter_tasks`; `None` is an argument not
      given. */
  datatype Filters = Filters(
    status: Option<StatusFilter>,
    priority: Option<Priority>,
    dueBefore: Option<CalendarDate>,
    dueAfter: Option<CalendarDate>,
    dueWithinDays: Option<int>,
    scheduledBefore: Option<CalendarDate>,
    scheduledAfter: Option<CalendarDate>,
    scheduledWithinDays: Option<int>,
    hasRecurrence: Option<bool>,
    tag: Option<string>)

  function When(b: bool, c: Criterion): seq<Criterion> {
    if b then [c] else []
  }

  /** The comprehensions `filter_tasks` runs, in its order: a status other
      than `all`, a priority, the due and then the scheduled bounds, the
      recurrence flag (`is not None`) and a non-empty tag. */
  function Criteria(f: Filters): seq<Criterion> {
    var status := f.status.GetOr(AllStatuses);
    When(status.OnlyStatus?, StatusIs(if status.OnlyStatus? then status.only else Incomplete))
    + When(f.priority.Some?, PriorityIs(f.priority.GetOr(Normal)))
    + DueCriteria(f) + ScheduledCriteria(f)
    + When(f.hasRecurrence.Some?, Recurring(f.hasRecurrence.GetOr(false)))
    + When(f.tag.GetOr("") != "", HasTag(f.tag.GetOr("")))
  }

  function DueCriteria(f: Filters): seq<Criterion> {
    When(f.dueBefore.Some?, DueBefore(f.dueBefore.GetOr(Date(1, 1, 1))))
    + When(f.dueAfter.Some?, DueAfter(f.dueAfter.GetOr(Date(1, 1, 1))))
    + When(f.dueWithinDays.Some?, DueWithin(f.dueWithinDays.GetOr(0)))
  }

  function ScheduledCriteria(f: Filters): seq<Criterion> {
    When(f.scheduledBefore.Some?, ScheduledBefore(f.scheduledBefore.GetOr(Date(1, 1, 1))))
    + When(f.scheduledAfter.Some?, ScheduledAfter(f.scheduledAfter.GetOr(Date(1, 1, 1))))
    + When(f.scheduledWithinDays.Some?, ScheduledWithin(f.scheduledWithinDays.GetOr(0)))
  }

  /** What a task must be to pass `filter_tasks`, criterion by criterion:
      status `all` asks nothing, a date bound asks for the date to be set,
      and a window asks for `today <= d <= today + n` days. */
  predicate Satisfies(f: Filters, today: CalendarDate, t: Task) {
    && (f.status.Some? && f.status.value.OnlyStatus? ==> t.status == f.status.value.only)
    && (f.priority.Some? ==> t.priority == f.priority.value)
    && DueOk(f, today, t)
    && ScheduledOk(f, today, t)
    && (f.hasRecurrence.Some? ==> HasRecurrence(t) == f.hasRecurrence.value)
    && (f.tag.Some? && f.tag.value != "" ==> f.tag.value in t.tags)
  }

  predicate DueOk(f: Filters, today: CalendarDate, t: Task) {
    && (f.dueBefore.Some? ==> t.dueDate.Some? && DateLt(t.dueDate.value, f.dueBefore.value))
    && (f.dueAfter.Some? ==> t.dueDate.Some? && DateLt(f.dueAfter.value, t.dueDate.value))
    && (f.dueWithinDays.Some? ==> InWindow(t.dueDate, today, f.dueWithinDays.value))
  }

  predicate ScheduledOk(f: Filters, today: CalendarDate, t: Task) {
    && (f.scheduledBefore.Some? ==> t.scheduledDate.Some? && DateLt(t.scheduledDate.value, f.scheduledBefore.value))
    && (f.scheduledAfter.Some? ==> t.scheduledDate.Some? && DateLt(f.scheduledAfter.value, t.scheduledDate.value))
    && (f.scheduledWithinDays.Some? ==> InWindow(t.scheduledDate, today, f.scheduledWithinDays.value))
  }

  lemma MatchesAllAppend(a: seq<Criterion>, b: seq<Criterion>, today: CalendarDate, t: Task)
    ensures MatchesAll(a + b, today, t) <==> MatchesAll(a, today, t) && MatchesAll(b, today, t)
  {
    if MatchesAll(a, today, t) && MatchesAll(b, today, t) {
      forall i | 0 <= i < |a + b| ensures Holds((a + b)[i], today, t) {
        if i >= |a| {
          assert (a + b)[i] == b[i - |a|];
        }
      }
    }
    if MatchesAll(a + b, today, t) {
      forall i | 0 <= i < |a| ensures Holds(a[i], today, t) {
        assert (a + b)[i] == a[i];
      }
      forall i | 0 <= i < |b| ensures Holds(b[i], today, t) {
        assert (a + b)[|a| + i] == b[i];
      }
    }
  }

  lemma WhenMeaning(b: bool, c: Criterion, today: CalendarDate, t: Task)
    ensures MatchesAll(When(b, c), today, t) <==> (b ==> Holds(c, today, t))
  {
    if b {
      assert When(b, c)[0] == c;
    }
  }

  lemma Meaning3(x: seq<Criterion>, y: seq<Criterion>, z: seq<Criterion>, today: CalendarDate, t: Task)
    ensures MatchesAll(x + y + z, today, t) <==> MatchesAll(x, today, t) && MatchesAll(y, today, t) && MatchesAll(z, today, t)
  {
    MatchesAllAppend(x, y, today, t);
    MatchesAllAppend(x + y, z, today, t);
  }

  lemma DueCriteriaMeaning(f: Filters, today: CalendarDate, t: Task)
    ensures MatchesAll(DueCriteria(f), today, t) <==> DueOk(f, today, t)
  {
    var a := When(f.dueBefore.Some?, DueBefore(f.dueBefore.GetOr(Date(1, 1, 1))));
    var b := When(f.dueAfter.Some?, DueAfter(f.dueAfter.GetOr(Date(1, 1, 1))));
    var c := When(f.dueWithinDays.Some?, DueWithin(f.dueWithinDays.GetOr(0)));
    Meaning3(a, b, c, today, t);
    WhenMeaning(f.dueBefore.Some?, DueBefore(f.dueBefore.GetOr(Date(1, 1, 1))), today, t);
    WhenMeaning(f.dueAfter.Some?, DueAfter(f.dueAfter.GetOr(Date(1, 1, 1))), today, t);
    WhenMeaning(f.dueWithinDays.Some?, DueWithin(f.dueWithinDays.GetOr(0)), today, t);
  }

  lemma ScheduledCriteriaMeaning(f: Filters, today: CalendarDate, t: Task)
    ensures MatchesAll(ScheduledCriteria(f), today, t) <==> ScheduledOk(f, today, t)
  {
    var a := When(f.scheduledBefore.Some?, ScheduledBefore(f.scheduledBefore.GetOr(Date(1, 1, 1))));
    var b := When(f.scheduledAfter.Some?, ScheduledAfter(f.scheduledAfter.GetOr(Date(1, 1, 1))));
    var c := When(f.scheduledWithinDays.Some?, ScheduledWithin(f.scheduledWithinDays.GetOr(0)));
    Meaning3(a, b, c, today, t);
    WhenMeaning(f.scheduledBefore.Some?, ScheduledBefore(f.scheduledBefore.GetOr(Date(1, 1, 1))), today, t);
    WhenMeaning(f.scheduledAfter.Some?, ScheduledAfter(f.scheduledAfter.GetOr(Date(1, 1, 1))), today, t);
    WhenMeaning(f.scheduledWithinDays.Some?, ScheduledWithin(f.scheduledWithinDays.GetOr(0)), today, t);
  }

  /** A task meets every comprehension `filter_tasks` runs exactly when it
      satisfies every argument that was given. */
  lemma CriteriaMeaning(f: Filters, today: CalendarDate, t: Task)
    ensures MatchesAll(Criteria(f), today, t) <==> Satisfies(f, today, t)
  {
    var status := f.status.GetOr(AllStatuses);
    var s := When(status.OnlyStatus?, StatusIs(if status.OnlyStatus? then status.only else Incomplete));
    var p := When(f.priority.Some?, PriorityIs(f.priority.GetOr(Normal)));
    var r := When(f.hasRecurrence.Some?, Recurring(f.hasRecurrence.GetOr(false)));
    var g := When(f.tag.GetOr("") != "", HasTag(f.tag.GetOr("")));
    var d, e := DueCriteria(f), ScheduledCriteria(f);
    Meaning3(s, p, d, today, t);
    Meaning3(s + p + d, e, r, today, t);
    MatchesAllAppend(s + p + d + e + r, g, today, t);
    WhenMeaning(status.OnlyStatus?, StatusIs(if status.OnlyStatus? then status.only else Incomplete), today, t);
    WhenMeaning(f.priority.Some?, PriorityIs(f.priority.GetOr(Normal)), today, t);
    WhenMeaning(f.hasRecurrence.Some?, Recurring(f.hasRecurrence.GetOr(false)), today, t);
    WhenMeaning(f.tag.GetOr("") != "", HasTag(f.tag.GetOr("")), today, t);
    DueCriteriaMeaning(f, today, t);
    ScheduledCriteriaMeaning(f, today, t);
  }

  const OverflowError: string := "date value out of range"

  /** `filter_tasks`: the comprehensions in order. A window whose cutoff
      `today + timedelta(days=n)` is not a date raises before any task is
      looked at. */
  function FilterTasks(ts: seq<Task>, f: Filters, today: CalendarDate): (r: Result<seq<Task>, string>)
    ensures r.Failure? <==>
      || (f.dueWithinDays.Some? && !ShiftInRange(today, f.dueWithinDays.value))
      || (f.scheduledWithinDays.Some? && !ShiftInRange(today, f.scheduledWithinDays.value))
  {
    if f.dueWithinDays.Some? && !ShiftInRange(today, f.dueWithinDays.value) then Failure(OverflowError)
    else if f.scheduledWithinDays.Some? && !ShiftInRange(today, f.scheduledWithinDays.value) then Failure(OverflowError)
    else Success(Chain(ts, Criteria(f), today))
  }

  /** What `filter_tasks` keeps: every task that satisfies all the given
      arguments, as often as it occurs, and nothing else. */
  lemma FilterTasksKeeps(ts: seq<Task>, f: Filters, today: CalendarDate, t: Task)
    requires FilterTasks(ts, f, today).Success?
    ensures multiset(FilterTasks(ts, f, today).value)[t] ==
      if Satisfies(f, today, t) then multiset(ts)[t] else 0
    ensures t in FilterTasks(ts, f, today).value <==> t in ts && Satisfies(f, today, t)
  {
    ChainIsSelect(ts, Criteria(f), today);
    SelectCount(ts, Criteria(f), today, t);
    CriteriaMeaning(f, today, t);
  }

  /** `filter_tasks` keeps the input order: filtering two lists one after
      the other is filtering each. */
  lemma FilterTasksOrder(a: seq<Task>, b: seq<Task>, f: Filters, today: CalendarDate)
    requires FilterTasks(a, f, today).Success?
    ensures FilterTasks(a + b, f, today).value == FilterTasks(a, f, today).value + FilterTasks(b, f, today).value
  {
    ChainIsSelect(a, Criteria(f), today);
    ChainIsSelect(b, Criteria(f), today);
    ChainIsSelect(a + b, Criteria(f), today);
    SelectAppend(a, b, Criteria(f), today);
  }

  // ---------------------------------------------------------------- sorting

  datatype SortField = ByDueDate | ByPriority | ByFile | ByLineNumber

  datatype SortOrder = Asc | Desc

  /** The values `sort_tasks` sorts by: a due date, a position in the
      priority list, a file path, or a `(file, line)` pair. */
  datatype Key = DateKey(date: Date) | RankKey(rank: int) | TextKey(text: string)
               | PairKey(first: string, second: int)

  function KindOf(k: Key): nat {
    match k
    case DateKey(_) => 0
    case RankKey(_) => 1
    case TextKey(_) => 2
    case PairKey(_, _) => 3
  }

  /** Python's `<` on two keys of one kind: dates in calendar order,
      strings by code points, pairs lexicographically. One sort never mixes
      kinds; they are ordered by kind only to keep `<` total. */
  predicate KeyLt(a: Key, b: Key) {
    match (a, b)
    case (DateKey(x), DateKey(y)) => DateLt(x, y)
    case (RankKey(x), RankKey(y)) => x < y
    case (TextKey(x), TextKey(y)) => StrLt(x, y)
    case (PairKey(x, m), PairKey(y, n)) => StrLt(x, y) || (x == y && m < n)
    case _ => KindOf(a) < KindOf(b)
  }

  lemma KeyLtIrreflexive(a: Key)
    ensures !KeyLt(a, a)
  {
    if a.TextKey? {
      StrLtIrreflexive(a.text);
    } else if a.PairKey? {
      StrLtIrreflexive(a.first);
    }
  }

  lemma KeyLtTransitive(a: Key, b: Key, c: Key)
    requires KeyLt(a, b) && KeyLt(b, c)
    ensures KeyLt(a, c)
  {
    match (a, b, c)
    case (TextKey(x), TextKey(y), TextKey(z)) =>
      StrLtTransitive(x, y, z);
    case (PairKey(x, _), PairKey(y, _), PairKey(z, _)) =>
      if StrLt(x, y) && StrLt(y, z) {
        StrLtTransitive(x, y, z);
      }
    case _ =>
  }

  lemma KeyLtTrichotomy(a: Key, b: Key)
    ensures a == b || KeyLt(a, b) || KeyLt(b, a)
  {
    match (a, b)
    case (TextKey(x), TextKey(y)) =>
      StrLtTotal(x, y);
    case (PairKey(x, _), PairKey(y, _)) =>
      StrLtTotal(x, y);
    case _ =>
  }

  lemma KeyLtTotalOrder()
    ensures TotalOrder(KeyLt)
  {
    forall a ensures !KeyLt(a, a) {
      KeyLtIrreflexive(a);
    }
    forall a, b, c | KeyLt(a, b) && KeyLt(b, c) ensures KeyLt(a, c) {
      KeyLtTransitive(a, b, c);
    }
    forall a, b ensures a == b || KeyLt(a, b) || KeyLt(b, a) {
      KeyLtTrichotomy(a, b);
    }
  }

  /** `["highest", "high", "normal", "low", "lowest"]`, reversed for `desc`. */
  function PriorityRanking(order: SortOrder): seq<Priority> {
    var ranking := [Highest, High, Normal, Low, Lowest];
    if order == Desc then [ranking[4], ranking[3], ranking[2], ranking[1], ranking[0]] else ranking
  }

  /** `ranking.index(p)` */
  function IndexOf(ranking: seq<Priority>, p: Priority): nat {
    if ranking == [] || ranking[0] == p then 0 else 1 + IndexOf(ranking[1..], p)
  }

  /** Priorities from most to least urgent. */
  function Urgency(p: Priority): nat {
    match p
    case Highest => 0
    case High => 1
    case Normal => 2
    case Low => 3
    case Lowest => 4
  }

  lemma PriorityRankingIndex(order: SortOrder, p: Priority)
    ensures IndexOf(PriorityRanking(order), p) == if order == Asc then Urgency(p) else 4 - Urgency(p)
  {
    var ranking := PriorityRanking(order);
    var i := if order == Asc then Urgency(p) else 4 - Urgency(p);
    assert ranking[i] == p;
    IndexOfAt(ranking, i);
  }

  /** The index of the first occurrence. */
  lemma {:induction false} IndexOfAt(ranking: seq<Priority>, i: nat)
    requires i < |ranking| && forall j :: 0 <= j < i ==> ranking[j] != ranking[i]
    ensures IndexOf(ranking, ranking[i]) == i
  {
    if i > 0 {
      IndexOfAt(ranking[1..], i - 1);
    }
  }

  function DueKey(t: Task): Key {
    DateKey(if t.dueDate.Some? then t.dueDate.value else Date(1, 1, 1))
  }

  function FileKey(t: Task): Key {
    TextKey(t.sourceFile)
  }

  function LineKey(t: Task): Key {
    PairKey(t.sourceFile, t.lineNumber)
  }

  /** The key function of each ordering of `sort_tasks`. */
  function KeyFor(field: SortField, order: SortOrder): Task -> Key {
    match field
    case ByDueDate => DueKey
    case ByPriority => var ranking := PriorityRanking(order); (t: Task) => RankKey(IndexOf(ranking, t.priority))
    case ByFile => FileKey
    case ByLineNumber => LineKey
  }

  /** Whether the ordering passes `reverse=True`: the priority ordering
      reverses its list instead. */
  function Reversed(field: SortField, order: SortOrder): bool {
    order == Desc && field != ByPriority
  }

  /** `[t for t in tasks if t.due_date]` */
  function Dated(ts: seq<Task>): (r: seq<Task>)
    ensures forall i :: 0 <= i < |r| ==> r[i].dueDate.Some?
  {
    if ts == [] then [] else (if ts[0].dueDate.Some? then [ts[0]] else []) + Dated(ts[1..])
  }

  /** `[t for t in tasks if not t.due_date]` */
  function Undated(ts: seq<Task>): (r: seq<Task>)
    ensures forall i :: 0 <= i < |r| ==> r[i].dueDate.None?
  {
    if ts == [] then [] else (if ts[0].dueDate.None? then [ts[0]] else []) + Undated(ts[1..])
  }

  lemma {:induction false} DatedUndated(ts: seq<Task>)
    ensures multiset(Dated(ts)) + multiset(Undated(ts)) == multiset(ts)
  {
    if ts != [] {
      DatedUndated(ts[1..]);
      assert ts == [ts[0]] + ts[1..];
    }
  }

  /** `sort_tasks`. By due date, the dated tasks are sorted and the undated
      ones follow them (`asc`) or come first (`desc`); the other orderings
      sort the whole list. */
  function SortTasks(ts: seq<Task>, field: SortField, order: SortOrder): (r: seq<Task>)
    ensures multiset(r) == multiset(ts)
  {
    KeyLtTotalOrder();
    if field == ByDueDate then
      DatedUndated(ts);
      var dated := SortBy(Dated(ts), DueKey, KeyLt, order == Desc);
      if order == Asc then dated + Undated(ts) else Undated(ts) + dated
    else
      SortBy(ts, KeyFor(field, order), KeyLt, Reversed(field, order))
  }

  lemma DateOrder(a: CalendarDate, b: CalendarDate)
    requires !DateLt(b, a)
    ensures DateLe(a, b)
  {
  }

  /** Ascending by due date: the dated tasks first, in ascending date
      order with equal dates in their original order, then every undated
      task in its original order. */
  lemma SortByDueAscending(ts: seq<Task>)
    ensures var r := SortTasks(ts, ByDueDate, Asc);
      var k := |Dated(ts)|;
      && k <= |r|
      && (forall i :: 0 <= i < k ==> r[i].dueDate.Some?)
      && (forall i, j :: 0 <= i < j < k ==> DateLe(r[i].dueDate.value, r[j].dueDate.value))
      && (forall key :: WithKey(r[..k], DueKey, key) == WithKey(Dated(ts), DueKey, key))
      && r[k..] == Undated(ts)
  {
    KeyLtTotalOrder();
    var d := SortBy(Dated(ts), DueKey, KeyLt, false);
    var r := SortTasks(ts, ByDueDate, Asc);
    assert r == d + Undated(ts);
    assert |d| == |Dated(ts)| by {
      assert |multiset(d)| == |multiset(Dated(ts))|;
    }
    assert r[..|d|] == d && r[|d|..] == Undated(ts);
    forall i | 0 <= i < |d| ensures d[i].dueDate.Some? {
      assert d[i] in multiset(Dated(ts));
    }
    forall i, j | 0 <= i < j < |d| ensures DateLe(d[i].dueDate.value, d[j].dueDate.value) {
      assert !KeyLt(DueKey(d[j]), DueKey(d[i]));
    }
  }

  /** Descending by due date: every undated task first, in its original
      order, then the dated tasks in descending date order. */
  lemma SortByDueDescending(ts: seq<Task>)
    ensures var r := SortTasks(ts, ByDueDate, Desc);
      var m := |Undated(ts)|;
      && m <= |r|
      && r[..m] == Undated(ts)
      && (forall i :: m <= i < |r| ==> r[i].dueDate.Some?)
      && (forall i, j :: m <= i < j < |r| ==> DateLe(r[j].dueDate.value, r[i].dueDate.value))
      && (forall key :: WithKey(r[m..], DueKey, key) == WithKey(Dated(ts), DueKey, key))
  {
    KeyLtTotalOrder();
    var d := SortBy(Dated(ts), DueKey, KeyLt, true);
    var u := Undated(ts);
    var r := SortTasks(ts, ByDueDate, Desc);
    assert r == u + d;
    assert r[..|u|] == u && r[|u|..] == d;
    forall i | 0 <= i < |d| ensures d[i].dueDate.Some? {
      assert d[i] in multiset(Dated(ts));
    }
    forall i, j | |u| <= i < j < |r| ensures DateLe(r[j].dueDate.value, r[i].dueDate.value) {
      assert r[i] == d[i - |u|] && r[j] == d[j - |u|];
      assert !KeyLt(DueKey(r[i]), DueKey(r[j]));
    }
  }

  /** By priority: most urgent first for `asc`, least urgent first for
      `desc`; tasks of equal priority keep their original order. */
  lemma SortByPriorityOrder(ts: seq<Task>, order: SortOrder)
    ensures var r := SortTasks(ts, ByPriority, order);
      && (forall i, j :: 0 <= i < j < |r| ==>
            if order == Asc then Urgency(r[i].priority) <= Urgency(r[j].priority)
            else Urgency(r[i].priority) >= Urgency(r[j].priority))
      && (forall key :: WithKey(r, KeyFor(ByPriority, order), key) == WithKey(ts, KeyFor(ByPriority, order), key))
  {
    KeyLtTotalOrder();
    var r := SortTasks(ts, ByPriority, order);
    var key := KeyFor(ByPriority, order);
    forall i, j | 0 <= i < j < |r| ensures
      if order == Asc then Urgency(r[i].priority) <= Urgency(r[j].priority)
      else Urgency(r[i].priority) >= Urgency(r[j].priority)
    {
      assert !KeyLt(key(r[j]), key(r[i]));
      PriorityRankingIndex(order, r[i].priority);
      PriorityRankingIndex(order, r[j].priority);
    }
  }

  /** By file: paths in ascending (or, for `desc`, descending) code-point
      order; tasks of one file keep their original order. */
  lemma SortByFileOrder(ts: seq<Task>, order: SortOrder)
    ensures var r := SortTasks(ts, ByFile, order);
      && (forall i, j :: 0 <= i < j < |r| ==>
            if order == Asc then StrLe(r[i].sourceFile, r[j].sourceFile)
            else StrLe(r[j].sourceFile, r[i].sourceFile))
      && (forall key :: WithKey(r, FileKey, key) == WithKey(ts, FileKey, key))
  {
    KeyLtTotalOrder();
    var r := SortTasks(ts, ByFile, order);
    forall i, j | 0 <= i < j < |r| ensures
      if order == Asc then StrLe(r[i].sourceFile, r[j].sourceFile)
      else StrLe(r[j].sourceFile, r[i].sourceFile)
    {
      assert !Before(FileKey, KeyLt, order == Desc, r[j], r[i]);
      StrLtTotal(r[i].sourceFile, r[j].sourceFile);
    }
  }

  /** `(file, line)` pairs ordered lexicographically. */
  predicate LineLe(a: Task, b: Task) {
    StrLt(a.sourceFile, b.sourceFile) || (a.sourceFile == b.sourceFile && a.lineNumber <= b.lineNumber)
  }

  /** By line number: tasks ordered by file and then by line, ascending or
      descending; tasks at the same place keep their original order. */
  lemma SortByLineOrder(ts: seq<Task>, order: SortOrder)
    ensures var r := SortTasks(ts, ByLineNumber, order);
      && (forall i, j :: 0 <= i < j < |r| ==>
            if order == Asc then LineLe(r[i], r[j]) else LineLe(r[j], r[i]))
      && (forall key :: WithKey(r, LineKey, key) == WithKey(ts, LineKey, key))
  {
    KeyLtTotalOrder();
    var r := SortTasks(ts, ByLineNumber, order);
    assert r == SortBy(ts, LineKey, KeyLt, order == Desc);
    forall i, j | 0 <= i < j < |r| ensures
      if order == Asc then LineLe(r[i], r[j]) else LineLe(r[j], r[i])
    {
      LinePairOrder(r[i], r[j], order);
    }
  }

  /** Two tasks the line sort leaves in this order are ordered by place. */
  lemma LinePairOrder(a: Task, b: Task, order: SortOrder)
    requires !Before(LineKey, KeyLt, order == Desc, b, a)
    ensures if order == Asc then LineLe(a, b) else LineLe(b, a)
  {
    StrLtTotal(a.sourceFile, b.sourceFile);
  }

  // ------------------------------------------------------------ scan, search

  /** The task on line `n` of the note at `path`, if that line holds one. */
  function LineTasks(path: string, line: string, n: int): (r: seq<Task>)
    ensures |r| <= 1
    ensures forall i :: 0 <= i < |r| ==> r[i].sourceFile == path && r[i].lineNumber == n
  {
    var p := ParseTaskLine(line, n, path);
    if p.Some? then [p.value] else []
  }

  /** The tasks of one note whose lines are `lines` (`content.splitlines()`),
      from line `from + 1` on, each parsed with its 1-based number. */
  function ScanLines(path: string, lines: seq<string>, from: nat): seq<Task>
    requires from <= |lines|
    decreases |lines| - from
  {
    if from == |lines| then [] else LineTasks(path, lines[from], from + 1) + ScanLines(path, lines, from + 1)
  }

  /** Line `n` (counting from 1) of the note at `path` parses to `t`. */
  predicate TaskAt(path: string, lines: seq<string>, n: int, t: Task) {
    1 <= n <= |lines| && ParseTaskLine(lines[n - 1], n, path) == Some(t)
  }

  /** The lines of a note that hold a task give exactly its tasks. */
  lemma {:induction false} ScanLinesMembers(path: string, lines: seq<string>, from: nat, t: Task)
    requires from <= |lines|
    ensures t in ScanLines(path, lines, from) <==> exists n :: from < n && TaskAt(path, lines, n, t)
    decreases |lines| - from
  {
    if from < |lines| {
      ScanLinesMembers(path, lines, from + 1, t);
      assert t in LineTasks(path, lines[from], from + 1) <==> TaskAt(path, lines, from + 1, t);
      if exists n :: from < n && TaskAt(path, lines, n, t) {
        var n :| from < n && TaskAt(path, lines, n, t);
        if n == from + 1 {
          assert t in ScanLines(path, lines, from);
        }
      }
    }
  }

  /** Each task of a note carries the note's path and the number of one of
      its lines. */
  lemma {:induction false} ScanLinesPlaces(path: string, lines: seq<string>, from: nat)
    requires from <= |lines|
    ensures forall t :: t in ScanLines(path, lines, from) ==> t.sourceFile == path && from < t.lineNumber <= |lines|
    decreases |lines| - from
  {
    if from < |lines| {
      ScanLinesPlaces(path, lines, from + 1);
      var head := LineTasks(path, lines[from], from + 1);
      assert ScanLines(path, lines, from) == head + ScanLines(path, lines, from + 1);
    }
  }

  predicate Increasing(r: seq<Task>) {
    forall i, j :: 0 <= i < j < |r| ==> r[i].lineNumber < r[j].lineNumber
  }

  lemma IncreasingCons(head: seq<Task>, rest: seq<Task>, n: int)
    requires |head| <= 1 && (forall i :: 0 <= i < |head| ==> head[i].lineNumber == n)
    requires (forall t :: t in rest ==> n < t.lineNumber) && Increasing(rest)
    ensures Increasing(head + rest)
  {
    var r := head + rest;
    forall i, j | 0 <= i < j < |r| ensures r[i].lineNumber < r[j].lineNumber {
      assert r[j] == rest[j - |head|];
      if i >= |head| {
        assert r[i] == rest[i - |head|];
      }
    }
  }

  /** The tasks of a note come in increasing line order. */
  lemma {:induction false} ScanLinesOrder(path: string, lines: seq<string>, from: nat)
    requires from <= |lines|
    ensures Increasing(ScanLines(path, lines, from))
    decreases |lines| - from
  {
    if from < |lines| {
      ScanLinesOrder(path, lines, from + 1);
      ScanLinesPlaces(path, lines, from + 1);
      IncreasingCons(LineTasks(path, lines[from], from + 1), ScanLines(path, lines, from + 1), from + 1);
    }
  }

  /** `scan_vault_for_tasks` over the notes given as `(path, lines)` pairs
      in the order the directory walk yields them. */
  function ScanVault(notes: seq<(string, seq<string>)>): seq<Task> {
    if notes == [] then [] else ScanLines(notes[0].0, notes[0].1, 0) + ScanVault(notes[1..])
  }

  /** A task is found in the vault exactly when some line of some note
      parses to it. */
  lemma {:induction false} ScanVaultMembers(notes: seq<(string, seq<string>)>, t: Task)
    ensures t in ScanVault(notes) <==>
      exists k, n :: 0 <= k < |notes| && TaskAt(notes[k].0, notes[k].1, n, t)
  {
    if notes != [] {
      var rest := notes[1..];
      ScanLinesMembers(notes[0].0, notes[0].1, 0, t);
      ScanVaultMembers(rest, t);
      if t in ScanVault(notes) {
        if t in ScanLines(notes[0].0, notes[0].1, 0) {
          var n :| 0 < n && TaskAt(notes[0].0, notes[0].1, n, t);
          assert 0 <= 0 < |notes| && TaskAt(notes[0].0, notes[0].1, n, t);
        } else {
          var k, n :| 0 <= k < |rest| && TaskAt(rest[k].0, rest[k].1, n, t);
          assert rest[k] == notes[k + 1];
          assert 0 <= k + 1 < |notes| && TaskAt(notes[k + 1].0, notes[k + 1].1, n, t);
        }
      }
      if exists k, n :: 0 <= k < |notes| && TaskAt(notes[k].0, notes[k].1, n, t) {
        var k, n :| 0 <= k < |notes| && TaskAt(notes[k].0, notes[k].1, n, t);
        if k == 0 {
          assert 0 < n;
        } else {
          assert rest[k - 1] == notes[k];
          assert 0 <= k - 1 < |rest| && TaskAt(rest[k - 1].0, rest[k - 1].1, n, t);
        }
      }
    }
  }

  /** `s[:limit]`: the first `limit` elements, or, for a negative limit, all
      but the last `-limit`. */
  function Take(s: seq<Task>, limit: int): (r: seq<Task>)
    ensures |r| <= |s| && r == s[..|r|]
  {
    if limit >= 0 then (if limit < |s| then s[..limit] else s)
    else if |s| + limit > 0 then s[..|s| + limit]
    else []
  }

  datatype SearchResult = SearchResult(tasks: seq<Task>, totalFound: int, truncated: bool)

  /** `search_tasks_fs_tool` on parsed filters: scan, filter, sort, and keep
      the first `limit` tasks, reporting how many were found and whether
      any were left out. */
  function SearchTasks(notes: seq<(string, seq<string>)>, f: Filters, limit: int, field: SortField,
                       order: SortOrder, today: CalendarDate): Result<SearchResult, string>
  {
    match FilterTasks(ScanVault(notes), f, today)
    case Failure(e) => Failure(e)
    case Success(found) =>
      var sorted := SortTasks(found, field, order);
      Success(SearchResult(Take(sorted, limit), |sorted|, |sorted| > limit))
  }

  /** The search fails only on an out-of-range window. Otherwise it reports
      every matching task in the count, returns the first `limit` of them in
      sorted order, and flags truncation exactly when some were left out
      (for a negative limit, which drops the last `-limit`, it is always
      flagged). */
  lemma SearchTasksSpec(notes: seq<(string, seq<string>)>, f: Filters, limit: int, field: SortField,
                        order: SortOrder, today: CalendarDate)
    ensures var r := SearchTasks(notes, f, limit, field, order, today);
      && (r.Failure? <==> FilterTasks(ScanVault(notes), f, today).Failure?)
      && (r.Success? ==>
            var found := FilterTasks(ScanVault(notes), f, today).value;
            var sorted := SortTasks(found, field, order);
            && r.value.totalFound == |found|
            && r.value.tasks == sorted[..|r.value.tasks|]
            && (forall t :: t in r.value.tasks ==> t in ScanVault(notes) && Satisfies(f, today, t))
            && (limit >= 0 ==> |r.value.tasks| == if limit < |found| then limit else |found|)
            && (limit >= 0 ==> (r.value.truncated <==> |r.value.tasks| < |found|))
            && (limit < 0 ==> r.value.truncated && |r.value.tasks| == if |found| + limit > 0 then |found| + limit else 0))
  {
    var r := SearchTasks(notes, f, limit, field, order, today);
    if r.Success? {
      var vault := ScanVault(notes);
      var found := FilterTasks(vault, f, today).value;
      var sorted := SortTasks(found, field, order);
      assert r.value == SearchResult(Take(sorted, limit), |sorted|, |sorted| > limit);
      assert |sorted| == |found| by {
        assert |multiset(sorted)| == |multiset(found)|;
      }
      TakeCount(sorted, limit);
      SortedFoundMembers(vault, f, today, sorted, Take(sorted, limit));
    }
  }

  /** How many tasks `s[:limit]` keeps. */
  lemma TakeCount(s: seq<Task>, limit: int)
    ensures limit >= 0 ==> |Take(s, limit)| == if limit < |s| then limit else |s|
    ensures limit >= 0 ==> (|s| > limit <==> |Take(s, limit)| < |s|)
    ensures limit < 0 ==> |s| > limit && |Take(s, limit)| == if |s| + limit > 0 then |s| + limit else 0
  {
  }

  /** A prefix of the sorted matches holds only tasks of the vault that meet
      the filters. */
  lemma SortedFoundMembers(vault: seq<Task>, f: Filters, today: CalendarDate, sorted: seq<Task>, kept: seq<Task>)
    requires FilterTasks(vault, f, today).Success?
    requires multiset(sorted) == multiset(FilterTasks(vault, f, today).value)
    requires |kept| <= |sorted| && kept == sorted[..|kept|]
    ensures forall t :: t in kept ==> t in vault && Satisfies(f, today, t)
  {
    forall t | t in kept ensures t in vault && Satisfies(f, today, t) {
      assert t in sorted;
      assert t in multiset(sorted);
      FilterTasksKeeps(vault, f, today, t);
    }
  }
}
