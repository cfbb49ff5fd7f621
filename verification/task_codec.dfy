/**
 * One Tasks-plugin task line: `- [ ] content ⏫ 📅 2025-03-01 🔁 every week`.
 * A line is parsed by matching the checkbox and then peeling metadata off
 * the right end of the text: each date token in a fixed order, then the
 * priority emoji, then the recurrence; tags are read from what is left.
 */
module TaskCodec {
  import opened Wrappers
  import opened Text
  import opened Dates

  datatype Status = Incomplete | Completed

  datatype Priority = Highest | High | Normal | Low | Lowest

  datatype Task = Task(
    content: string,
    status: Status,
    priority: Priority,
    dueDate: Option<CalendarDate>,
    scheduledDate: Option<CalendarDate>,
    startDate: Option<CalendarDate>,
    doneDate: Option<CalendarDate>,
    createdDate: Option<CalendarDate>,
    recurrence: Option<string>,
    lineNumber: int,
    sourceFile: string,
    tags: seq<string>)

  const HighestEmoji: char := '\U{23EB}'
  const HighEmoji: char := '\U{1F53C}'
  const LowEmoji: char := '\U{1F53D}'
  const LowestEmoji: char := '\U{23EC}'

  const DueEmoji: char := '\U{1F4C5}'
  const ScheduledEmoji: char := '\U{23F3}'
  const StartEmoji: char := '\U{1F6EB}'
  const DoneEmoji: char := '\U{2705}'
  const CreatedEmoji: char := '\U{2795}'
  const RecurrenceEmoji: char := '\U{1F501}'

  /** The emoji written for each priority; `Normal` has none. */
  const PriorityEmojiMap: map<Priority, char> :=
    map[Highest := HighestEmoji, High := HighEmoji, Low := LowEmoji, Lowest := LowestEmoji]

  /** The map read back from emoji to priority; `PriorityMapsInverse`
      shows it is `PriorityEmojiMap` with keys and values swapped. */
  const EmojiPriorityMap: map<char, Priority> :=
    map[HighestEmoji := Highest, HighEmoji := High, LowEmoji := Low, LowestEmoji := Lowest]

  lemma PriorityMapsInverse()
    ensures forall p :: p in PriorityEmojiMap <==> p != Normal
    ensures forall p :: p in PriorityEmojiMap ==>
      PriorityEmojiMap[p] in EmojiPriorityMap && EmojiPriorityMap[PriorityEmojiMap[p]] == p
    ensures forall c :: c in EmojiPriorityMap ==>
      EmojiPriorityMap[c] in PriorityEmojiMap && PriorityEmojiMap[EmojiPriorityMap[c]] == c
    ensures forall c :: c in EmojiPriorityMap ==> EmojiPriorityMap[c] != Normal
  {
  }

  predicate IsPriorityEmoji(c: char) {
    c == HighestEmoji || c == HighEmoji || c == LowEmoji || c == LowestEmoji
  }

  lemma PriorityEmojiKeys(c: char)
    ensures IsPriorityEmoji(c) <==> c in EmojiPriorityMap
  {
    PriorityMapsInverse();
  }

  /** Every character that starts a metadata token. */
  predicate IsMetaChar(c: char) {
    IsPriorityEmoji(c) || c == DueEmoji || c == ScheduledEmoji || c == StartEmoji
    || c == DoneEmoji || c == CreatedEmoji || c == RecurrenceEmoji
  }

  /** Text that no metadata matcher can mistake for a token. */
  predicate Clean(s: string) {
    forall i :: 0 <= i < |s| ==> !IsMetaChar(s[i])
  }

  // ---------------------------------------------------------------- checkbox

  predicate IsMarker(c: char) {
    c == ' ' || c == 'x' || c == 'X'
  }

  /** The checkbox match on a stripped line: the marker and the text after
      the whitespace that follows the box. */
  function MatchCheckbox(l: string): (r: Option<(char, string)>)
    ensures r.Some? <==>
      5 <= |l| && l[..3] == "- [" && IsMarker(l[3]) && l[4] == ']' && (|l| == 5 || IsSpace(l[5]))
    ensures r.Some? ==> IsMarker(r.value.0) && IsPrefix("- [", l)
    ensures r.Some? ==> r.value.0 == l[3] && r.value.1 == l[if |l| == 5 then 5 else 6..]
    ensures r.Some? ==> |r.value.1| < |l|
  {
    if 5 <= |l| && l[0] == '-' && l[1] == ' ' && l[2] == '[' && IsMarker(l[3]) && l[4] == ']'
       && (|l| == 5 || IsSpace(l[5]))
    then Some((l[3], if |l| == 5 then "" else l[6..]))
    else None
  }

  // ------------------------------------------------------------- date tokens

  /** An `e YYYY-MM-DD` token begins at `i`. */
  predicate DateTokenAt(s: string, i: nat, e: char) {
    i + 12 <= |s| && s[i] == e && s[i + 1] == ' ' && DateShape(s[i + 2..i + 12])
  }

  /** The leftmost date token for `e` at or after `k`. */
  function FindDateToken(s: string, e: char, k: nat): (r: Option<nat>)
    requires k <= |s|
    ensures r.Some? ==> k <= r.value && DateTokenAt(s, r.value, e)
    ensures r.Some? ==> forall j :: k <= j < r.value ==> !DateTokenAt(s, j, e)
    ensures r.None? ==> forall j :: k <= j <= |s| ==> !DateTokenAt(s, j, e)
    decreases |s| - k
  {
    if DateTokenAt(s, k, e) then Some(k)
    else if k == |s| then None
    else FindDateToken(s, e, k + 1)
  }

  /** One date pattern applied to the remaining text: a calendar-valid first
      match yields the date and cuts the text before the token; a first match
      that is not a real date leaves everything as it was. */
  function PeelDate(text: string, e: char): (Option<CalendarDate>, string) {
    match FindDateToken(text, e, 0)
    case None => (None, text)
    case Some(i) =>
      match ParseIsoDate(text[i + 2..i + 12])
      case None => (None, text)
      case Some(d) => (Some(d), RStrip(text[..i]))
  }

  /** The date step leaves a prefix of its text, trimmed when the text was,
      and the whole text when it reads no date. */
  lemma PeelDateRest(text: string, e: char)
    ensures IsPrefix(PeelDate(text, e).1, text)
    ensures Trimmed(text) ==> Trimmed(PeelDate(text, e).1)
    ensures PeelDate(text, e).0.None? ==> PeelDate(text, e).1 == text
  {
    match FindDateToken(text, e, 0)
    case None =>
    case Some(i) =>
      RStripPrefixTrimmed(text[..i], text);
  }

  /** `PeelDate` in terms of the leftmost token alone. */
  lemma PeelDateSpec(text: string, e: char, i: nat)
    requires DateTokenAt(text, i, e)
    requires forall j :: 0 <= j < i ==> !DateTokenAt(text, j, e)
    ensures PeelDate(text, e).0 == ParseIsoDate(text[i + 2..i + 12])
    ensures PeelDate(text, e).0.Some? ==> PeelDate(text, e).1 == RStrip(text[..i])
    ensures PeelDate(text, e).0.None? ==> PeelDate(text, e).1 == text
  {
    assert FindDateToken(text, e, 0) == Some(i);
  }

  /** Text without the emoji has no date to give. */
  lemma PeelDateAbsent(text: string, e: char)
    requires forall j :: 0 <= j < |text| ==> text[j] != e
    ensures PeelDate(text, e).0 == None && PeelDate(text, e).1 == text
  {
    assert forall j :: 0 <= j <= |text| ==> !DateTokenAt(text, j, e);
  }

  // ---------------------------------------------------- priority, recurrence

  /** The leftmost priority emoji at or after `k`. */
  function FindPriorityEmoji(s: string, k: nat): (r: Option<nat>)
    requires k <= |s|
    ensures r.Some? ==> k <= r.value < |s| && IsPriorityEmoji(s[r.value])
    ensures r.Some? ==> forall j :: k <= j < r.value ==> !IsPriorityEmoji(s[j])
    ensures r.None? ==> forall j :: k <= j < |s| ==> !IsPriorityEmoji(s[j])
    decreases |s| - k
  {
    if k == |s| then None
    else if IsPriorityEmoji(s[k]) then Some(k)
    else FindPriorityEmoji(s, k + 1)
  }

  /** The priority step: the leftmost priority emoji names the priority and
      the text is cut before it; without one the priority is normal. */
  function PeelPriority(text: string): (Priority, string) {
    match FindPriorityEmoji(text, 0)
    case None => (Normal, text)
    case Some(i) =>
      (if text[i] in EmojiPriorityMap then EmojiPriorityMap[text[i]] else Normal, RStrip(text[..i]))
  }

  /** The priority step reads `Normal` exactly when the text has no priority
      emoji, and then leaves the text whole; otherwise it leaves a prefix,
      trimmed when the text was. */
  lemma PeelPriorityRest(text: string)
    ensures IsPrefix(PeelPriority(text).1, text)
    ensures Trimmed(text) ==> Trimmed(PeelPriority(text).1)
    ensures PeelPriority(text).0 == Normal <==> forall j :: 0 <= j < |text| ==> !IsPriorityEmoji(text[j])
    ensures PeelPriority(text).0 == Normal ==> PeelPriority(text).1 == text
  {
    match FindPriorityEmoji(text, 0)
    case None =>
    case Some(i) =>
      RStripPrefixTrimmed(text[..i], text);
      PriorityEmojiKeys(text[i]);
      PriorityMapsInverse();
  }

  /** The leftmost occurrence of `c` at or after `k`. */
  function FindChar(s: string, c: char, k: nat): (r: Option<nat>)
    requires k <= |s|
    ensures r.Some? ==> k <= r.value < |s| && s[r.value] == c
    ensures r.Some? ==> forall j :: k <= j < r.value ==> s[j] != c
    ensures r.None? ==> forall j :: k <= j < |s| ==> s[j] != c
    decreases |s| - k
  {
    if k == |s| then None
    else if s[k] == c then Some(k)
    else FindChar(s, c, k + 1)
  }

  /** The recurrence step: everything after the first recurrence emoji,
      stripped, is the rule, and the text is cut before the emoji. */
  function PeelRecurrence(text: string): (Option<string>, string) {
    match FindChar(text, RecurrenceEmoji, 0)
    case None => (None, text)
    case Some(i) => (Some(Strip(text[i + 1..])), RStrip(text[..i]))
  }

  /** The recurrence step reads a rule exactly when the text has the
      recurrence emoji; the rule is trimmed and the text left is a prefix,
      trimmed when the text was, and the whole text when there is no rule. */
  lemma PeelRecurrenceRest(text: string)
    ensures IsPrefix(PeelRecurrence(text).1, text)
    ensures Trimmed(text) ==> Trimmed(PeelRecurrence(text).1)
    ensures PeelRecurrence(text).0.None? <==> forall j :: 0 <= j < |text| ==> text[j] != RecurrenceEmoji
    ensures PeelRecurrence(text).0.None? ==> PeelRecurrence(text).1 == text
    ensures PeelRecurrence(text).0.Some? ==> Trimmed(PeelRecurrence(text).0.value)
  {
    match FindChar(text, RecurrenceEmoji, 0)
    case None =>
    case Some(i) =>
      RStripPrefixTrimmed(text[..i], text);
  }

  // -------------------------------------------------------------------- tags

  predicate IsTagChar(c: char) {
    ('a' <= c <= 'z') || ('A' <= c <= 'Z') || ('0' <= c <= '9') || c == '_' || c == '-' || c == '/'
  }

  /** A tag begins at `i`: a `#` at the start or after whitespace, followed
      by at least one tag character. */
  predicate TagStartsAt(s: string, i: nat) {
    i + 1 < |s| && s[i] == '#' && (i == 0 || IsSpace(s[i - 1])) && IsTagChar(s[i + 1])
  }

  /** The end of the run of tag characters starting at `i`. */
  function TagEnd(s: string, i: nat): (e: nat)
    requires i <= |s|
    ensures i <= e <= |s|
    ensures forall j :: i <= j < e ==> IsTagChar(s[j])
    ensures e < |s| ==> !IsTagChar(s[e])
    decreases |s| - i
  {
    if i < |s| && IsTagChar(s[i]) then TagEnd(s, i + 1) else i
  }

  /** The tags found from `i` on, left to right. */
  function TagsFrom(s: string, i: nat): (r: seq<string>)
    requires i <= |s|
    ensures forall k :: 0 <= k < |r| ==> r[k] != []
    ensures forall k :: 0 <= k < |r| ==> forall c :: c in r[k] ==> IsTagChar(c)
    ensures forall k :: 0 <= k < |r| ==> IsSubstring("#" + r[k], s)
    decreases |s| - i
  {
    if i == |s| then []
    else if TagStartsAt(s, i) then
      var e := TagEnd(s, i + 1);
      assert IsPrefix("#" + s[i + 1..e], s[i..]);
      SubstringAt("#" + s[i + 1..e], s, i);
      [s[i + 1..e]] + TagsFrom(s, e)
    else TagsFrom(s, i + 1)
  }

  /** No `#tag` is missed: every tag that begins at or after `i` is in the
      result. */
  lemma {:induction false} TagsFromComplete(s: string, i: nat)
    requires i <= |s|
    ensures forall j :: i <= j < |s| && TagStartsAt(s, j) ==> s[j + 1..TagEnd(s, j + 1)] in TagsFrom(s, i)
    decreases |s| - i
  {
    if i < |s| {
      if TagStartsAt(s, i) {
        var e := TagEnd(s, i + 1);
        TagsFromComplete(s, e);
        forall j | i < j < e ensures !TagStartsAt(s, j) {
          assert IsTagChar(s[j - 1]) || s[j - 1] == '#';
        }
      } else {
        TagsFromComplete(s, i + 1);
      }
    }
  }

  /** Tags come out left to right: the first one is the tag at the first
      place a tag begins, and the rest are read from the end of it. */
  lemma {:induction false} TagsFromFirst(s: string, i: nat, j: nat)
    requires i <= j < |s| && TagStartsAt(s, j)
    requires forall k :: i <= k < j ==> !TagStartsAt(s, k)
    ensures TagsFrom(s, i) == [s[j + 1..TagEnd(s, j + 1)]] + TagsFrom(s, TagEnd(s, j + 1))
    decreases j - i
  {
    if i < j {
      TagsFromFirst(s, i + 1, j);
    }
  }

  /** Text with no place a tag begins has no tags. */
  lemma {:induction false} TagsFromNone(s: string, i: nat)
    requires i <= |s|
    requires forall k :: i <= k < |s| ==> !TagStartsAt(s, k)
    ensures TagsFrom(s, i) == []
    decreases |s| - i
  {
    if i < |s| {
      TagsFromNone(s, i + 1);
    }
  }

  /** Every `#tag` of the text, without the `#`. */
  function Tags(s: string): seq<string> {
    TagsFrom(s, 0)
  }

  // ------------------------------------------------------------------- parse

  /** A task with the fields the checkbox and the caller give, before any
      metadata is read. */
  function Blank(status: Status, lineNumber: int, sourceFile: string): Task {
    Task("", status, Normal, None, None, None, None, None, None, lineNumber, sourceFile, [])
  }

  /** Metadata step `n` of `parse_task_line` alone: the field it reads, set in
      `acc`, and the text left for the next step. */
  function Step(text: string, n: nat, acc: Task): (r: (Task, string))
    requires n < 7
    ensures IsPrefix(r.1, text) && (Trimmed(text) ==> Trimmed(r.1))
    ensures r.0.status == acc.status && r.0.lineNumber == acc.lineNumber && r.0.sourceFile == acc.sourceFile
    ensures n == 6 && r.0.recurrence.Some? ==> Trimmed(r.0.recurrence.value)
  {
    PeelDateRest(text, DoneEmoji);
    PeelDateRest(text, DueEmoji);
    PeelDateRest(text, ScheduledEmoji);
    PeelDateRest(text, StartEmoji);
    PeelDateRest(text, CreatedEmoji);
    PeelPriorityRest(text);
    PeelRecurrenceRest(text);
    match n
    case 0 => var (d, rest) := PeelDate(text, DoneEmoji); (acc.(doneDate := d), rest)
    case 1 => var (d, rest) := PeelDate(text, DueEmoji); (acc.(dueDate := d), rest)
    case 2 => var (d, rest) := PeelDate(text, ScheduledEmoji); (acc.(scheduledDate := d), rest)
    case 3 => var (d, rest) := PeelDate(text, StartEmoji); (acc.(startDate := d), rest)
    case 4 => var (d, rest) := PeelDate(text, CreatedEmoji); (acc.(createdDate := d), rest)
    case 5 => var (p, rest) := PeelPriority(text); (acc.(priority := p), rest)
    case _ => var (rule, rest) := PeelRecurrence(text); (acc.(recurrence := rule), rest)
  }

  /** Metadata step `n` of `parse_task_line` and the steps after it, on the
      text the earlier steps left: the done (0), due (1), scheduled (2), start
      (3) and created (4) dates, the priority (5) and the recurrence (6), each
      peeled off the text into its field of `acc`; once all are peeled, the
      stripped text is the content and the tags are read from it. */
  function ParseSteps(text: string, n: nat, acc: Task): (t: Task)
    requires n <= 7
    ensures Trimmed(text) ==> IsPrefix(t.content, text) && Trimmed(t.content) && t.tags == Tags(t.content)
    ensures t.status == acc.status && t.lineNumber == acc.lineNumber && t.sourceFile == acc.sourceFile
    ensures n <= 6 && t.recurrence.Some? ==> Trimmed(t.recurrence.value)
    decreases 7 - n
  {
    if n == 7 then
      if Trimmed(text) then StripOfTrimmed(text); acc.(content := Strip(text), tags := Tags(text))
      else acc.(content := Strip(text), tags := Tags(text))
    else
      var next := Step(text, n, acc);
      var t := ParseSteps(next.1, n + 1, next.0);
      if Trimmed(text) then PrefixTransitive(t.content, next.1, text); t else t
  }

  /** The metadata steps of `parse_task_line` on the stripped text after the
      checkbox. */
  function ParseBody(status: Status, r0: string, lineNumber: int, sourceFile: string): (t: Task)
    ensures Trimmed(r0) ==> IsPrefix(t.content, r0) && Trimmed(t.content) && t.tags == Tags(t.content)
    ensures t.status == status && t.lineNumber == lineNumber && t.sourceFile == sourceFile
    ensures t.recurrence.Some? ==> Trimmed(t.recurrence.value)
  {
    ParseSteps(r0, 0, Blank(status, lineNumber, sourceFile))
  }

  /** `parse_task_line`: None exactly when the stripped line has no checkbox;
      an `x` or `X` in the box means completed. */
  function ParseTaskLine(line: string, lineNumber: int, sourceFile: string): (r: Option<Task>)
    ensures r.None? <==> MatchCheckbox(Strip(line)).None?
    ensures r.Some? ==>
      var m := MatchCheckbox(Strip(line)).value;
      && (r.value.status == Completed <==> (m.0 == 'x' || m.0 == 'X'))
      && IsPrefix(r.value.content, Strip(m.1))
    ensures r.Some? ==> Trimmed(r.value.content) && r.value.tags == Tags(r.value.content)
    ensures r.Some? ==> r.value.lineNumber == lineNumber && r.value.sourceFile == sourceFile
    ensures r.Some? && r.value.recurrence.Some? ==> Trimmed(r.value.recurrence.value)
  {
    match MatchCheckbox(Strip(line))
    case None => None
    case Some(m) =>
      var status := if AsciiLower(m.0) == 'x' then Completed else Incomplete;
      Some(ParseBody(status, Strip(m.1), lineNumber, sourceFile))
  }

  // ------------------------------------------------------------------ format

  function CheckboxText(s: Status): string {
    if s == Completed then "- [x]" else "- [ ]"
  }

  datatype DateField = Start | Scheduled | Due | Done | Created

  function FieldEmoji(f: DateField): char {
    match f
    case Start => StartEmoji
    case Scheduled => ScheduledEmoji
    case Due => DueEmoji
    case Done => DoneEmoji
    case Created => CreatedEmoji
  }

  /** A priority that is written on the line. */
  type MarkedPriority = p: Priority | p != Normal witness Highest

  /** One metadata token of a formatted line. */
  datatype Token =
    | PriorityToken(p: MarkedPriority)
    | DateToken(field: DateField, date: CalendarDate)
    | RecurrenceToken(rule: string)

  function LeadChar(x: Token): char {
    match x
    case PriorityToken(p) => PriorityEmojiMap[p]
    case DateToken(f, _) => FieldEmoji(f)
    case RecurrenceToken(_) => RecurrenceEmoji
  }

  /** `⏫`, `📅 2025-03-01`, `🔁 every week`. */
  function Render(x: Token): string {
    match x
    case PriorityToken(_) => [LeadChar(x)]
    case DateToken(_, d) => [LeadChar(x)] + " " + FormatIsoDate(d)
    case RecurrenceToken(r) => [LeadChar(x)] + " " + r
  }

  function RenderAll(ts: seq<Token>): (r: seq<string>)
    ensures |r| == |ts|
    ensures forall i :: 0 <= i < |ts| ==> r[i] == Render(ts[i])
  {
    seq(|ts|, i requires 0 <= i < |ts| => Render(ts[i]))
  }

  function PriorityTokens(t: Task): seq<Token> {
    if t.priority != Normal then [PriorityToken(t.priority)] else []
  }

  function DateTokens(f: DateField, d: Option<CalendarDate>): seq<Token> {
    if d.Some? then [DateToken(f, d.value)] else []
  }

  function RecurrenceTokens(t: Task): seq<Token> {
    if t.recurrence.Some? && t.recurrence.value != "" then [RecurrenceToken(t.recurrence.value)] else []
  }

  /** The metadata `format_task_line` writes after the content, in its
      order: the priority unless normal, the start, scheduled, due, done and
      created dates that are set, and a non-empty recurrence. */
  function MetadataTokens(t: Task): seq<Token> {
    PriorityTokens(t) + DateTokens(Start, t.startDate) + DateTokens(Scheduled, t.scheduledDate)
    + DateTokens(Due, t.dueDate) + DateTokens(Done, t.doneDate) + DateTokens(Created, t.createdDate)
    + RecurrenceTokens(t)
  }

  /** The date a task holds in field `f`. */
  function DateOfField(t: Task, f: DateField): Option<CalendarDate> {
    match f
    case Start => t.startDate
    case Scheduled => t.scheduledDate
    case Due => t.dueDate
    case Done => t.doneDate
    case Created => t.createdDate
  }

  /** The place of a token in the order `format_task_line` writes them:
      priority, 🛫, ⏳, 📅, ✅, ➕, 🔁. */
  function WriteRank(x: Token): nat {
    match x
    case PriorityToken(_) => 0
    case DateToken(f, _) =>
      (match f case Start => 1 case Scheduled => 2 case Due => 3 case Done => 4 case Created => 5)
    case RecurrenceToken(_) => 6
  }

  /** Tokens in strictly increasing write rank. */
  predicate RankedTokens(ts: seq<Token>) {
    forall i, j :: 0 <= i < j < |ts| ==> WriteRank(ts[i]) < WriteRank(ts[j])
  }

  /** The token carries a value the task holds in a field that is written:
      its priority unless normal, a date that is set, a non-empty rule. */
  predicate Carries(t: Task, x: Token) {
    match x
    case PriorityToken(p) => t.priority == p
    case DateToken(f, d) => DateOfField(t, f) == Some(d)
    case RecurrenceToken(r) => t.recurrence == Some(r) && r != []
  }

  /** The tokens of write rank `k`. */
  function Group(t: Task, k: nat): seq<Token>
    requires k < 7
  {
    match k
    case 0 => PriorityTokens(t)
    case 1 => DateTokens(Start, t.startDate)
    case 2 => DateTokens(Scheduled, t.scheduledDate)
    case 3 => DateTokens(Due, t.dueDate)
    case 4 => DateTokens(Done, t.doneDate)
    case 5 => DateTokens(Created, t.createdDate)
    case _ => RecurrenceTokens(t)
  }

  /** The tokens of the first `k` write ranks, in order. */
  function GroupsBelow(t: Task, k: nat): seq<Token>
    requires k <= 7
  {
    if k == 0 then [] else GroupsBelow(t, k - 1) + Group(t, k - 1)
  }

  lemma GroupSpec(t: Task, k: nat)
    requires k < 7
    ensures |Group(t, k)| <= 1
    ensures forall x :: x in Group(t, k) <==> Carries(t, x) && WriteRank(x) == k
  {
  }

  lemma {:induction false} GroupsBelowSpec(t: Task, k: nat)
    requires k <= 7
    ensures RankedTokens(GroupsBelow(t, k))
    ensures forall x :: x in GroupsBelow(t, k) <==> Carries(t, x) && WriteRank(x) < k
  {
    if k > 0 {
      var a, b := GroupsBelow(t, k - 1), Group(t, k - 1);
      GroupsBelowSpec(t, k - 1);
      GroupSpec(t, k - 1);
      forall i, j | 0 <= i < j < |a + b| ensures WriteRank((a + b)[i]) < WriteRank((a + b)[j]) {
        if j < |a| {
          assert (a + b)[i] == a[i] && (a + b)[j] == a[j];
        } else {
          assert (a + b)[i] in a && (a + b)[j] in b;
        }
      }
    }
  }

  lemma MetadataTokensGroups(t: Task)
    ensures MetadataTokens(t) == GroupsBelow(t, 7)
  {
    assert GroupsBelow(t, 1) == PriorityTokens(t);
    assert GroupsBelow(t, 3) == PriorityTokens(t) + DateTokens(Start, t.startDate) + DateTokens(Scheduled, t.scheduledDate);
    assert GroupsBelow(t, 5) == GroupsBelow(t, 3) + DateTokens(Due, t.dueDate) + DateTokens(Done, t.doneDate);
  }

  /** The tokens written for a task are in the source's order and are
      exactly the values it carries, one per field that is written. */
  lemma MetadataTokensSpec(t: Task)
    ensures RankedTokens(MetadataTokens(t))
    ensures forall x :: x in MetadataTokens(t) <==> Carries(t, x)
  {
    MetadataTokensGroups(t);
    GroupsBelowSpec(t, 7);
  }

  /** `format_task_line`: the checkbox, a space, and the content and the
      metadata tokens joined by single spaces. */
  function FormatTaskLine(t: Task): (r: string)
    ensures IsPrefix(CheckboxText(t.status) + " ", r)
    ensures IsPrefix("- [x] ", r) <==> t.status == Completed
  {
    var r := CheckboxText(t.status) + " " + SpaceJoin([t.content] + RenderAll(MetadataTokens(t)));
    assert r[3] == (if t.status == Completed then 'x' else ' ');
    r
  }
}
