/**
 * Reading back a formatted task line. The formatter writes the metadata of
 * a task as tokens after its content; the parser peels tokens off the right
 * end of the text, each kind by a leftmost search that drops everything from
 * the match on. A token is therefore read back only if no token peeled
 * before it stands to its left. The formatter's order (priority, start,
 * scheduled, due, done, created, recurrence) puts created and recurrence to
 * the right of tokens that are peeled first, so those two are lost;
 * `FormatTaskLineFixed` writes the tokens in the reverse of the peeling
 * order and reads back whole.
 */
module TaskRoundTrip {
  import opened Wrappers
  import opened Text
  import opened Dates
  import opened TaskCodec

  datatype Kind = DateKind(f: DateField) | PriorityKind | RecurrenceKind

  function KindOf(x: Token): Kind {
    match x
    case PriorityToken(_) => PriorityKind
    case DateToken(f, _) => DateKind(f)
    case RecurrenceToken(_) => RecurrenceKind
  }

  /** Tokens the formatter can write: any priority or date, and a
      non-empty, trimmed rule with no metadata emoji in it. */
  predicate TokenOk(x: Token) {
    x.RecurrenceToken? ==> x.rule != [] && Trimmed(x.rule) && Clean(x.rule)
  }

  predicate TokensOk(ts: seq<Token>) {
    forall x :: x in ts ==> TokenOk(x)
  }

  lemma TokensOkAppend(a: seq<Token>, b: seq<Token>)
    requires TokensOk(a) && TokensOk(b)
    ensures TokensOk(a + b)
  {
  }

  lemma RenderAllAppend(a: seq<Token>, b: seq<Token>)
    ensures RenderAll(a + b) == RenderAll(a) + RenderAll(b)
  {
  }

  lemma RenderAllPrefix(ts: seq<Token>, k: nat)
    requires k <= |ts|
    ensures RenderAll(ts[..k]) == RenderAll(ts)[..k]
  {
  }

  /** A token starts with its emoji, has no other metadata emoji, and has no
      whitespace at either end. */
  lemma RenderShape(x: Token)
    requires TokenOk(x)
    ensures Render(x) != [] && Render(x)[0] == LeadChar(x) && Trimmed(Render(x))
    ensures IsMetaChar(LeadChar(x))
    ensures forall i :: 1 <= i < |Render(x)| ==> !IsMetaChar(Render(x)[i])
  {
    match x
    case PriorityToken(p) =>
    case DateToken(_, d) =>
      DateClean(FormatIsoDate(d));
      LeadSpaceShape(LeadChar(x), FormatIsoDate(d));
    case RecurrenceToken(r) =>
      LeadSpaceShape(LeadChar(x), r);
  }

  /** The text of a date is free of metadata emoji and trimmed. */
  lemma DateClean(s: string)
    requires DateShape(s)
    ensures Clean(s) && s != [] && Trimmed(s)
  {
  }

  /** An emoji, a space and a clean trimmed word. */
  lemma LeadSpaceShape(e: char, w: string)
    requires Clean(w) && w != [] && Trimmed(w)
    ensures var s := [e] + " " + w; s[0] == e && Trimmed(s) == !IsSpace(e)
    ensures forall i :: 1 <= i < |[e] + " " + w| ==> !IsMetaChar(([e] + " " + w)[i])
  {
    var s := [e] + " " + w;
    assert s[|s| - 1] == w[|w| - 1];
    forall i | 1 <= i < |s| ensures !IsMetaChar(s[i]) {
      if i >= 2 {
        assert s[i] == w[i - 2];
      }
    }
  }

  lemma LeadKind(x: Token)
    requires TokenOk(x)
    ensures forall f :: LeadChar(x) == FieldEmoji(f) <==> KindOf(x) == DateKind(f)
    ensures IsPriorityEmoji(LeadChar(x)) <==> KindOf(x) == PriorityKind
    ensures LeadChar(x) == RecurrenceEmoji <==> KindOf(x) == RecurrenceKind
  {
  }

  // ------------------------------------------------------- peeling on tokens

  /** The first token of kind `k`. */
  function FirstOfKind(ts: seq<Token>, k: Kind): (r: Option<nat>)
    ensures r.Some? ==> r.value < |ts| && KindOf(ts[r.value]) == k
  {
    if ts == [] then None
    else if KindOf(ts[0]) == k then Some(0)
    else match FirstOfKind(ts[1..], k)
      case None => None
      case Some(i) => Some(i + 1)
  }

  /** `FirstOfKind` finds the leftmost token of the kind, and finds none
      only when there is none. */
  lemma {:induction false} FirstOfKindSpec(ts: seq<Token>, k: Kind)
    ensures FirstOfKind(ts, k).Some? ==> forall j :: 0 <= j < FirstOfKind(ts, k).value ==> KindOf(ts[j]) != k
    ensures FirstOfKind(ts, k).None? ==> forall j :: 0 <= j < |ts| ==> KindOf(ts[j]) != k
    decreases |ts|
  {
    if ts != [] && KindOf(ts[0]) != k {
      FirstOfKindSpec(ts[1..], k);
      assert forall j :: 1 <= j < |ts| ==> ts[j] == ts[1..][j - 1];
    }
  }

  /** A parser step on tokens: the first token of the kind, and the tokens
      before it. */
  function AbsPeel(ts: seq<Token>, k: Kind): (Option<Token>, seq<Token>) {
    match FirstOfKind(ts, k)
    case None => (None, ts)
    case Some(i) => (Some(ts[i]), ts[..i])
  }

  /** A step keeps only tokens that were there. */
  lemma AbsPeelOk(ts: seq<Token>, k: Kind)
    requires TokensOk(ts)
    ensures TokensOk(AbsPeel(ts, k).1)
  {
    if FirstOfKind(ts, k).Some? {
      var i := FirstOfKind(ts, k).value;
      assert forall x :: x in ts[..i] ==> x in ts;
    }
  }

  predicate NoKind(ts: seq<Token>, k: Kind) {
    forall x :: x in ts ==> KindOf(x) != k
  }

  /** A slot of a line: at most one token, of kind `k`. */
  predicate Slot(o: seq<Token>, k: Kind) {
    |o| <= 1 && forall x :: x in o ==> KindOf(x) == k
  }

  function First(o: seq<Token>): Option<Token> {
    if o == [] then None else Some(o[0])
  }

  /** A step whose kind occurs at most once, in `o`, between `a` and `b`:
      it reads `o` and cuts `b` off when `o` is there. */
  lemma PeelStep(a: seq<Token>, o: seq<Token>, b: seq<Token>, k: Kind)
    requires NoKind(a, k) && NoKind(b, k) && Slot(o, k)
    ensures AbsPeel(a + o + b, k).0 == First(o)
    ensures AbsPeel(a + o + b, k).1 == a + (if o == [] then b else [])
  {
    var ts := a + o + b;
    FirstOfKindSpec(ts, k);
    if o == [] {
      assert ts == a + b;
      assert forall j :: 0 <= j < |ts| ==> ts[j] in ts;
    } else {
      assert ts[|a|] == o[0];
      assert forall j :: 0 <= j < |a| ==> ts[j] == a[j] && a[j] in a;
      assert ts[..|a|] == a;
    }
  }

  /** A step whose kind occurs at most once, at the end. */
  lemma PeelLast(a: seq<Token>, o: seq<Token>, k: Kind)
    requires NoKind(a, k) && Slot(o, k)
    ensures AbsPeel(a + o, k).0 == First(o)
    ensures AbsPeel(a + o, k).1 == a
  {
    PeelStep(a, o, [], k);
    assert a + o + [] == a + o;
  }

  /** A step on a lone slot of its kind. */
  lemma PeelOnly(o: seq<Token>, k: Kind)
    requires Slot(o, k)
    ensures AbsPeel(o, k).0 == First(o)
    ensures AbsPeel(o, k).1 == []
  {
    PeelLast([], o, k);
    assert [] + o == o;
  }

  /** A step that finds nothing. */
  lemma PeelNone(a: seq<Token>, k: Kind)
    requires NoKind(a, k)
    ensures AbsPeel(a, k).0 == None
    ensures AbsPeel(a, k).1 == a
  {
    FirstOfKindSpec(a, k);
    assert forall j :: 0 <= j < |a| ==> a[j] in a;
  }

  lemma AppendAssoc(a: seq<Token>, b: seq<Token>, c: seq<Token>)
    ensures a + (b + c) == a + b + c
  {
  }

  /** The date field step `n` of `parse_task_line` reads, for the first
      five steps. */
  function StepField(n: nat): DateField {
    match n
    case 0 => Done
    case 1 => Due
    case 2 => Scheduled
    case 3 => Start
    case _ => Created
  }

  /** The kind step `n` of `parse_task_line` peels. */
  function PeelKind(n: nat): Kind {
    if n < 5 then DateKind(StepField(n)) else if n == 5 then PriorityKind else RecurrenceKind
  }

  /** The tokens left after the first `n` steps. */
  function Left(ts: seq<Token>, n: nat): seq<Token>
    requires n <= 7
  {
    if n == 0 then ts else AbsPeel(Left(ts, n - 1), PeelKind(n - 1)).1
  }

  /** The token step `n` reads. */
  function Read(ts: seq<Token>, n: nat): Option<Token>
    requires n < 7
  {
    AbsPeel(Left(ts, n), PeelKind(n)).0
  }

  lemma LeftOk(ts: seq<Token>, n: nat)
    requires TokensOk(ts) && n <= 7
    ensures forall m :: 0 <= m <= n ==> TokensOk(Left(ts, m))
  {
    if n > 0 {
      LeftOk(ts, n - 1);
      AbsPeelOk(Left(ts, n - 1), PeelKind(n - 1));
    }
  }

  /** The recurrence token, if any, is the last token. */
  predicate RecurrenceLast(ts: seq<Token>) {
    FirstOfKind(ts, RecurrenceKind).Some? ==> FirstOfKind(ts, RecurrenceKind).value == |ts| - 1
  }

  function DateOf(x: Option<Token>): Option<CalendarDate> {
    if x.Some? && x.value.DateToken? then Some(x.value.date) else None
  }

  function PriorityOf(x: Option<Token>): Priority {
    if x.Some? && x.value.PriorityToken? then x.value.p else Normal
  }

  function RuleOf(x: Option<Token>): Option<string> {
    if x.Some? && x.value.RecurrenceToken? then Some(x.value.rule) else None
  }

  // --------------------------------------------- from strings to token lists

  /** Content parts that no matcher can mistake for a token. */
  predicate PartsClean(ps: seq<string>) {
    forall i :: 0 <= i < |ps| ==> ps[i] != [] && Trimmed(ps[i]) && Clean(ps[i])
  }

  lemma BodyTrimmed(ps: seq<string>, ts: seq<Token>)
    requires PartsClean(ps) && TokensOk(ts)
    ensures PartsTrimmed(ps + RenderAll(ts))
  {
    var xs := ps + RenderAll(ts);
    forall i | 0 <= i < |xs| ensures xs[i] != [] && Trimmed(xs[i]) {
      if i >= |ps| {
        assert ts[i - |ps|] in ts;
        RenderShape(ts[i - |ps|]);
      }
    }
  }

  /** A metadata emoji that no token leads with does not occur. */
  lemma MetaAbsent(ps: seq<string>, ts: seq<Token>, c: char)
    requires PartsClean(ps) && TokensOk(ts) && IsMetaChar(c)
    requires forall x :: x in ts ==> LeadChar(x) != c
    ensures c !in SpaceJoin(ps + RenderAll(ts))
  {
    PiecesAbsent(ps, ts, c);
    SpaceJoinChars(ps + RenderAll(ts), c);
  }

  /** No content part or token text holds `c`. */
  lemma PiecesAbsent(ps: seq<string>, ts: seq<Token>, c: char)
    requires PartsClean(ps) && TokensOk(ts) && IsMetaChar(c)
    requires forall x :: x in ts ==> LeadChar(x) != c
    ensures forall i :: 0 <= i < |ps + RenderAll(ts)| ==> c !in (ps + RenderAll(ts))[i]
  {
    var xs := ps + RenderAll(ts);
    forall i | 0 <= i < |xs| ensures c !in xs[i] {
      if i < |ps| {
        assert xs[i] == ps[i];
      } else {
        TokenAbsent(ts[i - |ps|], c);
        assert xs[i] == Render(ts[i - |ps|]);
      }
    }
  }

  /** A token's text holds the metadata emoji it leads with and no other. */
  lemma TokenAbsent(x: Token, c: char)
    requires TokenOk(x) && IsMetaChar(c) && LeadChar(x) != c
    ensures c !in Render(x)
  {
    RenderShape(x);
  }

  lemma SplitAt(ts: seq<Token>, k: nat)
    requires k < |ts|
    ensures ts == ts[..k] + ([ts[k]] + ts[k + 1..])
  {
  }

  lemma Regroup(ps: seq<string>, a: seq<string>, x: string, b: seq<string>)
    ensures ps + (a + ([x] + b)) == (ps + a) + [x] + b
  {
  }

  /** The text before token `k` and the text of the token. */
  lemma SplitAtToken(ps: seq<string>, ts: seq<Token>, k: nat)
    requires k < |ts|
    ensures SpaceJoin(ps + RenderAll(ts))
         == JoinLead(ps + RenderAll(ts[..k])) + Render(ts[k]) + JoinTrail(RenderAll(ts[k + 1..]))
  {
    RenderAllSplit(ts, k);
    Regroup(ps, RenderAll(ts[..k]), Render(ts[k]), RenderAll(ts[k + 1..]));
    SpaceJoinAround(ps + RenderAll(ts[..k]), Render(ts[k]), RenderAll(ts[k + 1..]));
  }

  lemma RenderAllSplit(ts: seq<Token>, k: nat)
    requires k < |ts|
    ensures RenderAll(ts) == RenderAll(ts[..k]) + ([Render(ts[k])] + RenderAll(ts[k + 1..]))
  {
    var r := RenderAll(ts);
    RenderAllPrefix(ts, k);
    RenderAllSuffix(ts, k + 1);
    assert r[k] == Render(ts[k]);
    SeqSplit(r, k);
  }

  lemma RenderAllSuffix(ts: seq<Token>, k: nat)
    requires k <= |ts|
    ensures RenderAll(ts[k..]) == RenderAll(ts)[k..]
  {
  }

  lemma SeqSplit<T>(r: seq<T>, k: nat)
    requires k < |r|
    ensures r == r[..k] + ([r[k]] + r[k + 1..])
  {
  }

  /** Cutting before the separator of a token restores the join of the
      parts before it. */
  lemma LeadStrip(ps: seq<string>, ts: seq<Token>)
    requires PartsClean(ps) && TokensOk(ts)
    ensures RStrip(JoinLead(ps + RenderAll(ts))) == SpaceJoin(ps + RenderAll(ts))
  {
    var xs := ps + RenderAll(ts);
    BodyTrimmed(ps, ts);
    SpaceJoinTrimmed(xs);
    if xs != [] {
      RStripTrailingSpaces(SpaceJoin(xs), " ");
    }
  }

  /** No token before `k` leads with `c`, so `c` is absent before token `k`. */
  lemma LeadAbsent(ps: seq<string>, ts: seq<Token>, k: nat, c: char)
    requires PartsClean(ps) && TokensOk(ts) && IsMetaChar(c) && k <= |ts|
    requires forall j :: 0 <= j < k ==> LeadChar(ts[j]) != c
    ensures forall j :: 0 <= j < |JoinLead(ps + RenderAll(ts[..k]))| ==> JoinLead(ps + RenderAll(ts[..k]))[j] != c
  {
    assert forall x :: x in ts[..k] ==> x in ts && LeadChar(x) != c;
    MetaAbsent(ps, ts[..k], c);
  }

  /** A stretch without `e` holds no token for `e`. */
  lemma NoTokenBefore(s: string, n: nat, e: char)
    requires n <= |s|
    requires forall j :: 0 <= j < n ==> s[j] != e
    ensures forall j :: 0 <= j < n ==> !DateTokenAt(s, j, e)
  {
  }

  /** The date step on a text whose first token for `e` is `tok`, after a
      stretch without `e`. */
  lemma PeelTokenFirst(pre: string, tok: string, post: string, e: char)
    requires forall j :: 0 <= j < |pre| ==> pre[j] != e
    requires |tok| == 12 && tok[0] == e && tok[1] == ' ' && DateShape(tok[2..])
    ensures PeelDate(pre + tok + post, e).0 == ParseIsoDate(tok[2..])
    ensures PeelDate(pre + tok + post, e).0.Some? ==> PeelDate(pre + tok + post, e).1 == RStrip(pre)
  {
    var s := pre + tok + post;
    var n := |pre|;
    assert s[..n] == pre;
    assert forall j :: 0 <= j < n ==> s[j] != e by {
      forall j | 0 <= j < n ensures s[j] != e {
        assert s[j] == pre[j];
      }
    }
    NoTokenBefore(s, n, e);
    assert s[n] == e && s[n + 1] == ' ';
    assert s[n + 2..n + 12] == tok[2..];
    assert DateTokenAt(s, n, e);
    PeelDateSpec(s, e, n);
  }

  /** The date step on a text whose first date token for `e` follows a
      stretch without `e`. */
  lemma PeelDateFirst(pre: string, d: CalendarDate, post: string, e: char)
    requires forall j :: 0 <= j < |pre| ==> pre[j] != e
    ensures PeelDate(pre + ([e] + " " + FormatIsoDate(d)) + post, e).0 == Some(d)
    ensures PeelDate(pre + ([e] + " " + FormatIsoDate(d)) + post, e).1 == RStrip(pre)
  {
    var f := FormatIsoDate(d);
    var tok := [e] + " " + f;
    assert tok[2..] == f;
    ParseFormatIsoDate(d);
    PeelTokenFirst(pre, tok, post, e);
  }

  lemma FindPriorityAfter(pre: string, c: char, post: string)
    requires IsPriorityEmoji(c)
    requires forall j :: 0 <= j < |pre| ==> !IsPriorityEmoji(pre[j])
    ensures FindPriorityEmoji(pre + [c] + post, 0) == Some(|pre|)
  {
    var s := pre + [c] + post;
    assert s[|pre|] == c;
    assert forall j :: 0 <= j < |pre| ==> s[j] == pre[j];
  }

  lemma PeelPriorityAt(s: string, i: nat)
    requires FindPriorityEmoji(s, 0) == Some(i)
    ensures s[i] in EmojiPriorityMap
    ensures PeelPriority(s).0 == EmojiPriorityMap[s[i]]
    ensures PeelPriority(s).1 == RStrip(s[..i])
  {
    PriorityEmojiKeys(s[i]);
  }

  /** The priority step on a text whose first priority emoji is `p`'s. */
  lemma PeelPriorityFirst(pre: string, p: Priority, post: string)
    requires p != Normal
    requires forall j :: 0 <= j < |pre| ==> !IsPriorityEmoji(pre[j])
    ensures PeelPriority(pre + [PriorityEmojiMap[p]] + post).0 == p
    ensures PeelPriority(pre + [PriorityEmojiMap[p]] + post).1 == RStrip(pre)
  {
    PriorityMapsInverse();
    var c := PriorityEmojiMap[p];
    var s := pre + [c] + post;
    FindPriorityAfter(pre, c, post);
    PeelPriorityAt(s, |pre|);
    assert s[|pre|] == c;
    assert s[..|pre|] == pre;
  }

  lemma FindRecurrenceAfter(pre: string, r: string)
    requires forall j :: 0 <= j < |pre| ==> pre[j] != RecurrenceEmoji
    ensures FindChar(pre + ([RecurrenceEmoji] + " " + r), RecurrenceEmoji, 0) == Some(|pre|)
  {
    var s := pre + ([RecurrenceEmoji] + " " + r);
    assert s[|pre|] == RecurrenceEmoji;
    assert forall j :: 0 <= j < |pre| ==> s[j] == pre[j];
  }

  lemma PeelRecurrenceAt(s: string, i: nat)
    requires FindChar(s, RecurrenceEmoji, 0) == Some(i)
    ensures PeelRecurrence(s).1 == RStrip(s[..i])
    ensures PeelRecurrence(s).0 == Some(Strip(s[i + 1..]))
  {
  }

  lemma StripAfterSpace(r: string)
    requires Trimmed(r)
    ensures Strip(" " + r) == r
  {
    LStripLeadingSpaces(" ", r);
    StripOfTrimmed(r);
  }

  lemma RecurrenceSlices(pre: string, r: string)
    ensures (pre + ([RecurrenceEmoji] + " " + r))[..|pre|] == pre
    ensures (pre + ([RecurrenceEmoji] + " " + r))[|pre| + 1..] == " " + r
  {
  }

  /** The recurrence step on a text that ends with its only recurrence token. */
  lemma PeelRecurrenceLast(pre: string, r: string)
    requires forall j :: 0 <= j < |pre| ==> pre[j] != RecurrenceEmoji
    requires Trimmed(r) && r != []
    ensures PeelRecurrence(pre + ([RecurrenceEmoji] + " " + r)).0 == Some(r)
    ensures PeelRecurrence(pre + ([RecurrenceEmoji] + " " + r)).1 == RStrip(pre)
  {
    var s := pre + ([RecurrenceEmoji] + " " + r);
    var i := |pre|;
    RecurrenceSlices(pre, r);
    FindRecurrenceAfter(pre, r);
    PeelRecurrenceAt(s, i);
    StripAfterSpace(r);
  }

  /** The first token of kind `k` splits the line; no token before it
      leads with a character `bad` rejects. */
  lemma SplitBeforeKind(ps: seq<string>, ts: seq<Token>, k: Kind, i: nat, bad: char -> bool)
    requires PartsClean(ps) && TokensOk(ts)
    requires FirstOfKind(ts, k) == Some(i)
    requires forall x :: TokenOk(x) && KindOf(x) != k ==> !bad(LeadChar(x))
    requires forall c :: bad(c) ==> IsMetaChar(c)
    ensures var pre := JoinLead(ps + RenderAll(ts[..i]));
      && SpaceJoin(ps + RenderAll(ts)) == pre + Render(ts[i]) + JoinTrail(RenderAll(ts[i + 1..]))
      && (forall j :: 0 <= j < |pre| ==> !bad(pre[j]))
      && RStrip(pre) == SpaceJoin(ps + RenderAll(AbsPeel(ts, k).1))
  {
    var pre := JoinLead(ps + RenderAll(ts[..i]));
    SplitAtToken(ps, ts, i);
    assert forall j :: 0 <= j < |pre| ==> !bad(pre[j]) by {
      FirstOfKindSpec(ts, k);
      forall c | bad(c) ensures forall j :: 0 <= j < |pre| ==> pre[j] != c {
        forall j | 0 <= j < i ensures LeadChar(ts[j]) != c {
          assert ts[j] in ts;
        }
        LeadAbsent(ps, ts, i, c);
      }
    }
    assert RStrip(pre) == SpaceJoin(ps + RenderAll(AbsPeel(ts, k).1)) by {
      assert AbsPeel(ts, k).1 == ts[..i];
      assert forall x :: x in ts[..i] ==> x in ts;
      LeadStrip(ps, ts[..i]);
    }
  }

  /** The date step on a line of tokens is the date step on the tokens. */
  lemma BridgeDate(ps: seq<string>, ts: seq<Token>, f: DateField)
    requires PartsClean(ps) && TokensOk(ts)
    ensures PeelDate(SpaceJoin(ps + RenderAll(ts)), FieldEmoji(f)).0 == DateOf(AbsPeel(ts, DateKind(f)).0)
    ensures PeelDate(SpaceJoin(ps + RenderAll(ts)), FieldEmoji(f)).1
         == SpaceJoin(ps + RenderAll(AbsPeel(ts, DateKind(f)).1))
  {
    var e := FieldEmoji(f);
    FirstOfKindSpec(ts, DateKind(f));
    match FirstOfKind(ts, DateKind(f))
    case None =>
      forall x | x in ts ensures LeadChar(x) != e {
        LeadKind(x);
      }
      MetaAbsent(ps, ts, e);
      PeelDateAbsent(SpaceJoin(ps + RenderAll(ts)), e);
    case Some(i) =>
      forall x | TokenOk(x) && KindOf(x) != DateKind(f) ensures LeadChar(x) != e {
        LeadKind(x);
      }
      SplitBeforeKind(ps, ts, DateKind(f), i, c => c == e);
      assert ts[i] in ts;
      PeelDateFirst(JoinLead(ps + RenderAll(ts[..i])), ts[i].date, JoinTrail(RenderAll(ts[i + 1..])), e);
  }

  /** The same for the priority step. */
  lemma BridgePriority(ps: seq<string>, ts: seq<Token>)
    requires PartsClean(ps) && TokensOk(ts)
    ensures PeelPriority(SpaceJoin(ps + RenderAll(ts))).0 == PriorityOf(AbsPeel(ts, PriorityKind).0)
    ensures PeelPriority(SpaceJoin(ps + RenderAll(ts))).1 == SpaceJoin(ps + RenderAll(AbsPeel(ts, PriorityKind).1))
  {
    var s := SpaceJoin(ps + RenderAll(ts));
    FirstOfKindSpec(ts, PriorityKind);
    match FirstOfKind(ts, PriorityKind)
    case None =>
      forall c | IsPriorityEmoji(c) ensures c !in s {
        forall x | x in ts ensures LeadChar(x) != c {
          LeadKind(x);
        }
        MetaAbsent(ps, ts, c);
      }
    case Some(i) =>
      forall x | TokenOk(x) && KindOf(x) != PriorityKind ensures !IsPriorityEmoji(LeadChar(x)) {
        LeadKind(x);
      }
      SplitBeforeKind(ps, ts, PriorityKind, i, IsPriorityEmoji);
      assert ts[i] in ts;
      PriorityMapsInverse();
      PeelPriorityFirst(JoinLead(ps + RenderAll(ts[..i])), ts[i].p, JoinTrail(RenderAll(ts[i + 1..])));
  }

  /** The same for the recurrence step, when the recurrence token, if any,
      is the last one left. */
  lemma BridgeRecurrence(ps: seq<string>, ts: seq<Token>)
    requires PartsClean(ps) && TokensOk(ts)
    requires RecurrenceLast(ts)
    ensures PeelRecurrence(SpaceJoin(ps + RenderAll(ts))).0 == RuleOf(AbsPeel(ts, RecurrenceKind).0)
    ensures PeelRecurrence(SpaceJoin(ps + RenderAll(ts))).1
         == SpaceJoin(ps + RenderAll(AbsPeel(ts, RecurrenceKind).1))
  {
    FirstOfKindSpec(ts, RecurrenceKind);
    match FirstOfKind(ts, RecurrenceKind)
    case None =>
      forall x | x in ts ensures LeadChar(x) != RecurrenceEmoji {
        LeadKind(x);
      }
      MetaAbsent(ps, ts, RecurrenceEmoji);
    case Some(i) =>
      BridgeRecurrenceFound(ps, ts, i);
  }

  /** The recurrence step when the recurrence token is the last token. */
  lemma BridgeRecurrenceFound(ps: seq<string>, ts: seq<Token>, i: nat)
    requires PartsClean(ps) && TokensOk(ts)
    requires FirstOfKind(ts, RecurrenceKind) == Some(i) && i == |ts| - 1
    ensures PeelRecurrence(SpaceJoin(ps + RenderAll(ts))).0 == Some(ts[i].rule)
    ensures PeelRecurrence(SpaceJoin(ps + RenderAll(ts))).1 == SpaceJoin(ps + RenderAll(ts[..i]))
  {
    var pre := JoinLead(ps + RenderAll(ts[..i]));
    assert ts[i] in ts;
    assert SpaceJoin(ps + RenderAll(ts)) == pre + ([RecurrenceEmoji] + " " + ts[i].rule)
        && (forall j :: 0 <= j < |pre| ==> pre[j] != RecurrenceEmoji)
        && RStrip(pre) == SpaceJoin(ps + RenderAll(ts[..i])) by {
      forall x | TokenOk(x) && KindOf(x) != RecurrenceKind ensures LeadChar(x) != RecurrenceEmoji {
        LeadKind(x);
      }
      SplitBeforeKind(ps, ts, RecurrenceKind, i, c => c == RecurrenceEmoji);
      assert ts[i + 1..] == [];
    }
    PeelRecurrenceLast(pre, ts[i].rule);
  }

  // ------------------------------------------------ parsing a rendered line

  function BodyParts(c: string): seq<string> {
    if c == [] then [] else [c]
  }

  function Marker(status: Status): char {
    if status == Completed then 'x' else ' '
  }

  lemma MatchBox(status: Status, rest: string)
    requires rest == [] || IsSpace(rest[0])
    ensures MatchCheckbox(CheckboxText(status) + rest).Some?
    ensures MatchCheckbox(CheckboxText(status) + rest).value.0 == Marker(status)
    ensures MatchCheckbox(CheckboxText(status) + rest).value.1 == if rest == [] then [] else rest[1..]
  {
    var l := CheckboxText(status) + rest;
    assert l[..5] == CheckboxText(status);
    assert l[3] == Marker(status);
    if rest != [] {
      assert l[5] == rest[0];
      assert l[6..] == rest[1..];
    }
  }

  /** A checkbox, one or two spaces and a non-empty trimmed body. */
  lemma CheckboxLine(status: Status, w: string, body: string)
    requires Trimmed(body) && body != [] && 1 <= |w| <= 2 && forall i :: 0 <= i < |w| ==> w[i] == ' '
    ensures MatchCheckbox(Strip(CheckboxText(status) + w + body)).Some?
    ensures MatchCheckbox(Strip(CheckboxText(status) + w + body)).value.0 == Marker(status)
    ensures Strip(MatchCheckbox(Strip(CheckboxText(status) + w + body)).value.1) == body
  {
    BoxLineStripped(status, w, body);
    MatchBox(status, w + body);
    BoxRestStripped(w, body);
  }

  lemma BoxLineStripped(status: Status, w: string, body: string)
    requires Trimmed(body) && body != [] && 1 <= |w| <= 2 && forall i :: 0 <= i < |w| ==> w[i] == ' '
    ensures Strip(CheckboxText(status) + w + body) == CheckboxText(status) + (w + body)
  {
    var line := CheckboxText(status) + (w + body);
    assert CheckboxText(status) + w + body == line;
    assert line[0] == '-' && line[|line| - 1] == body[|body| - 1];
    StripOfTrimmed(line);
  }

  lemma BoxRestStripped(w: string, body: string)
    requires Trimmed(body) && body != [] && 1 <= |w| <= 2 && forall i :: 0 <= i < |w| ==> w[i] == ' '
    ensures Strip((w + body)[1..]) == body
  {
    assert (w + body)[1..] == w[1..] + body;
    LStripLeadingSpaces(w[1..], body);
    StripOfTrimmed(body);
  }

  /** A checkbox and a single space. */
  lemma CheckboxOnly(status: Status)
    ensures MatchCheckbox(Strip(CheckboxText(status) + " ")).Some?
    ensures MatchCheckbox(Strip(CheckboxText(status) + " ")).value.0 == Marker(status)
    ensures MatchCheckbox(Strip(CheckboxText(status) + " ")).value.1 == []
  {
    StripBoxSpace(status);
    MatchBoxAlone(status);
  }

  lemma StripBoxSpace(status: Status)
    ensures Strip(CheckboxText(status) + " ") == CheckboxText(status)
  {
    var box := CheckboxText(status);
    assert (box + " ")[0] == '-';
    assert LStrip(box + " ") == box + " ";
    assert box[|box| - 1] == ']';
    RStripTrailingSpaces(box, " ");
  }

  lemma MatchBoxAlone(status: Status)
    ensures MatchCheckbox(CheckboxText(status)).Some?
    ensures MatchCheckbox(CheckboxText(status)).value.0 == Marker(status)
    ensures MatchCheckbox(CheckboxText(status)).value.1 == []
  {
    assert CheckboxText(status) + [] == CheckboxText(status);
    MatchBox(status, []);
  }

  /** The body after a non-empty content is non-empty and trimmed. */
  lemma RenderedBody(ps: seq<string>, ts: seq<Token>)
    requires PartsClean(ps) && TokensOk(ts) && (ps != [] || ts != [])
    ensures SpaceJoin(ps + RenderAll(ts)) != [] && Trimmed(SpaceJoin(ps + RenderAll(ts)))
  {
    BodyTrimmed(ps, ts);
    SpaceJoinTrimmed(ps + RenderAll(ts));
  }

  /** `parse_task_line` on a line whose stripped text has the checkbox of
      `status` followed by `body`. */
  lemma ParseBoxed(status: Status, line: string, body: string, ln: int, sf: string)
    requires MatchCheckbox(Strip(line)).Some? && MatchCheckbox(Strip(line)).value.0 == Marker(status)
    requires Strip(MatchCheckbox(Strip(line)).value.1) == body
    ensures ParseTaskLine(line, ln, sf) == Some(ParseBody(status, body, ln, sf))
  {
    MarkerStatus(status);
  }

  /** The mark written for a status is read back as that status. */
  lemma MarkerStatus(status: Status)
    ensures (if AsciiLower(Marker(status)) == 'x' then Completed else Incomplete) == status
  {
    if status == Completed {
      assert AsciiLower('x') == 'x';
    } else {
      assert AsciiLower(' ') == ' ';
    }
  }

  lemma RenderedLineContent(status: Status, c: string, ts: seq<Token>, ln: int, sf: string)
    requires Trimmed(c) && Clean(c) && TokensOk(ts) && c != []
    ensures ParseTaskLine(CheckboxText(status) + " " + SpaceJoin([c] + RenderAll(ts)), ln, sf)
         == Some(ParseBody(status, SpaceJoin(BodyParts(c) + RenderAll(ts)), ln, sf))
  {
    var body := SpaceJoin(BodyParts(c) + RenderAll(ts));
    assert BodyParts(c) + RenderAll(ts) == [c] + RenderAll(ts);
    RenderedBody(BodyParts(c), ts);
    CheckboxLine(status, " ", body);
    ParseBoxed(status, CheckboxText(status) + " " + body, body, ln, sf);
  }

  lemma RenderedLineTokens(status: Status, ts: seq<Token>, ln: int, sf: string)
    requires TokensOk(ts) && ts != []
    ensures ParseTaskLine(CheckboxText(status) + " " + SpaceJoin([""] + RenderAll(ts)), ln, sf)
         == Some(ParseBody(status, SpaceJoin(BodyParts("") + RenderAll(ts)), ln, sf))
  {
    var box := CheckboxText(status);
    var body := SpaceJoin(BodyParts("") + RenderAll(ts));
    var line := box + " " + SpaceJoin([""] + RenderAll(ts));
    assert SpaceJoin([""] + RenderAll(ts)) == " " + body by {
      assert BodyParts("") + RenderAll(ts) == RenderAll(ts);
      SpaceJoinCons("", RenderAll(ts));
    }
    assert Trimmed(body) && body != [] by {
      RenderedBody(BodyParts(""), ts);
    }
    CheckboxTwoSpaces(status, body);
    ParseBoxed(status, line, body, ln, sf);
  }

  /** A checkbox, two spaces and a non-empty trimmed body. */
  lemma CheckboxTwoSpaces(status: Status, body: string)
    requires Trimmed(body) && body != []
    ensures MatchCheckbox(Strip(CheckboxText(status) + " " + (" " + body))).Some?
    ensures MatchCheckbox(Strip(CheckboxText(status) + " " + (" " + body))).value.0 == Marker(status)
    ensures Strip(MatchCheckbox(Strip(CheckboxText(status) + " " + (" " + body))).value.1) == body
  {
    assert CheckboxText(status) + " " + (" " + body) == CheckboxText(status) + "  " + body;
    CheckboxLine(status, "  ", body);
  }

  lemma RenderedLineEmpty(status: Status, ln: int, sf: string)
    ensures ParseTaskLine(CheckboxText(status) + " " + SpaceJoin([""] + RenderAll([])), ln, sf)
         == Some(ParseBody(status, SpaceJoin(BodyParts("") + RenderAll([])), ln, sf))
  {
    var line := CheckboxText(status) + " " + SpaceJoin([""] + RenderAll([]));
    assert line == CheckboxText(status) + " " by {
      assert [""] + RenderAll([]) == [""];
    }
    assert SpaceJoin(BodyParts("") + RenderAll([])) == [] by {
      assert BodyParts("") + RenderAll([]) == [];
    }
    CheckboxOnly(status);
    ParseBoxed(status, line, [], ln, sf);
  }

  /** `parse_task_line` on a rendered line reaches the metadata steps with
      the joined content and tokens. */
  lemma ParseRenderedLine(status: Status, c: string, ts: seq<Token>, ln: int, sf: string)
    requires Trimmed(c) && Clean(c) && TokensOk(ts)
    ensures ParseTaskLine(CheckboxText(status) + " " + SpaceJoin([c] + RenderAll(ts)), ln, sf)
         == Some(ParseBody(status, SpaceJoin(BodyParts(c) + RenderAll(ts)), ln, sf))
  {
    if c != [] {
      RenderedLineContent(status, c, ts, ln, sf);
    } else if ts != [] {
      RenderedLineTokens(status, ts, ln, sf);
    } else {
      RenderedLineEmpty(status, ln, sf);
    }
  }

  /** `acc` with the fields of steps `n` to 6 read from the tokens, and the
      content and tags of the text of the tokens left after all seven. */
  function Fill(acc: Task, ps: seq<string>, ts: seq<Token>, n: nat): Task
    requires n <= 7
  {
    var rest := SpaceJoin(ps + RenderAll(Left(ts, 7)));
    acc.(doneDate := if n <= 0 then DateOf(Read(ts, 0)) else acc.doneDate,
         dueDate := if n <= 1 then DateOf(Read(ts, 1)) else acc.dueDate,
         scheduledDate := if n <= 2 then DateOf(Read(ts, 2)) else acc.scheduledDate,
         startDate := if n <= 3 then DateOf(Read(ts, 3)) else acc.startDate,
         createdDate := if n <= 4 then DateOf(Read(ts, 4)) else acc.createdDate,
         priority := if n <= 5 then PriorityOf(Read(ts, 5)) else acc.priority,
         recurrence := if n <= 6 then RuleOf(Read(ts, 6)) else acc.recurrence,
         content := Strip(rest), tags := Tags(rest))
  }

  /** `acc` with the field of step `n` read from the tokens. */
  function SetField(acc: Task, n: nat, ts: seq<Token>): Task
    requires n < 7
  {
    match n
    case 0 => acc.(doneDate := DateOf(Read(ts, 0)))
    case 1 => acc.(dueDate := DateOf(Read(ts, 1)))
    case 2 => acc.(scheduledDate := DateOf(Read(ts, 2)))
    case 3 => acc.(startDate := DateOf(Read(ts, 3)))
    case 4 => acc.(createdDate := DateOf(Read(ts, 4)))
    case 5 => acc.(priority := PriorityOf(Read(ts, 5)))
    case _ => acc.(recurrence := RuleOf(Read(ts, 6)))
  }

  lemma FillSetField(acc: Task, ps: seq<string>, ts: seq<Token>, n: nat)
    requires n < 7
    ensures Fill(SetField(acc, n, ts), ps, ts, n + 1) == Fill(acc, ps, ts, n)
  {
  }

  /** The metadata steps of `parse_task_line`, computed on tokens. */
  function AbsParse(ps: seq<string>, status: Status, ts: seq<Token>, ln: int, sf: string): Task {
    Fill(Blank(status, ln, sf), ps, ts, 0)
  }

  /** Date step `n` on the text of the tokens left before it. */
  lemma BridgeDateAt(ps: seq<string>, ts: seq<Token>, n: nat, f: DateField, e: char)
    requires n < 5 && PeelKind(n) == DateKind(f) && e == FieldEmoji(f)
    requires PartsClean(ps) && TokensOk(Left(ts, n))
    ensures PeelDate(SpaceJoin(ps + RenderAll(Left(ts, n))), e).1 == SpaceJoin(ps + RenderAll(Left(ts, n + 1)))
    ensures PeelDate(SpaceJoin(ps + RenderAll(Left(ts, n))), e).0 == DateOf(Read(ts, n))
  {
    assert Left(ts, n + 1) == AbsPeel(Left(ts, n), DateKind(f)).1;
    BridgeDate(ps, Left(ts, n), f);
  }

  /** The priority step on the text of the tokens left before it. */
  lemma BridgePriorityAt(ps: seq<string>, ts: seq<Token>)
    requires PartsClean(ps) && TokensOk(Left(ts, 5))
    ensures PeelPriority(SpaceJoin(ps + RenderAll(Left(ts, 5)))).1 == SpaceJoin(ps + RenderAll(Left(ts, 6)))
    ensures PeelPriority(SpaceJoin(ps + RenderAll(Left(ts, 5)))).0 == PriorityOf(Read(ts, 5))
  {
    assert Left(ts, 6) == AbsPeel(Left(ts, 5), PriorityKind).1;
    BridgePriority(ps, Left(ts, 5));
  }

  /** The recurrence step on the text of the tokens left before it. */
  lemma BridgeRecurrenceAt(ps: seq<string>, ts: seq<Token>)
    requires PartsClean(ps) && TokensOk(Left(ts, 6)) && RecurrenceLast(Left(ts, 6))
    ensures PeelRecurrence(SpaceJoin(ps + RenderAll(Left(ts, 6)))).1 == SpaceJoin(ps + RenderAll(Left(ts, 7)))
    ensures PeelRecurrence(SpaceJoin(ps + RenderAll(Left(ts, 6)))).0 == RuleOf(Read(ts, 6))
  {
    assert Left(ts, 7) == AbsPeel(Left(ts, 6), RecurrenceKind).1;
    BridgeRecurrence(ps, Left(ts, 6));
  }

  /** One metadata step on the text of content parts and tokens is the same
      step on the tokens. */
  lemma StepRendered(ps: seq<string>, ts: seq<Token>, n: nat, acc: Task)
    requires n < 7 && PartsClean(ps) && TokensOk(Left(ts, n))
    requires n == 6 ==> RecurrenceLast(Left(ts, 6))
    ensures Step(SpaceJoin(ps + RenderAll(Left(ts, n))), n, acc).1 == SpaceJoin(ps + RenderAll(Left(ts, n + 1)))
    ensures Fill(Step(SpaceJoin(ps + RenderAll(Left(ts, n))), n, acc).0, ps, ts, n + 1) == Fill(acc, ps, ts, n)
  {
    if n < 3 {
      StepRenderedEarly(ps, ts, n, acc);
    } else if n < 5 {
      StepRenderedMiddle(ps, ts, n, acc);
    } else {
      StepRenderedLate(ps, ts, n, acc);
    }
  }

  lemma StepRenderedEarly(ps: seq<string>, ts: seq<Token>, n: nat, acc: Task)
    requires n < 3 && PartsClean(ps) && TokensOk(Left(ts, n))
    ensures Step(SpaceJoin(ps + RenderAll(Left(ts, n))), n, acc).1 == SpaceJoin(ps + RenderAll(Left(ts, n + 1)))
    ensures Fill(Step(SpaceJoin(ps + RenderAll(Left(ts, n))), n, acc).0, ps, ts, n + 1) == Fill(acc, ps, ts, n)
  {
    if n == 0 {
      StepRenderedDone(ps, ts, acc);
    } else if n == 1 {
      StepRenderedDue(ps, ts, acc);
    } else {
      StepRenderedScheduled(ps, ts, acc);
    }
  }

  lemma StepRenderedMiddle(ps: seq<string>, ts: seq<Token>, n: nat, acc: Task)
    requires 3 <= n < 5 && PartsClean(ps) && TokensOk(Left(ts, n))
    ensures Step(SpaceJoin(ps + RenderAll(Left(ts, n))), n, acc).1 == SpaceJoin(ps + RenderAll(Left(ts, n + 1)))
    ensures Fill(Step(SpaceJoin(ps + RenderAll(Left(ts, n))), n, acc).0, ps, ts, n + 1) == Fill(acc, ps, ts, n)
  {
    if n == 3 {
      StepRenderedStart(ps, ts, acc);
    } else {
      StepRenderedCreated(ps, ts, acc);
    }
  }

  lemma StepRenderedDone(ps: seq<string>, ts: seq<Token>, acc: Task)
    requires PartsClean(ps) && TokensOk(Left(ts, 0))
    ensures Step(SpaceJoin(ps + RenderAll(Left(ts, 0))), 0, acc).1 == SpaceJoin(ps + RenderAll(Left(ts, 1)))
    ensures Fill(Step(SpaceJoin(ps + RenderAll(Left(ts, 0))), 0, acc).0, ps, ts, 1) == Fill(acc, ps, ts, 0)
  {
    var text := SpaceJoin(ps + RenderAll(Left(ts, 0)));
    assert Step(text, 0, acc).0 == SetField(acc, 0, ts) && Step(text, 0, acc).1 == SpaceJoin(ps + RenderAll(Left(ts, 1))) by {
      BridgeDateAt(ps, ts, 0, Done, DoneEmoji);
    }
    FillSetField(acc, ps, ts, 0);
  }

  lemma StepRenderedDue(ps: seq<string>, ts: seq<Token>, acc: Task)
    requires PartsClean(ps) && TokensOk(Left(ts, 1))
    ensures Step(SpaceJoin(ps + RenderAll(Left(ts, 1))), 1, acc).1 == SpaceJoin(ps + RenderAll(Left(ts, 2)))
    ensures Fill(Step(SpaceJoin(ps + RenderAll(Left(ts, 1))), 1, acc).0, ps, ts, 2) == Fill(acc, ps, ts, 1)
  {
    var text := SpaceJoin(ps + RenderAll(Left(ts, 1)));
    assert Step(text, 1, acc).0 == SetField(acc, 1, ts) && Step(text, 1, acc).1 == SpaceJoin(ps + RenderAll(Left(ts, 2))) by {
      BridgeDateAt(ps, ts, 1, Due, DueEmoji);
    }
    FillSetField(acc, ps, ts, 1);
  }

  lemma StepRenderedScheduled(ps: seq<string>, ts: seq<Token>, acc: Task)
    requires PartsClean(ps) && TokensOk(Left(ts, 2))
    ensures Step(SpaceJoin(ps + RenderAll(Left(ts, 2))), 2, acc).1 == SpaceJoin(ps + RenderAll(Left(ts, 3)))
    ensures Fill(Step(SpaceJoin(ps + RenderAll(Left(ts, 2))), 2, acc).0, ps, ts, 3) == Fill(acc, ps, ts, 2)
  {
    var text := SpaceJoin(ps + RenderAll(Left(ts, 2)));
    assert Step(text, 2, acc).0 == SetField(acc, 2, ts) && Step(text, 2, acc).1 == SpaceJoin(ps + RenderAll(Left(ts, 3))) by {
      BridgeDateAt(ps, ts, 2, Scheduled, ScheduledEmoji);
    }
    FillSetField(acc, ps, ts, 2);
  }

  lemma StepRenderedStart(ps: seq<string>, ts: seq<Token>, acc: Task)
    requires PartsClean(ps) && TokensOk(Left(ts, 3))
    ensures Step(SpaceJoin(ps + RenderAll(Left(ts, 3))), 3, acc).1 == SpaceJoin(ps + RenderAll(Left(ts, 4)))
    ensures Fill(Step(SpaceJoin(ps + RenderAll(Left(ts, 3))), 3, acc).0, ps, ts, 4) == Fill(acc, ps, ts, 3)
  {
    var text := SpaceJoin(ps + RenderAll(Left(ts, 3)));
    assert Step(text, 3, acc).0 == SetField(acc, 3, ts) && Step(text, 3, acc).1 == SpaceJoin(ps + RenderAll(Left(ts, 4))) by {
      BridgeDateAt(ps, ts, 3, Start, StartEmoji);
    }
    FillSetField(acc, ps, ts, 3);
  }

  lemma StepRenderedCreated(ps: seq<string>, ts: seq<Token>, acc: Task)
    requires PartsClean(ps) && TokensOk(Left(ts, 4))
    ensures Step(SpaceJoin(ps + RenderAll(Left(ts, 4))), 4, acc).1 == SpaceJoin(ps + RenderAll(Left(ts, 5)))
    ensures Fill(Step(SpaceJoin(ps + RenderAll(Left(ts, 4))), 4, acc).0, ps, ts, 5) == Fill(acc, ps, ts, 4)
  {
    var text := SpaceJoin(ps + RenderAll(Left(ts, 4)));
    assert Step(text, 4, acc).0 == SetField(acc, 4, ts) && Step(text, 4, acc).1 == SpaceJoin(ps + RenderAll(Left(ts, 5))) by {
      BridgeDateAt(ps, ts, 4, Created, CreatedEmoji);
    }
    FillSetField(acc, ps, ts, 4);
  }

  lemma StepRenderedLate(ps: seq<string>, ts: seq<Token>, n: nat, acc: Task)
    requires 5 <= n < 7 && PartsClean(ps) && TokensOk(Left(ts, n))
    requires n == 6 ==> RecurrenceLast(Left(ts, 6))
    ensures Step(SpaceJoin(ps + RenderAll(Left(ts, n))), n, acc).1 == SpaceJoin(ps + RenderAll(Left(ts, n + 1)))
    ensures Fill(Step(SpaceJoin(ps + RenderAll(Left(ts, n))), n, acc).0, ps, ts, n + 1) == Fill(acc, ps, ts, n)
  {
    if n == 5 {
      StepRenderedPriority(ps, ts, acc);
    } else {
      StepRenderedRecurrence(ps, ts, acc);
    }
  }

  lemma StepRenderedPriority(ps: seq<string>, ts: seq<Token>, acc: Task)
    requires PartsClean(ps) && TokensOk(Left(ts, 5))
    ensures Step(SpaceJoin(ps + RenderAll(Left(ts, 5))), 5, acc).1 == SpaceJoin(ps + RenderAll(Left(ts, 6)))
    ensures Fill(Step(SpaceJoin(ps + RenderAll(Left(ts, 5))), 5, acc).0, ps, ts, 6) == Fill(acc, ps, ts, 5)
  {
    var text := SpaceJoin(ps + RenderAll(Left(ts, 5)));
    assert Step(text, 5, acc).0 == SetField(acc, 5, ts) && Step(text, 5, acc).1 == SpaceJoin(ps + RenderAll(Left(ts, 6))) by {
      BridgePriorityAt(ps, ts);
    }
    FillSetField(acc, ps, ts, 5);
  }

  lemma StepRenderedRecurrence(ps: seq<string>, ts: seq<Token>, acc: Task)
    requires PartsClean(ps) && TokensOk(Left(ts, 6)) && RecurrenceLast(Left(ts, 6))
    ensures Step(SpaceJoin(ps + RenderAll(Left(ts, 6))), 6, acc).1 == SpaceJoin(ps + RenderAll(Left(ts, 7)))
    ensures Fill(Step(SpaceJoin(ps + RenderAll(Left(ts, 6))), 6, acc).0, ps, ts, 7) == Fill(acc, ps, ts, 6)
  {
    var text := SpaceJoin(ps + RenderAll(Left(ts, 6)));
    assert Step(text, 6, acc).0 == SetField(acc, 6, ts) && Step(text, 6, acc).1 == SpaceJoin(ps + RenderAll(Left(ts, 7))) by {
      BridgeRecurrenceAt(ps, ts);
    }
    FillSetField(acc, ps, ts, 6);
  }

  /** Once all seven steps are done, the content and tags are those of the
      text of the tokens left. */
  lemma StepsDone(ps: seq<string>, ts: seq<Token>, acc: Task)
    ensures ParseSteps(SpaceJoin(ps + RenderAll(Left(ts, 7))), 7, acc) == Fill(acc, ps, ts, 7)
  {
  }

  /** The metadata steps from step `n` on, on the text of the tokens left
      before it, are the same steps on the tokens. */
  lemma {:induction false} StepsRendered(ps: seq<string>, ts: seq<Token>, n: nat, acc: Task)
    requires n <= 7 && PartsClean(ps) && TokensOk(ts) && RecurrenceLast(Left(ts, 6))
    ensures ParseSteps(SpaceJoin(ps + RenderAll(Left(ts, n))), n, acc) == Fill(acc, ps, ts, n)
    decreases 7 - n
  {
    if n == 7 {
      StepsDone(ps, ts, acc);
    } else {
      var text := SpaceJoin(ps + RenderAll(Left(ts, n)));
      var next := Step(text, n, acc);
      ParseStepsUnfold(text, n, acc);
      LeftOk(ts, n);
      StepRendered(ps, ts, n, acc);
      StepsRendered(ps, ts, n + 1, next.0);
    }
  }

  /** One metadata step, then the rest. */
  lemma ParseStepsUnfold(text: string, n: nat, acc: Task)
    requires n < 7
    ensures ParseSteps(text, n, acc) == ParseSteps(Step(text, n, acc).1, n + 1, Step(text, n, acc).0)
  {
  }

  /** The metadata steps on the text of content parts and tokens are the
      steps on the tokens, provided the recurrence token, if any, is the last
      one left for the recurrence step. */
  lemma ParseBodyRendered(ps: seq<string>, status: Status, ts: seq<Token>, ln: int, sf: string)
    requires PartsClean(ps) && TokensOk(ts) && RecurrenceLast(Left(ts, 6))
    ensures ParseBody(status, SpaceJoin(ps + RenderAll(ts)), ln, sf) == AbsParse(ps, status, ts, ln, sf)
  {
    assert Left(ts, 0) == ts;
    StepsRendered(ps, ts, 0, Blank(status, ln, sf));
  }

  // ----------------------------------------------------- the two formatters

  /** The corrected token order: the reverse of the order the parser peels
      (recurrence, priority, created, start, scheduled, due, done). */
  function FixedTokens(t: Task): seq<Token> {
    RecurrenceTokens(t) + PriorityTokens(t) + DateTokens(Created, t.createdDate)
    + DateTokens(Start, t.startDate) + DateTokens(Scheduled, t.scheduledDate)
    + DateTokens(Due, t.dueDate) + DateTokens(Done, t.doneDate)
  }

  /** The corrected formatter. */
  function FormatTaskLineFixed(t: Task): (r: string)
    ensures IsPrefix(CheckboxText(t.status) + " ", r)
  {
    CheckboxText(t.status) + " " + SpaceJoin([t.content] + RenderAll(FixedTokens(t)))
  }

  /** A task every field of which a line can carry: content that is trimmed,
      free of metadata emoji and the source of the task's tags, and a
      recurrence rule, if any, that is a non-empty clean trimmed string. */
  predicate Writable(t: Task) {
    && Trimmed(t.content) && Clean(t.content) && t.tags == Tags(t.content)
    && (t.recurrence.Some? ==> t.recurrence.value != [] && Trimmed(t.recurrence.value) && Clean(t.recurrence.value))
  }

  lemma WritableTokensOk(t: Task)
    requires Writable(t)
    ensures TokensOk(MetadataTokens(t)) && TokensOk(FixedTokens(t))
  {
    var A, S, C := PriorityTokens(t), DateTokens(Start, t.startDate), DateTokens(Scheduled, t.scheduledDate);
    var D, N, K := DateTokens(Due, t.dueDate), DateTokens(Done, t.doneDate), DateTokens(Created, t.createdDate);
    var R := RecurrenceTokens(t);
    assert TokensOk(A) && TokensOk(S) && TokensOk(C) && TokensOk(D) && TokensOk(N) && TokensOk(K);
    assert TokensOk(R);
    TokensOkAppend(A, S);
    TokensOkAppend(A + S, C);
    TokensOkAppend(A + S + C, D);
    TokensOkAppend(A + S + C + D, N);
    TokensOkAppend(A + S + C + D + N, K);
    TokensOkAppend(A + S + C + D + N + K, R);
    TokensOkAppend(R, A);
    TokensOkAppend(R + A, K);
    TokensOkAppend(R + A + K, S);
    TokensOkAppend(R + A + K + S, C);
    TokensOkAppend(R + A + K + S + C, D);
    TokensOkAppend(R + A + K + S + C + D, N);
  }

  lemma ContentParts(c: string)
    requires Trimmed(c) && Clean(c)
    ensures PartsClean(BodyParts(c))
  {
  }

  /** Reading back `ps` joined with no tokens left. */
  lemma ContentBack(c: string)
    requires Trimmed(c)
    ensures SpaceJoin(BodyParts(c) + RenderAll([])) == c
    ensures Strip(c) == c
  {
    assert BodyParts(c) + RenderAll([]) == BodyParts(c);
    StripOfTrimmed(c);
  }

  /** The four dates the parser peels before the created date. */
  predicate HasEarlierDate(t: Task) {
    t.startDate.Some? || t.scheduledDate.Some? || t.dueDate.Some? || t.doneDate.Some?
  }

  /** What survives `format_task_line` followed by `parse_task_line`. */
  function AsWrittenReadBack(t: Task): Task {
    t.(createdDate := if HasEarlierDate(t) then None else t.createdDate,
       recurrence :=
         if HasEarlierDate(t) || t.createdDate.Some? || t.priority != Normal then None
         else t.recurrence)
  }

  /** The token steps read a task whose every field they give. */
  lemma AbsParseIs(ps: seq<string>, ts: seq<Token>, t: Task)
    requires DateOf(Read(ts, 0)) == t.doneDate && DateOf(Read(ts, 1)) == t.dueDate
    requires DateOf(Read(ts, 2)) == t.scheduledDate && DateOf(Read(ts, 3)) == t.startDate
    requires DateOf(Read(ts, 4)) == t.createdDate && PriorityOf(Read(ts, 5)) == t.priority
    requires RuleOf(Read(ts, 6)) == t.recurrence
    requires Strip(SpaceJoin(ps + RenderAll(Left(ts, 7)))) == t.content
    requires Tags(SpaceJoin(ps + RenderAll(Left(ts, 7)))) == t.tags
    ensures AbsParse(ps, t.status, ts, t.lineNumber, t.sourceFile) == t
  {
  }

  /** Each field's slot gives the field back. */
  lemma TokensBack(t: Task)
    requires Writable(t)
    ensures DateOf(First(DateTokens(Done, t.doneDate))) == t.doneDate
    ensures DateOf(First(DateTokens(Due, t.dueDate))) == t.dueDate
    ensures DateOf(First(DateTokens(Scheduled, t.scheduledDate))) == t.scheduledDate
    ensures DateOf(First(DateTokens(Start, t.startDate))) == t.startDate
    ensures DateOf(First(DateTokens(Created, t.createdDate))) == t.createdDate
    ensures PriorityOf(First(PriorityTokens(t))) == t.priority
    ensures RuleOf(First(RecurrenceTokens(t))) == t.recurrence
  {
  }

  /** With no tokens left, the content and its tags come back. */
  lemma ContentLeft(ps: seq<string>, ts: seq<Token>, t: Task)
    requires Writable(t) && ps == BodyParts(t.content) && Left(ts, 7) == []
    ensures Strip(SpaceJoin(ps + RenderAll(Left(ts, 7)))) == t.content
    ensures Tags(SpaceJoin(ps + RenderAll(Left(ts, 7)))) == t.tags
  {
    ContentBack(t.content);
  }

  /** One slot per kind, in any order. */
  predicate Slots(A: seq<Token>, S: seq<Token>, C: seq<Token>, D: seq<Token>, N: seq<Token>, K: seq<Token>, R: seq<Token>) {
    && Slot(A, PriorityKind) && Slot(S, DateKind(Start)) && Slot(C, DateKind(Scheduled))
    && Slot(D, DateKind(Due)) && Slot(N, DateKind(Done)) && Slot(K, DateKind(Created))
    && Slot(R, RecurrenceKind)
  }

  lemma TaskSlots(t: Task)
    ensures Slots(PriorityTokens(t), DateTokens(Start, t.startDate), DateTokens(Scheduled, t.scheduledDate),
                  DateTokens(Due, t.dueDate), DateTokens(Done, t.doneDate), DateTokens(Created, t.createdDate),
                  RecurrenceTokens(t))
  {
  }

  /** The four date steps before the created date on the source's order:
      each reads its own slot; the created and recurrence slots survive only
      when no date precedes them. */
  lemma {:induction false} AsWrittenDates(A: seq<Token>, S: seq<Token>, C: seq<Token>, D: seq<Token>,
                                          N: seq<Token>, K: seq<Token>, R: seq<Token>)
    requires Slots(A, S, C, D, N, K, R)
    ensures Read(A + S + C + D + N + K + R, 0) == First(N)
    ensures Read(A + S + C + D + N + K + R, 1) == First(D)
    ensures Read(A + S + C + D + N + K + R, 2) == First(C)
    ensures Read(A + S + C + D + N + K + R, 3) == First(S)
    ensures Left(A + S + C + D + N + K + R, 4) == A + (if S == C == D == N == [] then K + R else [])
  {
    var ts := A + S + C + D + N + K + R;
    AppendAssoc(A + S + C + D + N, K, R);
    PeelStep(A + S + C + D, N, K + R, DateKind(Done));
    var Y1 := if N == [] then K + R else [];
    assert Left(ts, 1) == A + S + C + D + Y1;
    PeelStep(A + S + C, D, Y1, DateKind(Due));
    var Y2 := if D == [] then Y1 else [];
    assert Left(ts, 2) == A + S + C + Y2;
    PeelStep(A + S, C, Y2, DateKind(Scheduled));
    var Y3 := if C == [] then Y2 else [];
    assert Left(ts, 3) == A + S + Y3;
    PeelStep(A, S, Y3, DateKind(Start));
  }

  /** The created, priority and recurrence steps on what the date steps
      leave of the source's order. */
  lemma AsWrittenTail(ts: seq<Token>, A: seq<Token>, K: seq<Token>, R: seq<Token>, early: bool)
    requires Slot(A, PriorityKind) && Slot(K, DateKind(Created)) && Slot(R, RecurrenceKind)
    requires Left(ts, 4) == A + (if early then [] else K + R)
    ensures Read(ts, 4) == if early then None else First(K)
    ensures Read(ts, 5) == First(A)
    ensures Read(ts, 6) == if !early && A == K == [] then First(R) else None
    ensures RecurrenceLast(Left(ts, 6))
    ensures Left(ts, 7) == []
  {
    if early {
      AsWrittenTailEarly(ts, A);
    } else {
      AsWrittenTailLate(ts, A, K, R);
    }
  }

  /** A recurrence rule that swallowed the later tokens: only the priority
      token is left for the last three steps. */
  lemma AsWrittenTailEarly(ts: seq<Token>, A: seq<Token>)
    requires Slot(A, PriorityKind)
    requires Left(ts, 4) == A
    ensures Read(ts, 4) == None
    ensures Read(ts, 5) == First(A)
    ensures Read(ts, 6) == None
    ensures RecurrenceLast(Left(ts, 6))
    ensures Left(ts, 7) == []
  {
    PeelNone(A, DateKind(Created));
    assert Left(ts, 5) == A;
    PeelOnly(A, PriorityKind);
    assert Left(ts, 6) == [];
    PeelOnly([], RecurrenceKind);
  }

  /** The priority, created and recurrence tokens left for the last three
      steps. */
  lemma AsWrittenTailLate(ts: seq<Token>, A: seq<Token>, K: seq<Token>, R: seq<Token>)
    requires Slot(A, PriorityKind) && Slot(K, DateKind(Created)) && Slot(R, RecurrenceKind)
    requires Left(ts, 4) == A + (K + R)
    ensures Read(ts, 4) == First(K)
    ensures Read(ts, 5) == First(A)
    ensures Read(ts, 6) == if A == K == [] then First(R) else None
    ensures RecurrenceLast(Left(ts, 6))
    ensures Left(ts, 7) == []
  {
    AppendAssoc(A, K, R);
    PeelStep(A, K, R, DateKind(Created));
    var Y5 := if K == [] then R else [];
    assert Left(ts, 5) == A + Y5;
    PeelLeadSlot(A, Y5, PriorityKind);
    var t6 := if A == [] then Y5 else [];
    assert Left(ts, 6) == AbsPeel(Left(ts, 5), PriorityKind).1;
    assert Left(ts, 6) == t6;
    PeelOnly(t6, RecurrenceKind);
  }

  /** A step whose kind occurs at most once, in the leading `o`. */
  lemma PeelLeadSlot(o: seq<Token>, b: seq<Token>, k: Kind)
    requires NoKind(b, k) && Slot(o, k)
    ensures AbsPeel(o + b, k).0 == First(o)
    ensures AbsPeel(o + b, k).1 == (if o == [] then b else [])
  {
    PeelStep([], o, b, k);
    assert [] + o + b == o + b;
  }

  /** The token steps on the source's order: priority, start, scheduled,
      due, done, created, recurrence. A created token is read only when no
      other date precedes it, a recurrence token only when it stands alone. */
  lemma AsWrittenSteps(A: seq<Token>, S: seq<Token>, C: seq<Token>, D: seq<Token>,
                       N: seq<Token>, K: seq<Token>, R: seq<Token>)
    requires Slots(A, S, C, D, N, K, R)
    ensures Read(A + S + C + D + N + K + R, 0) == First(N)
    ensures Read(A + S + C + D + N + K + R, 1) == First(D)
    ensures Read(A + S + C + D + N + K + R, 2) == First(C)
    ensures Read(A + S + C + D + N + K + R, 3) == First(S)
    ensures Read(A + S + C + D + N + K + R, 4) == if S == C == D == N == [] then First(K) else None
    ensures Read(A + S + C + D + N + K + R, 5) == First(A)
    ensures Read(A + S + C + D + N + K + R, 6)
         == if A == S == C == D == N == K == [] then First(R) else None
    ensures RecurrenceLast(Left(A + S + C + D + N + K + R, 6))
    ensures Left(A + S + C + D + N + K + R, 7) == []
  {
    AsWrittenDates(A, S, C, D, N, K, R);
    AsWrittenTail(A + S + C + D + N + K + R, A, K, R, !(S == C == D == N == []));
  }

  /** Reading back what `format_task_line` wrote, on tokens. */
  lemma AsWrittenPeels(t: Task)
    requires Writable(t)
    ensures RecurrenceLast(Left(MetadataTokens(t), 6))
    ensures AbsParse(BodyParts(t.content), t.status, MetadataTokens(t), t.lineNumber, t.sourceFile)
         == AsWrittenReadBack(t)
  {
    var ts := MetadataTokens(t);
    var ps := BodyParts(t.content);
    TaskSlots(t);
    AsWrittenSteps(PriorityTokens(t), DateTokens(Start, t.startDate), DateTokens(Scheduled, t.scheduledDate),
                   DateTokens(Due, t.dueDate), DateTokens(Done, t.doneDate), DateTokens(Created, t.createdDate),
                   RecurrenceTokens(t));
    TokensBack(t);
    ContentLeft(ps, ts, t);
    AbsParseIs(ps, ts, AsWrittenReadBack(t));
  }

  /** The as-written round trip: every field comes back except the created
      date, lost behind any other date, and the recurrence, lost behind any
      date or priority. */
  lemma AsWrittenRoundTrip(t: Task)
    requires Writable(t)
    ensures ParseTaskLine(FormatTaskLine(t), t.lineNumber, t.sourceFile) == Some(AsWrittenReadBack(t))
  {
    var ts := MetadataTokens(t);
    var ps := BodyParts(t.content);
    var line := CheckboxText(t.status) + " " + SpaceJoin([t.content] + RenderAll(ts));
    var body := SpaceJoin(ps + RenderAll(ts));
    assert FormatTaskLine(t) == line;
    WritableTokensOk(t);
    assert ParseTaskLine(line, t.lineNumber, t.sourceFile) == Some(ParseBody(t.status, body, t.lineNumber, t.sourceFile)) by {
      ParseRenderedLine(t.status, t.content, ts, t.lineNumber, t.sourceFile);
    }
    assert ParseBody(t.status, body, t.lineNumber, t.sourceFile) == AsWrittenReadBack(t) by {
      AsWrittenPeels(t);
      ContentParts(t.content);
      ParseBodyRendered(ps, t.status, ts, t.lineNumber, t.sourceFile);
    }
  }

  /** Whether a task survives `format_task_line` and `parse_task_line`. */
  predicate KeepsMetadata(t: Task) {
    && (t.createdDate.Some? ==> !HasEarlierDate(t))
    && (t.recurrence.Some? ==> !HasEarlierDate(t) && t.createdDate.None? && t.priority == Normal)
  }

  /** Both directions: the source round trip holds exactly for the tasks
      whose created date and recurrence are not written behind a token the
      parser peels first. */
  lemma AsWrittenRoundTripIff(t: Task)
    requires Writable(t)
    ensures ParseTaskLine(FormatTaskLine(t), t.lineNumber, t.sourceFile) == Some(t) <==> KeepsMetadata(t)
  {
    AsWrittenRoundTrip(t);
  }

  /** The token steps on the corrected order: every token is read. */
  lemma {:induction false} FixedSteps(A: seq<Token>, S: seq<Token>, C: seq<Token>, D: seq<Token>,
                                      N: seq<Token>, K: seq<Token>, R: seq<Token>)
    requires Slots(A, S, C, D, N, K, R)
    ensures Read(R + A + K + S + C + D + N, 0) == First(N)
    ensures Read(R + A + K + S + C + D + N, 1) == First(D)
    ensures Read(R + A + K + S + C + D + N, 2) == First(C)
    ensures Read(R + A + K + S + C + D + N, 3) == First(S)
    ensures Read(R + A + K + S + C + D + N, 4) == First(K)
    ensures Read(R + A + K + S + C + D + N, 5) == First(A)
    ensures Read(R + A + K + S + C + D + N, 6) == First(R)
    ensures RecurrenceLast(Left(R + A + K + S + C + D + N, 6))
    ensures Left(R + A + K + S + C + D + N, 7) == []
  {
    var ts := R + A + K + S + C + D + N;
    PeelLast(R + A + K + S + C + D, N, DateKind(Done));
    assert Left(ts, 1) == R + A + K + S + C + D;
    PeelLast(R + A + K + S + C, D, DateKind(Due));
    assert Left(ts, 2) == R + A + K + S + C;
    PeelLast(R + A + K + S, C, DateKind(Scheduled));
    assert Left(ts, 3) == R + A + K + S;
    PeelLast(R + A + K, S, DateKind(Start));
    assert Left(ts, 4) == R + A + K;
    PeelLast(R + A, K, DateKind(Created));
    assert Left(ts, 5) == R + A;
    PeelLast(R, A, PriorityKind);
    assert Left(ts, 6) == R;
    PeelOnly(R, RecurrenceKind);
  }

  /** Reading back what the corrected formatter wrote, on tokens. */
  lemma FixedPeels(t: Task)
    requires Writable(t)
    ensures RecurrenceLast(Left(FixedTokens(t), 6))
    ensures AbsParse(BodyParts(t.content), t.status, FixedTokens(t), t.lineNumber, t.sourceFile) == t
  {
    var ts := FixedTokens(t);
    var ps := BodyParts(t.content);
    TaskSlots(t);
    FixedSteps(PriorityTokens(t), DateTokens(Start, t.startDate), DateTokens(Scheduled, t.scheduledDate),
               DateTokens(Due, t.dueDate), DateTokens(Done, t.doneDate), DateTokens(Created, t.createdDate),
               RecurrenceTokens(t));
    TokensBack(t);
    ContentLeft(ps, ts, t);
    AbsParseIs(ps, ts, t);
  }

  /** The corrected formatter reads back whole. */
  lemma FixedRoundTrip(t: Task)
    requires Writable(t)
    ensures ParseTaskLine(FormatTaskLineFixed(t), t.lineNumber, t.sourceFile) == Some(t)
  {
    var ts := FixedTokens(t);
    var ps := BodyParts(t.content);
    var line := CheckboxText(t.status) + " " + SpaceJoin([t.content] + RenderAll(ts));
    var body := SpaceJoin(ps + RenderAll(ts));
    assert FormatTaskLineFixed(t) == line;
    WritableTokensOk(t);
    assert ParseTaskLine(line, t.lineNumber, t.sourceFile) == Some(ParseBody(t.status, body, t.lineNumber, t.sourceFile)) by {
      ParseRenderedLine(t.status, t.content, ts, t.lineNumber, t.sourceFile);
    }
    assert ParseBody(t.status, body, t.lineNumber, t.sourceFile) == t by {
      FixedPeels(t);
      ContentParts(t.content);
      ParseBodyRendered(ps, t.status, ts, t.lineNumber, t.sourceFile);
    }
  }

  // --------------------------------------------------- what the line shows

  lemma InMiddle(p: string, x: string, q: string)
    requires x != []
    ensures x[0] in p + x + q
  {
    assert (p + x + q)[|p|] == x[0];
  }

  /** A metadata emoji is in the joined token texts exactly when some token
      leads with it. */
  lemma LeadInJoin(ts: seq<Token>, c: char)
    requires TokensOk(ts) && IsMetaChar(c)
    ensures c in SpaceJoin(RenderAll(ts)) <==> exists x :: x in ts && LeadChar(x) == c
  {
    if k :| 0 <= k < |ts| && LeadChar(ts[k]) == c {
      LeadPresent(ts, k);
    } else {
      assert [] + RenderAll(ts) == RenderAll(ts);
      MetaAbsent([], ts, c);
    }
  }

  lemma PartsAssoc(a: seq<string>, x: string, b: seq<string>)
    ensures a + [x] + b == a + ([x] + b)
  {
  }

  lemma LeadPresent(ts: seq<Token>, k: nat)
    requires TokensOk(ts) && k < |ts|
    ensures LeadChar(ts[k]) in SpaceJoin(RenderAll(ts))
  {
    var rs := RenderAll(ts);
    SeqSplit(rs, k);
    PartsAssoc(rs[..k], rs[k], rs[k + 1..]);
    SpaceJoinAround(rs[..k], rs[k], rs[k + 1..]);
    RenderShape(ts[k]);
    InMiddle(JoinLead(rs[..k]), rs[k], JoinTrail(rs[k + 1..]));
  }

  lemma CleanAbsent(s: string, c: char)
    requires Clean(s) && IsMetaChar(c)
    ensures c !in s
  {
  }

  lemma CheckboxClean(status: Status)
    ensures Clean(CheckboxText(status) + " ")
  {
  }

  lemma InThree(a: string, b: string, d: string, c: char)
    ensures c in a + b + d <==> c in a || c in b || c in d
  {
  }

  /** A metadata emoji is on the line `format_task_line` writes exactly
      when one of the task's tokens leads with it. */
  lemma EmojiOnLine(t: Task, c: char)
    requires Writable(t) && IsMetaChar(c)
    ensures c in FormatTaskLine(t) <==> exists x :: x in MetadataTokens(t) && LeadChar(x) == c
  {
    var rs := RenderAll(MetadataTokens(t));
    var box := CheckboxText(t.status) + " ";
    WritableTokensOk(t);
    SpaceJoinCons(t.content, rs);
    assert FormatTaskLine(t) == box + t.content + JoinTrail(rs);
    InThree(box, t.content, JoinTrail(rs), c);
    CheckboxClean(t.status);
    CleanAbsent(box, c);
    CleanAbsent(t.content, c);
    assert c in JoinTrail(rs) <==> c in SpaceJoin(rs);
    LeadInJoin(MetadataTokens(t), c);
  }

  /** Each metadata emoji is on the written line exactly when the task
      carries the field it stands for: no priority emoji for a normal
      priority and the one of any other, a date's emoji when that date is
      set, 🔁 when there is a rule. */
  lemma FormatTaskLineEmoji(t: Task)
    requires Writable(t)
    ensures forall c :: IsPriorityEmoji(c) ==>
      (c in FormatTaskLine(t) <==> t.priority in PriorityEmojiMap && PriorityEmojiMap[t.priority] == c)
    ensures forall f :: FieldEmoji(f) in FormatTaskLine(t) <==> DateOfField(t, f).Some?
    ensures RecurrenceEmoji in FormatTaskLine(t) <==> t.recurrence.Some?
  {
    MetadataTokensSpec(t);
    forall c | IsPriorityEmoji(c)
      ensures c in FormatTaskLine(t) <==> t.priority in PriorityEmojiMap && PriorityEmojiMap[t.priority] == c
    {
      EmojiOnLine(t, c);
      PriorityLead(t, c);
    }
    forall f ensures FieldEmoji(f) in FormatTaskLine(t) <==> DateOfField(t, f).Some? {
      EmojiOnLine(t, FieldEmoji(f));
      DateLead(t, f);
    }
    EmojiOnLine(t, RecurrenceEmoji);
    RecurrenceLead(t);
  }

  /** Some token of the task leads with priority emoji `c` exactly when
      `c` is the emoji of its priority. */
  lemma PriorityLead(t: Task, c: char)
    requires IsPriorityEmoji(c)
    requires forall x :: x in MetadataTokens(t) <==> Carries(t, x)
    ensures (exists x :: x in MetadataTokens(t) && LeadChar(x) == c)
        <==> t.priority in PriorityEmojiMap && PriorityEmojiMap[t.priority] == c
  {
    PriorityMapsInverse();
    if t.priority in PriorityEmojiMap && PriorityEmojiMap[t.priority] == c {
      assert Carries(t, PriorityToken(t.priority));
    } else {
      forall x | x in MetadataTokens(t) ensures LeadChar(x) != c {
        assert Carries(t, x);
      }
    }
  }

  /** Some token of the task leads with the emoji of field `f` exactly
      when that date is set. */
  lemma DateLead(t: Task, f: DateField)
    requires forall x :: x in MetadataTokens(t) <==> Carries(t, x)
    ensures (exists x :: x in MetadataTokens(t) && LeadChar(x) == FieldEmoji(f)) <==> DateOfField(t, f).Some?
  {
    forall x | x in MetadataTokens(t) && LeadChar(x) == FieldEmoji(f) ensures DateOfField(t, f).Some? {
      LeadIsField(x, f);
      assert Carries(t, x);
    }
    if DateOfField(t, f).Some? {
      assert Carries(t, DateToken(f, DateOfField(t, f).value));
    }
  }

  /** Only a date token of field `f` leads with that field's emoji. */
  lemma LeadIsField(x: Token, f: DateField)
    ensures LeadChar(x) == FieldEmoji(f) <==> x.DateToken? && x.field == f
  {
    match x
    case PriorityToken(p) => PriorityMapsInverse();
    case DateToken(g, _) =>
    case RecurrenceToken(_) =>
  }

  /** Some token of the task leads with 🔁 exactly when it has a non-empty
      rule. */
  lemma RecurrenceLead(t: Task)
    requires forall x :: x in MetadataTokens(t) <==> Carries(t, x)
    ensures (exists x :: x in MetadataTokens(t) && LeadChar(x) == RecurrenceEmoji)
        <==> t.recurrence.Some? && t.recurrence.value != []
  {
    if t.recurrence.Some? && t.recurrence.value != [] {
      assert Carries(t, RecurrenceToken(t.recurrence.value));
    } else {
      forall x | x in MetadataTokens(t) ensures LeadChar(x) != RecurrenceEmoji {
        assert Carries(t, x);
      }
    }
  }

  /** The line of a task with two tokens. */
  lemma FormatTwoTokens(t: Task, a: Token, b: Token)
    requires MetadataTokens(t) == [a, b]
    ensures FormatTaskLine(t) == CheckboxText(t.status) + " " + (t.content + " " + Render(a) + " " + Render(b))
  {
    var ps := [t.content] + RenderAll([a, b]);
    assert ps == [t.content, Render(a), Render(b)];
    var two := [t.content, Render(a)];
    assert ps[..2] == two && two[..1] == [t.content];
    assert SpaceJoin(two) == t.content + " " + Render(a);
    assert SpaceJoin(ps) == SpaceJoin(two) + " " + Render(b);
  }

  lemma HighestDueFormat(c: string, d: CalendarDate, n: int, file: string)
    ensures var t := Task(c, Incomplete, Highest, Some(d), None, None, None, None, None, n, file, []);
      FormatTaskLine(t) == "- [ ] " + (c + " " + [HighestEmoji] + " " + ([DueEmoji] + " " + FormatIsoDate(d)))
  {
    var t := Task(c, Incomplete, Highest, Some(d), None, None, None, None, None, n, file, []);
    assert MetadataTokens(t) == [PriorityToken(Highest), DateToken(Due, d)];
    FormatTwoTokens(t, PriorityToken(Highest), DateToken(Due, d));
    assert Render(PriorityToken(Highest)) == [HighestEmoji];
  }

  /** An open task of highest priority with a due date and nothing else
      is written as its content, ⏫ and 📅 with the date, and reads back as
      itself. */
  lemma HighestDueLine(c: string, d: CalendarDate, n: int, file: string)
    requires Trimmed(c) && Clean(c) && Tags(c) == []
    ensures var t := Task(c, Incomplete, Highest, Some(d), None, None, None, None, None, n, file, []);
      var line := "- [ ] " + (c + " " + [HighestEmoji] + " " + ([DueEmoji] + " " + FormatIsoDate(d)));
      FormatTaskLine(t) == line && ParseTaskLine(line, n, file) == Some(t)
  {
    var t := Task(c, Incomplete, Highest, Some(d), None, None, None, None, None, n, file, []);
    HighestDueFormat(c, d, n, file);
    AsWrittenRoundTrip(t);
    assert AsWrittenReadBack(t) == t;
  }

  /** `- [ ] Buy milk ⏫ 📅 2025-03-01` reads as the open task "Buy milk" of
      highest priority due on 2025-03-01, and writing that task gives the
      same line back. */
  lemma BuyMilkExample(n: int, file: string)
    ensures var t := Task("Buy milk", Incomplete, Highest, Some(Date(2025, 3, 1)),
                          None, None, None, None, None, n, file, []);
      var line := "- [ ] Buy milk " + [HighestEmoji] + " " + [DueEmoji] + " 2025-03-01";
      FormatTaskLine(t) == line && ParseTaskLine(line, n, file) == Some(t)
  {
    var d: CalendarDate := Date(2025, 3, 1);
    assert FormatIsoDate(d) == "2025-03-01";
    BuyMilkUntagged();
    BuyMilkClean();
    HighestDueLine("Buy milk", d, n, file);
    BuyMilkText();
  }

  lemma BuyMilkText()
    ensures "- [ ] " + ("Buy milk" + " " + [HighestEmoji] + " " + ([DueEmoji] + " " + "2025-03-01"))
         == "- [ ] Buy milk " + [HighestEmoji] + " " + [DueEmoji] + " 2025-03-01"
  {
  }

  lemma BuyMilkClean()
    ensures Trimmed("Buy milk") && Clean("Buy milk")
  {
  }

  lemma BuyMilkUntagged()
    ensures Tags("Buy milk") == []
  {
    var s := "Buy milk";
    assert !TagStartsAt(s, 0) && !TagStartsAt(s, 4);
    assert TagsFrom(s, 8) == [];
    assert TagsFrom(s, 4) == [];
  }
}
