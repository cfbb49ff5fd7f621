/** Python string primitives used by the task codec and the query builders:
    whitespace as `str.isspace` sees it, `strip`/`lstrip`/`rstrip`,
    `startswith`, ASCII case mapping, `str(int)` and code-point ordering. */
module Text {

  /** The characters for which Python's `str.isspace()` is true. */
  predicate IsSpace(c: char) {
    || ('\U{0009}' <= c <= '\U{000D}')
    || ('\U{001C}' <= c <= '\U{0020}')
    || c == '\U{0085}' || c == '\U{00A0}' || c == '\U{1680}'
    || ('\U{2000}' <= c <= '\U{200A}')
    || c == '\U{2028}' || c == '\U{2029}' || c == '\U{202F}'
    || c == '\U{205F}' || c == '\U{3000}'
  }

  predicate IsPrefix(p: string, s: string) {
    |p| <= |s| && s[..|p|] == p
  }

  lemma PrefixTransitive(a: string, b: string, c: string)
    requires IsPrefix(a, b) && IsPrefix(b, c)
    ensures IsPrefix(a, c)
  {
    assert c[..|b|][..|a|] == c[..|a|];
  }

  /** `p` occurs somewhere in `s`. */
  predicate IsSubstring(p: string, s: string)
    decreases |s|
  {
    IsPrefix(p, s) || (s != [] && IsSubstring(p, s[1..]))
  }

  lemma {:induction false} SubstringAt(p: string, s: string, i: nat)
    requires i <= |s| && IsPrefix(p, s[i..])
    ensures IsSubstring(p, s)
    decreases i
  {
    if i > 0 {
      assert s[1..][i - 1..] == s[i..];
      SubstringAt(p, s[1..], i - 1);
    }
  }

  /** No whitespace at either end. */
  predicate Trimmed(s: string) {
    s == [] || (!IsSpace(s[0]) && !IsSpace(s[|s| - 1]))
  }

  /** `' '.join(parts)` */
  function SpaceJoin(parts: seq<string>): string {
    if parts == [] then ""
    else if |parts| == 1 then parts[0]
    else SpaceJoin(parts[..|parts| - 1]) + " " + parts[|parts| - 1]
  }

  /** `SpaceJoin` over a concatenation of part lists. */
  lemma {:induction false} SpaceJoinAppend(a: seq<string>, b: seq<string>)
    ensures SpaceJoin(a + b) ==
      if a == [] then SpaceJoin(b)
      else if b == [] then SpaceJoin(a)
      else SpaceJoin(a) + " " + SpaceJoin(b)
    decreases |b|
  {
    if a == [] {
      assert a + b == b;
    } else if b == [] {
      assert a + b == a;
    } else if |b| == 1 {
      assert (a + b)[..|a + b| - 1] == a;
    } else {
      var b' := b[..|b| - 1];
      assert (a + b)[..|a + b| - 1] == a + b';
      SpaceJoinAppend(a, b');
    }
  }

  /** What `SpaceJoin` puts before a part: the joined earlier parts and a
      separator, or nothing for the first part. */
  function JoinLead(a: seq<string>): string {
    if a == [] then "" else SpaceJoin(a) + " "
  }

  /** What `SpaceJoin` puts after a part. */
  function JoinTrail(b: seq<string>): string {
    if b == [] then "" else " " + SpaceJoin(b)
  }

  lemma SpaceJoinCons(x: string, b: seq<string>)
    ensures SpaceJoin([x] + b) == x + JoinTrail(b)
  {
    SpaceJoinAppend([x], b);
    if b == [] {
      assert [x] + b == [x];
    }
  }

  lemma SpaceJoinAround(a: seq<string>, x: string, c: seq<string>)
    ensures SpaceJoin(a + [x] + c) == JoinLead(a) + x + JoinTrail(c)
  {
    assert a + [x] + c == a + ([x] + c);
    SpaceJoinAppend(a, [x] + c);
    SpaceJoinCons(x, c);
  }

  predicate PartsTrimmed(ps: seq<string>) {
    forall i :: 0 <= i < |ps| ==> ps[i] != [] && Trimmed(ps[i])
  }

  /** Joining non-empty trimmed parts gives a trimmed string, non-empty
      when there is a part. */
  lemma {:induction false} SpaceJoinTrimmed(ps: seq<string>)
    requires PartsTrimmed(ps)
    ensures Trimmed(SpaceJoin(ps))
    ensures ps != [] ==> SpaceJoin(ps) != []
    decreases |ps|
  {
    if |ps| > 1 {
      SpaceJoinTrimmed(ps[..|ps| - 1]);
    }
  }

  /** A character other than the space that no part contains is not in the
      joined string. */
  lemma {:induction false} SpaceJoinChars(ps: seq<string>, c: char)
    requires c != ' '
    requires forall i :: 0 <= i < |ps| ==> c !in ps[i]
    ensures c !in SpaceJoin(ps)
    decreases |ps|
  {
    if |ps| > 1 {
      SpaceJoinChars(ps[..|ps| - 1], c);
    }
  }

  /** `s.startswith(p)` */
  predicate StartsWith(s: string, p: string) {
    IsPrefix(p, s)
  }

  /** `s.rstrip()`: the longest prefix of `s` that does not end in whitespace. */
  function RStrip(s: string): (r: string)
    ensures IsPrefix(r, s)
    ensures r == [] || !IsSpace(r[|r| - 1])
    ensures forall i :: |r| <= i < |s| ==> IsSpace(s[i])
  {
    if s != [] && IsSpace(s[|s| - 1]) then
      var r := RStrip(s[..|s| - 1]);
      RStripStep(s, s[..|s| - 1], r);
      r
    else s
  }

  lemma RStripStep(s: string, t: string, r: string)
    requires s != [] && IsSpace(s[|s| - 1]) && t == s[..|s| - 1]
    requires IsPrefix(r, t) && forall i :: |r| <= i < |t| ==> IsSpace(t[i])
    ensures IsPrefix(r, s)
    ensures forall i :: |r| <= i < |s| ==> IsSpace(s[i])
  {
    forall i | |r| <= i < |s| - 1 ensures IsSpace(s[i]) {
      assert s[i] == t[i];
    }
  }

  /** `s.lstrip()`: the longest suffix of `s` that does not start with whitespace. */
  function LStrip(s: string): (r: string)
    ensures |r| <= |s| && r == s[|s| - |r|..]
    ensures r == [] || !IsSpace(r[0])
    ensures forall i :: 0 <= i < |s| - |r| ==> IsSpace(s[i])
  {
    if s != [] && IsSpace(s[0]) then
      var r := LStrip(s[1..]);
      LStripStep(s, s[1..], r);
      r
    else s
  }

  lemma LStripStep(s: string, t: string, r: string)
    requires s != [] && IsSpace(s[0]) && t == s[1..]
    requires |r| <= |t| && r == t[|t| - |r|..]
    requires forall i :: 0 <= i < |t| - |r| ==> IsSpace(t[i])
    ensures r == s[|s| - |r|..]
    ensures forall i :: 0 <= i < |s| - |r| ==> IsSpace(s[i])
  {
    forall i | 0 < i < |s| - |r| ensures IsSpace(s[i]) {
      assert s[i] == t[i - 1];
    }
  }

  /** `s.strip()` */
  function Strip(s: string): (r: string)
    ensures Trimmed(r)
  {
    RStrip(LStrip(s))
  }

  /** Every character of `s` from `lo` up to `hi` is whitespace. */
  predicate AllSpace(s: string, lo: int, hi: int)
    requires 0 <= lo && hi <= |s|
  {
    forall i :: lo <= i < hi ==> IsSpace(s[i])
  }

  /** `s.strip()` is the slice of `s` left once the whitespace at both ends
      is removed; `k` is where it starts. */
  lemma StripSpec(s: string)
    ensures var r := Strip(s);
      var k := |s| - |LStrip(s)|;
      && k + |r| <= |s| && r == s[k..k + |r|]
      && AllSpace(s, 0, k) && AllSpace(s, k + |r|, |s|)
  {
    var l := LStrip(s);
    var r := RStrip(l);
    assert Strip(s) == r;
    LStripParts(s);
    RStripParts(l);
    StripSlice(s, l, r);
  }

  lemma LStripParts(s: string)
    ensures var l := LStrip(s);
      |l| <= |s| && l == s[|s| - |l|..] && AllSpace(s, 0, |s| - |l|)
  {
  }

  lemma RStripParts(l: string)
    ensures IsPrefix(RStrip(l), l) && AllSpace(l, |RStrip(l)|, |l|)
  {
  }

  lemma StripSlice(s: string, l: string, r: string)
    requires |l| <= |s| && l == s[|s| - |l|..] && AllSpace(s, 0, |s| - |l|)
    requires IsPrefix(r, l) && AllSpace(l, |r|, |l|)
    ensures var k := |s| - |l|;
      && k + |r| <= |s| && r == s[k..k + |r|]
      && AllSpace(s, 0, k) && AllSpace(s, k + |r|, |s|)
  {
    var k := |s| - |l|;
    forall i | k + |r| <= i < |s| ensures IsSpace(s[i]) {
      assert s[i] == l[i - k];
    }
  }

  /** Cutting a trimmed string short and stripping the right end of the
      piece leaves a trimmed prefix. */
  lemma RStripPrefixTrimmed(p: string, s: string)
    requires IsPrefix(p, s)
    ensures IsPrefix(RStrip(p), s)
    ensures Trimmed(s) ==> Trimmed(RStrip(p))
  {
    PrefixTransitive(RStrip(p), p, s);
  }

  /** A string with no whitespace at either end is its own strip. */
  lemma StripOfTrimmed(s: string)
    requires Trimmed(s)
    ensures Strip(s) == s
  {
  }

  lemma RStripOfTrimmed(s: string)
    requires s == [] || !IsSpace(s[|s| - 1])
    ensures RStrip(s) == s
  {
  }

  /** `s.rstrip()` when `s` is `x` followed only by whitespace, and `x`
      itself does not end in whitespace. */
  lemma {:induction false} RStripTrailingSpaces(x: string, w: string)
    requires x == [] || !IsSpace(x[|x| - 1])
    requires forall i :: 0 <= i < |w| ==> IsSpace(w[i])
    ensures RStrip(x + w) == x
  {
    if w != [] {
      assert (x + w)[..|x + w| - 1] == x + w[..|w| - 1];
      RStripTrailingSpaces(x, w[..|w| - 1]);
    } else {
      assert x + w == x;
    }
  }

  /** `s.lstrip()` when `s` is whitespace followed by `x`, and `x` does not
      start with whitespace. */
  lemma {:induction false} LStripLeadingSpaces(w: string, x: string)
    requires x == [] || !IsSpace(x[0])
    requires forall i :: 0 <= i < |w| ==> IsSpace(w[i])
    ensures LStrip(w + x) == x
  {
    if w != [] {
      assert (w + x)[1..] == w[1..] + x;
      LStripLeadingSpaces(w[1..], x);
    } else {
      assert w + x == x;
    }
  }

  function AsciiUpper(c: char): char {
    if 'a' <= c <= 'z' then (c as int - 32) as char else c
  }

  function AsciiLower(c: char): char {
    if 'A' <= c <= 'Z' then (c as int + 32) as char else c
  }

  /** `s.upper()` restricted to ASCII letters. */
  function Upper(s: string): (r: string)
    ensures |r| == |s|
    ensures forall i :: 0 <= i < |s| ==> r[i] == AsciiUpper(s[i])
  {
    if s == [] then [] else [AsciiUpper(s[0])] + Upper(s[1..])
  }

  /** `s.lower()` restricted to ASCII letters. */
  function Lower(s: string): (r: string)
    ensures |r| == |s|
    ensures forall i :: 0 <= i < |s| ==> r[i] == AsciiLower(s[i])
  {
    if s == [] then [] else [AsciiLower(s[0])] + Lower(s[1..])
  }

  predicate IsDigit(c: char) {
    '0' <= c <= '9'
  }

  function DigitChar(d: nat): char
    requires d < 10
  {
    (48 + d) as char
  }

  function DigitValue(c: char): nat
    requires IsDigit(c)
  {
    c as int - 48
  }

  /** Decimal digits of a natural number, most significant first. */
  function NatToString(n: nat): (r: string)
    ensures r != []
    ensures forall i :: 0 <= i < |r| ==> IsDigit(r[i])
    decreases n
  {
    if n < 10 then [DigitChar(n)] else NatToString(n / 10) + [DigitChar(n % 10)]
  }

  /** Python's `str(n)` for an `int`. */
  function IntToString(n: int): string {
    if n < 0 then "-" + NatToString(-n) else NatToString(n)
  }

  /** The value of a string of decimal digits. */
  function DecimalValue(s: string): nat
    requires forall i :: 0 <= i < |s| ==> IsDigit(s[i])
  {
    if s == [] then 0 else 10 * DecimalValue(s[..|s| - 1]) + DigitValue(s[|s| - 1])
  }

  /** `NatToString` is undone by reading the digits back. */
  lemma {:induction false} NatToStringRoundTrip(n: nat)
    ensures DecimalValue(NatToString(n)) == n
    decreases n
  {
    if n >= 10 {
      var s := NatToString(n / 10) + [DigitChar(n % 10)];
      assert s[..|s| - 1] == NatToString(n / 10);
      NatToStringRoundTrip(n / 10);
    }
  }

  /** Python's ordering of strings: lexicographic on code points. */
  predicate StrLt(a: string, b: string) {
    if a == [] then b != []
    else if b == [] then false
    else if a[0] != b[0] then a[0] < b[0]
    else StrLt(a[1..], b[1..])
  }

  predicate StrLe(a: string, b: string) {
    a == b || StrLt(a, b)
  }

  /** Any two strings are ordered one way or the other. */
  lemma {:induction false} StrLtTotal(a: string, b: string)
    ensures StrLt(a, b) || a == b || StrLt(b, a)
  {
    if a != [] && b != [] && a[0] == b[0] {
      StrLtTotal(a[1..], b[1..]);
      if a[1..] == b[1..] {
        assert a == [a[0]] + a[1..] && b == [b[0]] + b[1..];
      }
    }
  }

  lemma {:induction false} StrLtIrreflexive(a: string)
    ensures !StrLt(a, a)
  {
    if a != [] {
      StrLtIrreflexive(a[1..]);
    }
  }

  lemma {:induction false} StrLtTransitive(a: string, b: string, c: string)
    requires StrLt(a, b) && StrLt(b, c)
    ensures StrLt(a, c)
  {
    if a != [] && b != [] && c != [] && a[0] == b[0] && b[0] == c[0] {
      StrLtTransitive(a[1..], b[1..], c[1..]);
    }
  }

  lemma StrLeTotal(a: string, b: string)
    ensures StrLe(a, b) || StrLe(b, a)
  {
    StrLtTotal(a, b);
  }

  lemma StrLeTransitive(a: string, b: string, c: string)
    requires StrLe(a, b) && StrLe(b, c)
    ensures StrLe(a, c)
  {
    if a != b && b != c {
      StrLtTransitive(a, b, c);
    }
  }

  lemma StrLeAntisymmetric(a: string, b: string)
    requires StrLe(a, b) && StrLe(b, a)
    ensures a == b
  {
    if a != b {
      StrLtTransitive(a, b, a);
      StrLtIrreflexive(a);
    }
  }
}
