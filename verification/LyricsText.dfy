/**
 Text handling for synchronised lyrics: white space, lines, id tags and time stamps. The patterns are tried in
 the order in which a backtracking matcher tries them. A char is a Unicode code point.
 */
module LyricsText {
  import opened Wrappers

  // ----- White space and lines -----

  /** Unicode white space, as trimming understands it. */
  predicate IsSpace(c: char) {
    || c == ' ' || '\t' <= c <= '\r' || c == '\U{85}' || c == '\U{A0}' || c == '\U{1680}'
    || '\U{2000}' <= c <= '\U{200A}' || c == '\U{2028}' || c == '\U{2029}' || c == '\U{202F}' || c == '\U{205F}'
    || c == '\U{3000}'
  }

  /** White space as the pattern `\s` understands it. */
  predicate IsPatternSpace(c: char) {
    c == ' ' || c == '\t' || c == '\n' || c == '\U{0C}' || c == '\r'
  }

  /** The first position from i on that is not white space. */
  function SkipSpace(s: string, i: nat): (j: nat)
    requires i <= |s|
    ensures i <= j <= |s| && (j < |s| ==> !IsSpace(s[j]))
    ensures forall k :: i <= k < j ==> IsSpace(s[k])
    decreases |s| - i
  {
    if i < |s| && IsSpace(s[i]) then SkipSpace(s, i + 1) else i
  }

  function TrimRight(s: string): (t: string)
    ensures t <= s && (t != "" ==> !IsSpace(t[|t| - 1]))
    ensures forall k :: |t| <= k < |s| ==> IsSpace(s[k])
  {
    if s != "" && IsSpace(s[|s| - 1]) then TrimRight(s[..|s| - 1]) else s
  }

  function Trim(s: string): (t: string)
    ensures t != "" ==> !IsSpace(t[0]) && !IsSpace(t[|t| - 1])
  {
    TrimRight(s[SkipSpace(s, 0)..])
  }

  /** Trimming leaves nothing exactly of white space. */
  lemma TrimEmpty(s: string)
    ensures Trim(s) == "" <==> forall k :: 0 <= k < |s| ==> IsSpace(s[k])
  {
    var i := SkipSpace(s, 0);
    assert forall k :: i <= k < |s| ==> s[k] == s[i..][k - i];
  }

  /** Cuts at every line feed; there is always at least one line. */
  function Lines(s: string): (ls: seq<string>)
    ensures ls != [] && forall l :: l in ls ==> '\n' !in l
  {
    if s == "" then [""]
    else
      var rest := Lines(s[1..]);
      if s[0] == '\n' then [""] + rest else [[s[0]] + rest[0]] + rest[1..]
  }

  // ----- Numbers -----

  predicate IsDigit(c: char) {
    '0' <= c <= '9'
  }

  /** There are n digits at position i; no pattern asks for more than three. */
  predicate DigitsAt(s: string, i: nat, n: nat)
    requires n <= 3
  {
    && i + n <= |s|
    && (n > 0 ==> IsDigit(s[i])) && (n > 1 ==> IsDigit(s[i + 1])) && (n > 2 ==> IsDigit(s[i + 2]))
  }

  function DigitValue(c: char): (d: nat)
    requires IsDigit(c)
    ensures d < 10
  {
    (c - '0') as nat
  }

  /** The value of a run of digits; None if anything else is in it. */
  function Digits(s: string): Option<nat> {
    if s == "" then Some(0)
    else
      var rest, last := Digits(s[..|s| - 1]), s[|s| - 1];
      if rest.Some? && IsDigit(last) then Some(10 * rest.value + DigitValue(last)) else None
  }

  /** A decimal integer with an optional sign that fits into 64 bits. */
  function ParseInt(s: string): Option<int> {
    var digits := if s != "" && (s[0] == '+' || s[0] == '-') then s[1..] else s;
    if digits == "" || Digits(digits).None? then None
    else
      var n := if s[0] == '-' then -(Digits(digits).value as int) else Digits(digits).value as int;
      if -0x8000_0000_0000_0000 <= n < 0x8000_0000_0000_0000 then Some(n) else None
  }

  // ----- Time stamps -----

  /** A match: where it ends, and its groups; the fraction includes its separator, which may be any character. */
  datatype Stamp = Stamp(end: nat, hours: string, minutes: string, seconds: string, fraction: string)

  predicate EndsAfter(s: string, i: nat, m: Stamp) {
    i < m.end <= |s| && s[m.end - 1] == ']'
  }

  function Or(a: Option<Stamp>, b: Option<Stamp>): Option<Stamp> {
    if a.Some? then a else b
  }

  /**
   A time stamp starting at position i: bracket, hours?, minutes, seconds, fraction?, bracket. Two numbers before
   colons are taken for hours and minutes first, and for minutes and seconds if that fails.
   */
  function MatchTime(s: string, i: nat): (m: Option<Stamp>)
    ensures m.Some? ==> EndsAfter(s, i + 3, m.value) && s[i] == '['
  {
    if i < |s| && s[i] == '[' && Field(s, i + 1).Some? then
      AfterField(s, i + |Field(s, i + 1).value| + 2, Field(s, i + 1).value)
    else None
  }

  function AfterField(s: string, i: nat, first: string): (m: Option<Stamp>)
    ensures m.Some? ==> EndsAfter(s, i + 1, m.value)
  {
    var second := Field(s, i);
    var short := Seconds(s, i, "", first);
    if second.Some? then Or(Seconds(s, i + |second.value| + 1, first, second.value), short) else short
  }

  /** One or two digits before a colon. */
  function Field(s: string, i: nat): (f: Option<string>)
    ensures f.Some? ==> 1 <= |f.value| <= 2 && i + |f.value| < |s|
  {
    if DigitsAt(s, i, 2) && i + 2 < |s| && s[i + 2] == ':' then Some(s[i..i + 2])
    else if DigitsAt(s, i, 1) && i + 1 < |s| && s[i + 1] == ':' then Some(s[i..i + 1])
    else None
  }

  function Seconds(s: string, i: nat, hours: string, minutes: string): (m: Option<Stamp>)
    ensures m.Some? ==> EndsAfter(s, i + 1, m.value)
  {
    Or(WithSeconds(s, i, hours, minutes, 2), WithSeconds(s, i, hours, minutes, 1))
  }

  function WithSeconds(s: string, i: nat, hours: string, minutes: string, n: nat): (m: Option<Stamp>)
    requires n <= 2
    ensures m.Some? ==> EndsAfter(s, i + n, m.value)
  {
    if DigitsAt(s, i, n) then
      var f := FractionAt(s, i + n);
      if i + n + |f| < |s| && s[i + n + |f|] == ']' then Some(Stamp(i + n + |f| + 1, hours, minutes, s[i..i + n], f)) else None
    else None
  }

  /** The longest fraction that a closing bracket follows: a character and one to three digits, or nothing. */
  function FractionAt(s: string, i: nat): (f: string)
    requires i <= |s|
    ensures i + |f| <= |s|
  {
    if FractionOf(s, i, 3) then s[i..i + 4]
    else if FractionOf(s, i, 2) then s[i..i + 3]
    else if FractionOf(s, i, 1) then s[i..i + 2]
    else ""
  }

  predicate FractionOf(s: string, i: nat, n: nat)
    requires n <= 3
  {
    i < |s| && s[i] != '\n' && DigitsAt(s, i + 1, n) && i + 1 + n < |s| && s[i + 1 + n] == ']'
  }

  /** The stamp that starts at each position, if any. */
  type Marks = seq<Option<Stamp>>

  function MarksOf(s: string): (marks: Marks)
    ensures Marked(s, marks) && forall i :: 0 <= i < |s| ==> marks[i] == MatchTime(s, i)
  {
    seq(|s|, i requires 0 <= i < |s| => MatchTime(s, i))
  }

  predicate Marked(s: string, marks: Marks) {
    && |marks| == |s| && Bounded(marks)
    && forall i :: 0 <= i < |s| && marks[i].Some? ==> s[i] == '['
  }

  predicate Bounded(marks: Marks) {
    forall i :: 0 <= i < |marks| && marks[i].Some? ==> i < marks[i].value.end <= |marks|
  }

  /** The first position at or after i where a stamp starts, or the end. */
  function NextTime(marks: Marks, i: nat): (j: nat)
    requires i <= |marks|
    ensures i <= j <= |marks| && (j < |marks| ==> marks[j].Some?) && forall k :: i <= k < j ==> marks[k].None?
    decreases |marks| - i
  {
    if i == |marks| || marks[i].Some? then i else NextTime(marks, i + 1)
  }

  /** Where all the stamps start that do not overlap, left to right. */
  function AllTimes(marks: Marks, i: nat): (starts: seq<nat>)
    requires Bounded(marks) && i <= |marks|
    ensures forall k :: 0 <= k < |starts| ==> i <= starts[k] < |marks| && marks[starts[k]].Some?
    decreases |marks| - i
  {
    var j := NextTime(marks, i);
    if j == |marks| then [] else [j] + AllTimes(marks, marks[j].value.end)
  }

  /** The time in milliseconds; a separator of more than one byte is cut in the middle, which is an error. */
  function ParseTime(m: Stamp): Option<int> {
    var hours := if m.hours == "" then Some(0) else ParseInt(m.hours);
    var minutes, seconds, f := ParseInt(m.minutes), ParseInt(m.seconds), m.fraction;
    var millis := if f == "" then Some(0) else if f[0] >= '\U{80}' then None else ParseInt(f[1..]);
    if hours.None? || minutes.None? || seconds.None? || millis.None? then None
    else
      var scale := if |f| == 3 then 10 else if |f| == 2 then 100 else 1;
      Some(((hours.value * 60 + minutes.value) * 60 + seconds.value) * 1000 + millis.value * scale)
  }

  /** Some line of the text starts with a stamp, after white space only. */
  ghost predicate IsSynced(text: string) {
    exists i, j :: 0 <= i <= j < |text| && StartsLine(text, i) && Spaces(text, i, j) && MatchTime(text, j).Some?
  }

  predicate StartsLine(s: string, i: nat) {
    i <= |s| && (i == 0 || s[i - 1] == '\n')
  }

  predicate Spaces(s: string, i: nat, j: nat) {
    j <= |s| && forall k :: i <= k < j ==> IsPatternSpace(s[k])
  }

  /** The scan that finds such a stamp: `leading` tells whether only white space came since the line started. */
  function FindSynced(text: string, marks: Marks, i: nat, leading: bool): bool
    requires |marks| == |text|
    decreases |text| - i
  {
    if i >= |text| then false
    else if leading && marks[i].Some? then true
    else FindSynced(text, marks, i + 1, text[i] == '\n' || (leading && IsPatternSpace(text[i])))
  }

  /** Only white space came since a line started. */
  ghost predicate Led(text: string, j: nat)
    requires j <= |text|
  {
    exists i :: 0 <= i <= j && StartsLine(text, i) && Spaces(text, i, j)
  }

  lemma LedNext(text: string, j: nat)
    requires j < |text|
    ensures Led(text, j + 1) <==> text[j] == '\n' || (Led(text, j) && IsPatternSpace(text[j]))
  {
    if text[j] == '\n' {
      assert StartsLine(text, j + 1) && Spaces(text, j + 1, j + 1);
    } else if Led(text, j) && IsPatternSpace(text[j]) {
      var i :| 0 <= i <= j && StartsLine(text, i) && Spaces(text, i, j);
      assert Spaces(text, i, j + 1);
    } else if Led(text, j + 1) {
      var i :| 0 <= i <= j + 1 && StartsLine(text, i) && Spaces(text, i, j + 1);
      assert Spaces(text, i, j);
    }
  }

  lemma {:induction false} FindSyncedFrom(text: string, marks: Marks, j: nat, leading: bool)
    requires |marks| == |text| && j <= |text| && (leading <==> Led(text, j))
    ensures FindSynced(text, marks, j, leading) <==> exists k :: j <= k < |text| && Led(text, k) && marks[k].Some?
    decreases |text| - j
  {
    if j < |text| {
      LedNext(text, j);
      FindSyncedFrom(text, marks, j + 1, text[j] == '\n' || (leading && IsPatternSpace(text[j])));
    }
  }

  /** The scan decides what the pattern asks. */
  lemma FindSyncedExact(text: string)
    ensures FindSynced(text, MarksOf(text), 0, true) <==> IsSynced(text)
  {
    var marks := MarksOf(text);
    assert StartsLine(text, 0) && Spaces(text, 0, 0);
    FindSyncedFrom(text, marks, 0, true);
    if k :| 0 <= k < |text| && Led(text, k) && marks[k].Some? {
      var i :| 0 <= i <= k && StartsLine(text, i) && Spaces(text, i, k);
    }
  }

  // ----- Id tags -----

  datatype TagName = Artist | Title | Offset | Language

  datatype Tag = Tag(name: TagName, value: string)

  predicate HasAt(s: string, i: nat, part: string) {
    i + |part| <= |s| && s[i..i + |part|] == part
  }

  /** The first position of c from i on, or |s|. */
  function IndexFrom(s: string, i: nat, c: char): (j: nat)
    requires i <= |s|
    ensures i <= j <= |s| && (j < |s| ==> s[j] == c) && forall k :: i <= k < j ==> s[k] != c
    decreases |s| - i
  {
    if i == |s| || s[i] == c then i else IndexFrom(s, i + 1, c)
  }

  /** A tag of one name at position i: bracket, name, colon, a value without closing brackets, bracket. */
  function MatchTagNamed(s: string, i: nat, key: string, name: TagName): Option<Tag> {
    var from := i + |key| + 2;
    if HasAt(s, i, "[" + key + ":") then
      var to := IndexFrom(s, from, ']');
      if from < to < |s| then Some(Tag(name, s[from..to])) else None
    else None
  }

  function MatchTag(s: string, i: nat): Option<Tag> {
    var ar, ti := MatchTagNamed(s, i, "ar", Artist), MatchTagNamed(s, i, "ti", Title);
    var offset, lang := MatchTagNamed(s, i, "offset", Offset), MatchTagNamed(s, i, "lang", Language);
    if ar.Some? then ar else if ti.Some? then ti else if offset.Some? then offset else lang
  }

  /** The first tag anywhere in the line. */
  function FindTag(s: string, i: nat): Option<Tag>
    decreases |s| - i
  {
    if i >= |s| then None
    else if MatchTag(s, i).Some? then MatchTag(s, i)
    else FindTag(s, i + 1)
  }
}
