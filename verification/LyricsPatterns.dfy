/** The patterns the parser searches for, stated as what they match, and which match is taken. */
module LyricsPatterns {
  import opened Wrappers
  import opened LyricsText
  import opened LyricsParser
  import opened LyricsRoundTrip

  // ----- White space -----

  predicate AllSpace(s: string) {
    forall k :: 0 <= k < |s| ==> IsSpace(s[k])
  }

  /** Trimming cuts off all the white space at both ends, and nothing else. */
  lemma TrimExact(s: string)
    ensures exists i, j :: 0 <= i <= j <= |s| && Trim(s) == s[i..j] && AllSpace(s[..i]) && AllSpace(s[j..])
    ensures Trim(s) != "" ==> !IsSpace(Trim(s)[0]) && !IsSpace(Trim(s)[|Trim(s)| - 1])
  {
    var i := SkipSpace(s, 0);
    var j := i + |Trim(s)|;
    TrimmedRight(s, i);
    assert Trim(s) == s[i..j];
  }

  lemma TrimmedRight(s: string, i: nat)
    requires i <= |s|
    ensures var t := TrimRight(s[i..]);
            i + |t| <= |s| && t == s[i..i + |t|] && forall k :: i + |t| <= k < |s| ==> IsSpace(s[k])
  {
    var t := TrimRight(s[i..]);
    forall k | i + |t| <= k < |s| ensures IsSpace(s[k]) {
      assert s[i..][k - i] == s[k];
    }
  }

  // ----- Time stamps -----

  lemma DigitsAtExact(s: string, i: nat, n: nat)
    requires n <= 3
    ensures DigitsAt(s, i, n) <==> i + n <= |s| && forall k :: i <= k < i + n ==> '0' <= s[k] <= '9'
  {
  }

  predicate CharAt(s: string, i: nat, c: char) {
    i < |s| && s[i] == c
  }

  /** One or two digits. */
  predicate NumberAt(s: string, i: nat, part: string) {
    1 <= |part| <= 2 && DigitsAt(s, i, |part|) && part == s[i..i + |part|]
  }

  /** Nothing, or any character but a line feed and one to three digits. */
  predicate FractionIs(s: string, i: nat, f: string) {
    || f == ""
    || (2 <= |f| <= 4 && DigitsAt(s, i + 1, |f| - 1) && f == s[i..i + |f|] && s[i] != '\n')
  }

  predicate TailIs(s: string, i: nat, seconds: string, f: string) {
    NumberAt(s, i, seconds) && FractionIs(s, i + |seconds|, f) && CharAt(s, i + |seconds| + |f|, ']')
  }

  predicate FieldIs(s: string, i: nat, part: string) {
    NumberAt(s, i, part) && CharAt(s, i + |part|, ':')
  }

  /** Minutes, a colon, seconds, a fraction and a bracket. */
  predicate RestIs(s: string, i: nat, m: Stamp) {
    var seconds := i + |m.minutes| + 1;
    FieldIs(s, i, m.minutes) && TailIs(s, seconds, m.seconds, m.fraction) && m.end == seconds + |m.seconds| + |m.fraction| + 1
  }

  /** The text at position i is a stamp with these parts; hours come with their colon or not at all. */
  predicate IsStamp(s: string, i: nat, m: Stamp) {
    && CharAt(s, i, '[')
    && if m.hours == "" then RestIs(s, i + 1, m) else FieldIs(s, i + 1, m.hours) && RestIs(s, i + |m.hours| + 2, m)
  }

  /** The order in which a greedy matcher tries the stamps: hours if possible, and every part as long as possible. */
  predicate Preferred(m: Stamp, n: Stamp) {
    if |m.hours| != |n.hours| then |m.hours| > |n.hours|
    else if |m.minutes| != |n.minutes| then |m.minutes| > |n.minutes|
    else if |m.seconds| != |n.seconds| then |m.seconds| > |n.seconds|
    else |m.fraction| >= |n.fraction|
  }

  lemma FractionFound(s: string, i: nat, f: string)
    requires i <= |s| && f != "" && FractionIs(s, i, f) && CharAt(s, i + |f|, ']')
    ensures |f| <= |FractionAt(s, i)|
  {
    assert FractionOf(s, i, |f| - 1);
  }

  lemma FractionIsOne(s: string, i: nat)
    requires i <= |s|
    ensures FractionIs(s, i, FractionAt(s, i))
    ensures FractionAt(s, i) != "" ==> CharAt(s, i + |FractionAt(s, i)|, ']')
  {
  }

  lemma WithSecondsIsTail(s: string, i: nat, hours: string, minutes: string, n: nat)
    requires 1 <= n <= 2 && WithSeconds(s, i, hours, minutes, n).Some?
    ensures IsTailOf(s, i, hours, minutes, WithSeconds(s, i, hours, minutes, n).value)
  {
    FractionIsOne(s, i + n);
  }

  /** The stamp has these hours and minutes, and its seconds, fraction and bracket are at position i. */
  predicate IsTailOf(s: string, i: nat, hours: string, minutes: string, m: Stamp) {
    && m.hours == hours && m.minutes == minutes && TailIs(s, i, m.seconds, m.fraction)
    && m.end == i + |m.seconds| + |m.fraction| + 1
  }

  lemma FractionCloses(s: string, i: nat, f: string)
    requires i <= |s| && FractionIs(s, i, f) && CharAt(s, i + |f|, ']')
    ensures |f| <= |FractionAt(s, i)| && CharAt(s, i + |FractionAt(s, i)|, ']')
  {
    if f != "" {
      FractionFound(s, i, f);
    }
    FractionIsOne(s, i);
  }

  lemma WithSecondsFinds(s: string, i: nat, hours: string, minutes: string, sec: string, f: string)
    requires TailIs(s, i, sec, f)
    ensures var m := WithSeconds(s, i, hours, minutes, |sec|); m.Some? && m.value.seconds == sec && |f| <= |m.value.fraction|
  {
    FractionCloses(s, i + |sec|, f);
  }

  lemma SecondsIsTail(s: string, i: nat, hours: string, minutes: string)
    requires Seconds(s, i, hours, minutes).Some?
    ensures IsTailOf(s, i, hours, minutes, Seconds(s, i, hours, minutes).value)
  {
    if WithSeconds(s, i, hours, minutes, 2).Some? {
      WithSecondsIsTail(s, i, hours, minutes, 2);
    } else {
      WithSecondsIsTail(s, i, hours, minutes, 1);
    }
  }

  lemma SecondsFinds(s: string, i: nat, hours: string, minutes: string, sec: string, f: string)
    requires TailIs(s, i, sec, f)
    ensures var m := Seconds(s, i, hours, minutes);
            m.Some? && (|sec| < |m.value.seconds| || (|sec| == |m.value.seconds| && |f| <= |m.value.fraction|))
  {
    WithSecondsFinds(s, i, hours, minutes, sec, f);
    if WithSeconds(s, i, hours, minutes, 2).Some? {
      WithSecondsIsTail(s, i, hours, minutes, 2);
    }
  }

  lemma FieldExact(s: string, i: nat, part: string)
    ensures Field(s, i) == Some(part) <==> FieldIs(s, i, part)
  {
  }

  lemma AfterFieldWithHours(s: string, i: nat, first: string, second: string)
    requires Field(s, i) == Some(second) && Seconds(s, i + |second| + 1, first, second).Some?
    ensures forall m :: AfterField(s, i, first) == Some(m) ==> m.hours == first && RestIs(s, i, m)
  {
    FieldExact(s, i, second);
    SecondsIsTail(s, i + |second| + 1, first, second);
  }

  lemma AfterFieldWithoutHours(s: string, i: nat, first: string)
    requires var second := Field(s, i); second.Some? ==> Seconds(s, i + |second.value| + 1, first, second.value).None?
    ensures forall m :: AfterField(s, i, first) == Some(m) ==> IsTailOf(s, i, "", first, m)
  {
    if AfterField(s, i, first).Some? {
      SecondsIsTail(s, i, "", first);
    }
  }

  /** What a stamp is, with hours or without. */
  lemma StampCases(s: string, i: nat, m: Stamp)
    requires CharAt(s, i, '[')
    ensures m.hours != "" && FieldIs(s, i + 1, m.hours) && RestIs(s, i + |m.hours| + 2, m) ==> IsStamp(s, i, m)
    ensures FieldIs(s, i + 1, m.minutes) && IsTailOf(s, i + |m.minutes| + 2, "", m.minutes, m) ==> IsStamp(s, i, m)
  {
  }

  lemma ReadWithHours(s: string, i: nat, j: nat, first: string, second: string)
    requires CharAt(s, i, '[') && Field(s, i + 1) == Some(first) && j == i + |first| + 2
    requires Field(s, j) == Some(second) && Seconds(s, j + |second| + 1, first, second).Some?
    ensures forall m :: AfterField(s, j, first) == Some(m) ==> IsStamp(s, i, m)
  {
    var found := AfterField(s, j, first);
    FieldExact(s, i + 1, first);
    AfterFieldWithHours(s, j, first, second);
    if found.Some? {
      StampCases(s, i, found.value);
    }
  }

  lemma ReadWithoutHours(s: string, i: nat, j: nat, first: string)
    requires CharAt(s, i, '[') && Field(s, i + 1) == Some(first) && j == i + |first| + 2
    requires Field(s, j).Some? ==> Seconds(s, j + |Field(s, j).value| + 1, first, Field(s, j).value).None?
    ensures forall m :: AfterField(s, j, first) == Some(m) ==> IsStamp(s, i, m)
  {
    var found := AfterField(s, j, first);
    FieldExact(s, i + 1, first);
    AfterFieldWithoutHours(s, j, first);
    if found.Some? {
      StampCases(s, i, found.value);
    }
  }

  lemma ReadIsStamp(s: string, i: nat, j: nat, first: string)
    requires CharAt(s, i, '[') && Field(s, i + 1) == Some(first) && j == i + |first| + 2
    ensures forall m :: AfterField(s, j, first) == Some(m) ==> IsStamp(s, i, m)
  {
    var second := Field(s, j);
    if second.Some? && Seconds(s, j + |second.value| + 1, first, second.value).Some? {
      ReadWithHours(s, i, j, first, second.value);
    } else {
      ReadWithoutHours(s, i, j, first);
    }
  }

  lemma FoundIsStamp(s: string, i: nat)
    ensures forall m :: MatchTime(s, i) == Some(m) ==> IsStamp(s, i, m)
  {
    if MatchTime(s, i).Some? {
      var first := Field(s, i + 1).value;
      ReadIsStamp(s, i, i + |first| + 2, first);
    }
  }

  /** With hours: the stamp taken has these hours and minutes, and as much as possible of the rest. */
  lemma HoursAreFound(s: string, i: nat, m: Stamp)
    requires m.hours != "" && RestIs(s, i, m)
    ensures AfterField(s, i, m.hours).Some? && Preferred(AfterField(s, i, m.hours).value, m)
  {
    FieldExact(s, i, m.minutes);
    SecondsFinds(s, i + |m.minutes| + 1, m.hours, m.minutes, m.seconds, m.fraction);
    SecondsIsTail(s, i + |m.minutes| + 1, m.hours, m.minutes);
  }

  /** Without: the stamp taken has hours after all, or these minutes and as much as possible of the rest. */
  lemma MinutesAreFound(s: string, i: nat, m: Stamp)
    requires m.hours == "" && m.minutes != "" && TailIs(s, i, m.seconds, m.fraction)
    ensures AfterField(s, i, m.minutes).Some? && Preferred(AfterField(s, i, m.minutes).value, m)
  {
    SecondsFinds(s, i, "", m.minutes, m.seconds, m.fraction);
    SecondsIsTail(s, i, "", m.minutes);
    var second := Field(s, i);
    if second.Some? && Seconds(s, i + |second.value| + 1, m.minutes, second.value).Some? {
      SecondsIsTail(s, i + |second.value| + 1, m.minutes, second.value);
    }
  }

  lemma StampIsFound(s: string, i: nat, m: Stamp)
    requires IsStamp(s, i, m)
    ensures MatchTime(s, i).Some? && Preferred(MatchTime(s, i).value, m)
  {
    if m.hours == "" {
      FieldExact(s, i + 1, m.minutes);
      MinutesAreFound(s, i + |m.minutes| + 2, m);
    } else {
      FieldExact(s, i + 1, m.hours);
      HoursAreFound(s, i + |m.hours| + 2, m);
    }
  }

  /** The stamp found at a position is the most preferred of those that are there, and it is found if there is any. */
  lemma MatchTimeExact(s: string, i: nat)
    ensures forall m :: MatchTime(s, i) == Some(m) ==> IsStamp(s, i, m)
    ensures forall m :: IsStamp(s, i, m) ==> MatchTime(s, i).Some? && Preferred(MatchTime(s, i).value, m)
  {
    FoundIsStamp(s, i);
    forall m | IsStamp(s, i, m) {
      StampIsFound(s, i, m);
    }
  }

  // ----- All the stamps of a line -----

  predicate AreStarts(marks: Marks, starts: seq<nat>) {
    forall k :: 0 <= k < |starts| ==> starts[k] < |marks| && marks[starts[k]].Some?
  }

  /** Where the search for stamp number k starts: after the one before it. */
  function SearchedFrom(marks: Marks, i: nat, starts: seq<nat>, k: nat): nat
    requires k <= |starts| && AreStarts(marks, starts)
  {
    if k == 0 then i else marks[starts[k - 1]].value.end
  }

  /** And where it ends: at that stamp, or at the end of the line. */
  function SearchedTo(marks: Marks, starts: seq<nat>, k: nat): nat
    requires k <= |starts|
  {
    if k < |starts| then starts[k] else |marks|
  }

  predicate NoneBetween(marks: Marks, from: nat, to: nat) {
    from <= to <= |marks| && forall p :: from <= p < to ==> marks[p].None?
  }

  /** Each stamp is the first after the one before it, and there is none after the last. */
  ghost predicate AreLeftmost(marks: Marks, i: nat, starts: seq<nat>) {
    && AreStarts(marks, starts)
    && forall k :: 0 <= k <= |starts| ==> NoneBetween(marks, SearchedFrom(marks, i, starts, k), SearchedTo(marks, starts, k))
  }

  lemma StartsShift(marks: Marks, i: nat, j: nat, later: seq<nat>, k: nat)
    requires j < |marks| && marks[j].Some? && AreStarts(marks, later) && 1 <= k <= |later| + 1
    ensures AreStarts(marks, [j] + later)
    ensures SearchedFrom(marks, i, [j] + later, k) == SearchedFrom(marks, marks[j].value.end, later, k - 1)
    ensures SearchedTo(marks, [j] + later, k) == SearchedTo(marks, later, k - 1)
  {
    var all := [j] + later;
    forall n | 0 <= n < |all| ensures all[n] < |marks| && marks[all[n]].Some? {
      assert n > 0 ==> all[n] == later[n - 1];
    }
    assert k > 1 ==> all[k - 1] == later[k - 2];
    assert k < |all| ==> all[k] == later[k - 1];
  }

  lemma {:induction false} AllTimesExact(marks: Marks, i: nat)
    requires Bounded(marks) && i <= |marks|
    ensures AreLeftmost(marks, i, AllTimes(marks, i))
    decreases |marks| - i
  {
    var j := NextTime(marks, i);
    if j < |marks| {
      AllTimesExact(marks, marks[j].value.end);
      OneMoreStart(marks, i, j, AllTimes(marks, marks[j].value.end));
    }
  }

  lemma OneMoreStart(marks: Marks, i: nat, j: nat, later: seq<nat>)
    requires j < |marks| && marks[j].Some? && NoneBetween(marks, i, j)
    requires AreLeftmost(marks, marks[j].value.end, later)
    ensures AreLeftmost(marks, i, [j] + later)
  {
    var all := [j] + later;
    StartsShift(marks, i, j, later, 1);
    forall k | 0 <= k <= |all| ensures NoneBetween(marks, SearchedFrom(marks, i, all, k), SearchedTo(marks, all, k)) {
      if k > 0 {
        StartsShift(marks, i, j, later, k);
      }
    }
  }

  predicate SpaceBetween(s: string, from: nat, to: nat) {
    from <= to <= |s| && forall p :: from <= p < to ==> IsSpace(s[p])
  }

  /** From position i on there is white space, and then no stamp. */
  ghost predicate NoneLeads(s: string, marks: Marks, i: nat)
    requires |marks| == |s|
  {
    exists j: nat :: SpaceBetween(s, i, j) && (j < |s| ==> marks[j].None? && !IsSpace(s[j]))
  }

  /** The leading stamps: each after white space only, up to the first that is not. */
  ghost predicate AreLeading(s: string, marks: Marks, i: nat, at: seq<nat>, stamps: seq<Stamp>, end: nat) {
    && |at| == |stamps| && |marks| == |s| && AreStarts(marks, at)
    && (forall k :: 0 <= k < |at| ==> marks[at[k]] == Some(stamps[k]))
    && (forall k :: 0 <= k < |at| ==> SpaceBetween(s, SearchedFrom(marks, i, at, k), at[k]))
    && end == SearchedFrom(marks, i, at, |at|) && NoneLeads(s, marks, end)
  }

  lemma {:induction false} LeadingExact(s: string, marks: Marks, i: nat) returns (at: seq<nat>)
    requires Marked(s, marks) && i <= |s|
    ensures AreLeading(s, marks, i, at, Leading(s, marks, i).0, Leading(s, marks, i).1)
    decreases |s| - i
  {
    var j := SkipSpace(s, i);
    assert SpaceBetween(s, i, j);
    if j == |s| || marks[j].None? {
      at := [];
    } else {
      var m := marks[j].value;
      var later := LeadingExact(s, marks, m.end);
      at := [j] + later;
      OneMoreLeading(s, marks, i, j, later, Leading(s, marks, m.end).0, Leading(s, marks, m.end).1);
    }
  }

  lemma OneMoreLeading(s: string, marks: Marks, i: nat, j: nat, later: seq<nat>, stamps: seq<Stamp>, end: nat)
    requires j < |marks| == |s| && marks[j].Some? && SpaceBetween(s, i, j)
    requires AreLeading(s, marks, marks[j].value.end, later, stamps, end)
    ensures AreLeading(s, marks, i, [j] + later, [marks[j].value] + stamps, end)
  {
    var all, found := [j] + later, [marks[j].value] + stamps;
    StartsShift(marks, i, j, later, |all|);
    forall k | 0 <= k < |all| ensures marks[all[k]] == Some(found[k]) && SpaceBetween(s, SearchedFrom(marks, i, all, k), all[k]) {
      if k > 0 {
        StartsShift(marks, i, j, later, k);
        assert all[k] == later[k - 1] && found[k] == stamps[k - 1];
      }
    }
  }

  lemma {:induction false} ParseAllExact(stamps: seq<Stamp>, times: seq<int>)
    ensures ParseAll(stamps) == Some(times) <==>
            |times| == |stamps| && forall k :: 0 <= k < |stamps| ==> ParseTime(stamps[k]) == Some(times[k])
  {
    if stamps != [] {
      if times != [] {
        ParseAllExact(stamps[1..], times[1..]);
        assert times == [times[0]] + times[1..];
      }
    }
  }

  // ----- Id tags -----

  function KeyOf(name: TagName): string {
    match name
    case Artist => "ar"
    case Title => "ti"
    case Offset => "offset"
    case Language => "lang"
  }

  /** The text at position i is this tag; its value is not empty and has no closing bracket. */
  predicate IsTag(s: string, i: nat, tag: Tag) {
    var from := i + |KeyOf(tag.name)| + 2;
    && HasAt(s, i, "[" + KeyOf(tag.name) + ":") && HasAt(s, from, tag.value) && CharAt(s, from + |tag.value|, ']')
    && tag.value != "" && ']' !in tag.value
  }

  lemma TagIsMatched(s: string, i: nat, tag: Tag)
    requires IsTag(s, i, tag)
    ensures MatchTagNamed(s, i, KeyOf(tag.name), tag.name) == Some(tag)
  {
    var from := i + |KeyOf(tag.name)| + 2;
    forall k | from <= k < from + |tag.value| ensures s[k] != ']' {
      assert s[from..from + |tag.value|][k - from] == s[k] && s[k] in tag.value;
    }
    assert IndexFrom(s, from, ']') == from + |tag.value|;
  }

  lemma MatchedIsTag(s: string, i: nat, name: TagName)
    requires MatchTagNamed(s, i, KeyOf(name), name).Some?
    ensures MatchTagNamed(s, i, KeyOf(name), name).value.name == name
    ensures IsTag(s, i, MatchTagNamed(s, i, KeyOf(name), name).value)
  {
    var from := i + |KeyOf(name)| + 2;
    var to := IndexFrom(s, from, ']');
    forall k | 0 <= k < to - from ensures s[from..to][k] != ']' {
      assert s[from..to][k] == s[from + k];
    }
  }

  lemma MatchTagNamedExact(s: string, i: nat, name: TagName, value: string)
    ensures MatchTagNamed(s, i, KeyOf(name), name) == Some(Tag(name, value)) <==> IsTag(s, i, Tag(name, value))
  {
    if IsTag(s, i, Tag(name, value)) {
      TagIsMatched(s, i, Tag(name, value));
    }
    if MatchTagNamed(s, i, KeyOf(name), name).Some? {
      MatchedIsTag(s, i, name);
    }
  }

  /** Two tags cannot start at one place. */
  lemma OneTag(s: string, i: nat, a: TagName, b: TagName)
    requires HasAt(s, i, "[" + KeyOf(a) + ":") && HasAt(s, i, "[" + KeyOf(b) + ":")
    ensures a == b
  {
    assert s[i + 1] == KeyOf(a)[0] by {
      FirstTwo(s, i, "[" + KeyOf(a) + ":");
    }
    assert s[i + 1] == KeyOf(b)[0] by {
      FirstTwo(s, i, "[" + KeyOf(b) + ":");
    }
  }

  lemma MatchTagExact(s: string, i: nat, tag: Tag)
    ensures MatchTag(s, i) == Some(tag) <==> IsTag(s, i, tag)
  {
    forall name, value
      ensures MatchTagNamed(s, i, KeyOf(name), name) == Some(Tag(name, value)) <==> IsTag(s, i, Tag(name, value))
    {
      MatchTagNamedExact(s, i, name, value);
    }
    forall a, b | MatchTagNamed(s, i, KeyOf(a), a).Some? && MatchTagNamed(s, i, KeyOf(b), b).Some? ensures a == b {
      OneTag(s, i, a, b);
    }
    assert KeyOf(Artist) == "ar" && KeyOf(Title) == "ti" && KeyOf(Offset) == "offset" && KeyOf(Language) == "lang";
    assert tag == Tag(tag.name, tag.value);
  }

  ghost predicate NoTagAt(s: string, i: nat) {
    forall t :: !IsTag(s, i, t)
  }

  ghost predicate FirstTagAt(s: string, i: nat, j: nat, tag: Tag) {
    i <= j && IsTag(s, j, tag) && forall p :: i <= p < j ==> NoTagAt(s, p)
  }

  lemma NoMatchNoTag(s: string, i: nat)
    ensures MatchTag(s, i).None? <==> NoTagAt(s, i)
    ensures MatchTag(s, i).Some? ==> IsTag(s, i, MatchTag(s, i).value)
  {
    forall t ensures MatchTag(s, i) == Some(t) <==> IsTag(s, i, t) {
      MatchTagExact(s, i, t);
    }
  }

  /** The tag found in a line is the first one in it. */
  lemma {:induction false} FoundTagIsFirst(s: string, i: nat) returns (j: nat)
    requires FindTag(s, i).Some?
    ensures FirstTagAt(s, i, j, FindTag(s, i).value)
    decreases |s| - i
  {
    NoMatchNoTag(s, i);
    if MatchTag(s, i).Some? {
      j := i;
    } else {
      j := FoundTagIsFirst(s, i + 1);
    }
  }

  /** If none is found, there is none. */
  lemma {:induction false} NoTagFound(s: string, i: nat, p: nat)
    requires FindTag(s, i).None? && i <= p
    ensures NoTagAt(s, p)
    decreases |s| - i
  {
    if i < |s| && i < p {
      NoTagFound(s, i + 1, p);
    } else {
      NoMatchNoTag(s, p);
    }
  }

  // ----- Numbers -----

  /** A run of digits with its sign, if it has one; 64 bits must hold it. */
  lemma ParseIntExact(v: nat, n: nat, sign: string, s: string)
    requires n >= 1 && v < Power10(n) && sign in ["", "+", "-"] && s == sign + Padded(v, n)
    ensures ParseInt(s) == if sign == "-" then (if v <= 0x8000_0000_0000_0000 then Some(-(v as int)) else None)
                           else if v < 0x8000_0000_0000_0000 then Some(v) else None
  {
    DigitsOfPadded(v, n);
    SignedDigits(sign, Padded(v, n), s);
    SignedValue(sign, Padded(v, n), s, v);
  }

  lemma SignedValue(sign: string, digits: string, s: string, v: nat)
    requires s != "" && (s[0] == '-' <==> sign == "-") && digits != "" && Digits(digits) == Some(v)
    requires (if s[0] == '+' || s[0] == '-' then s[1..] else s) == digits
    ensures ParseInt(s) == if sign == "-" then (if v <= 0x8000_0000_0000_0000 then Some(-(v as int)) else None)
                           else if v < 0x8000_0000_0000_0000 then Some(v) else None
  {
  }

  lemma SignedDigits(sign: string, digits: string, s: string)
    requires digits != "" && IsDigit(digits[0]) && sign in ["", "+", "-"] && s == sign + digits
    ensures s != "" && (s[0] == '-' <==> sign == "-")
    ensures (if s[0] == '+' || s[0] == '-' then s[1..] else s) == digits
  {
    if sign == "" {
      assert s == digits;
    } else {
      assert s[0] == sign[0] && s[1..] == digits;
    }
  }

  /** Nothing but an optional sign and digits is a number. */
  lemma ParseIntNeedsDigits(s: string)
    requires ParseInt(s).Some?
    ensures var digits := if s != "" && (s[0] == '+' || s[0] == '-') then s[1..] else s;
            digits != "" && forall k :: 0 <= k < |digits| ==> IsDigit(digits[k])
  {
    DigitsAreDigits(if s[0] == '+' || s[0] == '-' then s[1..] else s);
  }

  lemma {:induction false} DigitsAreDigits(s: string)
    requires Digits(s).Some?
    ensures forall k :: 0 <= k < |s| ==> IsDigit(s[k])
  {
    if s != "" {
      DigitsAreDigits(s[..|s| - 1]);
    }
  }

  /** A number of one or two digits. */
  predicate Reads(part: string, v: nat) {
    1 <= |part| <= 2 && v < Power10(|part|) && part == Padded(v, |part|)
  }

  lemma ReadsParses(part: string, v: nat)
    requires Reads(part, v)
    ensures part != "" && ParseInt(part) == Some(v)
  {
    ParsePadded(v, |part|);
  }

  lemma FractionParses(f: string, v: nat, n: nat)
    requires 1 <= n <= 3 && v < Power10(n) && |f| == n + 1 && f[1..] == Padded(v, n)
    ensures ParseInt(f[1..]) == Some(v)
  {
    ParsePadded(v, n);
  }

  /** The value of a stamp, with or without hours and fraction, and with any separator that is one byte. */
  lemma ParseTimeExact(h: nat, m: nat, sec: nat, v: nat, n: nat, stamp: Stamp)
    requires (stamp.hours == "" && h == 0) || Reads(stamp.hours, h)
    requires Reads(stamp.minutes, m) && Reads(stamp.seconds, sec)
    requires n <= 3 && v < Power10(n)
    requires if n == 0 then stamp.fraction == ""
             else |stamp.fraction| == n + 1 && stamp.fraction[0] < '\U{80}' && stamp.fraction[1..] == Padded(v, n)
    ensures ParseTime(stamp) == Some(Millis(h, m, sec, v, n))
  {
    if stamp.hours != "" {
      ReadsParses(stamp.hours, h);
    }
    ReadsParses(stamp.minutes, m);
    ReadsParses(stamp.seconds, sec);
    if n > 0 {
      FractionParses(stamp.fraction, v, n);
    }
    TimeOfParts(stamp, h, m, sec, v, n);
  }

  lemma TimeOfParts(stamp: Stamp, h: nat, m: nat, sec: nat, v: nat, n: nat)
    requires if stamp.hours == "" then h == 0 else ParseInt(stamp.hours) == Some(h)
    requires ParseInt(stamp.minutes) == Some(m) && ParseInt(stamp.seconds) == Some(sec) && n <= 3
    requires if n == 0 then stamp.fraction == "" && v == 0
             else |stamp.fraction| == n + 1 && stamp.fraction[0] < '\U{80}' && ParseInt(stamp.fraction[1..]) == Some(v)
    ensures ParseTime(stamp) == Some(Millis(h, m, sec, v, n))
  {
  }
}
