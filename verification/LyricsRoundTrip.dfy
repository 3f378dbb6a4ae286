/** Printed time stamps and printed lyrics, and what the parser makes of them. */
module LyricsRoundTrip {
  import opened Wrappers
  import opened LyricsText
  import opened LyricsParser

  // ----- Printing -----

  function Digit(d: nat): (c: char)
    requires d < 10
    ensures IsDigit(c) && DigitValue(c) == d
  {
    '0' + d as char
  }

  /** Exactly n digits, padded with zeros. */
  function Padded(v: nat, n: nat): (s: string)
    ensures |s| == n && forall k :: 0 <= k < n ==> IsDigit(s[k])
  {
    if n == 0 then "" else Padded(v / 10, n - 1) + [Digit(v % 10)]
  }

  function Power10(n: nat): nat {
    if n == 0 then 1 else 10 * Power10(n - 1)
  }

  lemma {:induction false} DigitsOfPadded(v: nat, n: nat)
    requires v < Power10(n)
    ensures Digits(Padded(v, n)) == Some(v)
  {
    if n > 0 {
      assert Padded(v, n)[..n - 1] == Padded(v / 10, n - 1);
      DigitsOfPadded(v / 10, n - 1);
    }
  }

  /** The parts of a stamp as text; without hours, the first is empty. Anything but a colon may separate the fraction. */
  predicate Parts(hours: string, minutes: string, seconds: string, fraction: string) {
    && (hours == "" || (|hours| == 2 && DigitsAt(hours, 0, 2)))
    && |minutes| == 2 && DigitsAt(minutes, 0, 2)
    && |seconds| == 2 && DigitsAt(seconds, 0, 2)
    && (fraction == "" || (2 <= |fraction| <= 4 && fraction[0] != '\n' && fraction[0] != ':' && DigitsAt(fraction, 1, |fraction| - 1)))
  }

  function StampText(hours: string, minutes: string, seconds: string, fraction: string): string {
    var tail := TailText(minutes, seconds, fraction);
    "[" + if hours == "" then tail else hours + (":" + tail)
  }

  function TailText(minutes: string, seconds: string, f: string): string {
    minutes + (":" + (seconds + (f + "]")))
  }

  // ----- Reading a printed stamp -----

  /** The text goes on with one to three digits and another closing bracket. */
  predicate Swallows(s: string, i: nat) {
    exists n :: 1 <= n <= 3 && ClosesAfter(s, i, n)
  }

  predicate ClosesAfter(s: string, i: nat, n: nat)
    requires n <= 3
  {
    DigitsAt(s, i, n) && i + n < |s| && s[i + n] == ']'
  }

  lemma FractionRead(s: string, i: nat, f: string)
    requires HasAt(s, i, f + "]")
    requires f == "" || (2 <= |f| <= 4 && f[0] != '\n' && DigitsAt(f, 1, |f| - 1))
    ensures FractionAt(s, i) == f <==> f != "" || !Swallows(s, i + 1)
    ensures FractionAt(s, i) != f ==> |FractionAt(s, i)| > |f|
  {
    assert s[i..i + |f| + 1][|f|] == s[i + |f|] == ']';
    forall k | 0 <= k < |f| ensures s[i + k] == f[k] {
      assert s[i..i + |f| + 1][k] == s[i + k];
    }
    if f == "" {
      forall n | 1 <= n <= 3 ensures FractionOf(s, i, n) <==> ClosesAfter(s, i + 1, n) {
      }
    } else {
      var n := |f| - 1;
      assert s[i..i + n + 1] == f;
      assert FractionOf(s, i, n);
      assert !IsDigit(s[i + 1 + n]);
    }
  }

  lemma PartAt(s: string, i: nat, a: string, b: string)
    requires HasAt(s, i, a + b)
    ensures HasAt(s, i, a) && HasAt(s, i + |a|, b)
    ensures forall k :: 0 <= k < |a| ==> s[i + k] == a[k]
    ensures forall k :: 0 <= k < |b| ==> s[i + |a| + k] == b[k]
  {
    var whole := s[i..i + |a| + |b|];
    assert whole == a + b && whole[..|a|] == a && whole[|a|..] == b;
    assert forall k :: 0 <= k < |whole| ==> whole[k] == s[i + k];
    assert forall k :: 0 <= k < |b| ==> b[k] == whole[|a| + k];
    assert s[i..i + |a|] == a;
    assert s[i + |a|..i + |a| + |b|] == b;
  }

  lemma SecondsAt(s: string, i: nat, seconds: string, f: string)
    requires |seconds| == 2 && DigitsAt(seconds, 0, 2) && HasAt(s, i, seconds + (f + "]"))
    ensures DigitsAt(s, i, 2) && s[i..i + 2] == seconds
    ensures HasAt(s, i + 2, f + "]") && i + 2 + |f| < |s| && s[i + 2 + |f|] == ']'
  {
    PartAt(s, i, seconds, f + "]");
    PartAt(s, i + 2, f, "]");
  }

  /** From the seconds on: the printed form is read back unless the text after it makes a longer match. */
  lemma SecondsRead(s: string, i: nat, hours: string, minutes: string, seconds: string, f: string, end: nat)
    requires Parts(hours, minutes, seconds, f) && HasAt(s, i, seconds + (f + "]")) && end == i + |f| + 3
    ensures var m := WithSeconds(s, i, hours, minutes, 2);
            && (f != "" || !Swallows(s, end) <==> m == Some(Stamp(end, hours, minutes, seconds, f)))
            && m.Some?
  {
    SecondsAt(s, i, seconds, f);
    FractionRead(s, i + 2, f);
    assert f == "" ==> end == i + 2 + 1;
  }

  lemma FieldRead(s: string, i: nat, field: string, rest: string)
    requires |field| == 2 && DigitsAt(field, 0, 2) && HasAt(s, i, field + (":" + rest))
    ensures Field(s, i) == Some(field) && HasAt(s, i + 3, rest)
  {
    PartAt(s, i, field, ":" + rest);
    PartAt(s, i + 2, ":", rest);
    assert DigitsAt(s, i, 2) && s[i..i + 2] == field;
  }

  /** Seconds are not taken for minutes. */
  lemma NoField(s: string, i: nat, seconds: string, f: string)
    requires Parts("", seconds, seconds, f) && HasAt(s, i, seconds + (f + "]"))
    ensures Field(s, i).None?
  {
    PartAt(s, i, seconds, f + "]");
    assert s[i + 2] == (f + "]")[0];
  }

  /** A stamp of minutes and seconds is read back exactly when it has a fraction, or no digits and bracket follow. */
  lemma ShortStampReadExact(s: string, i: nat, minutes: string, seconds: string, f: string, end: nat)
    requires Parts("", minutes, seconds, f) && HasAt(s, i, StampText("", minutes, seconds, f)) && end == i + |f| + 7
    ensures MatchTime(s, i) == Some(Stamp(end, "", minutes, seconds, f)) <==> f != "" || !Swallows(s, end)
  {
    PartAt(s, i, "[", TailText(minutes, seconds, f));
    FieldRead(s, i + 1, minutes, seconds + (f + "]"));
    NoField(s, i + 4, seconds, f);
    SecondsRead(s, i + 4, "", minutes, seconds, f, end);
  }

  lemma HoursRead(s: string, i: nat, hours: string, minutes: string, seconds: string, f: string)
    requires Parts(hours, minutes, seconds, f) && hours != "" && HasAt(s, i, StampText(hours, minutes, seconds, f))
    ensures i < |s| && s[i] == '[' && Field(s, i + 1) == Some(hours) && Field(s, i + 4) == Some(minutes)
    ensures HasAt(s, i + 7, seconds + (f + "]"))
  {
    PartAt(s, i, "[", hours + (":" + TailText(minutes, seconds, f)));
    FieldRead(s, i + 1, hours, TailText(minutes, seconds, f));
    FieldRead(s, i + 4, minutes, seconds + (f + "]"));
  }

  lemma WithBothFields(s: string, i: nat, hours: string, minutes: string)
    requires |hours| == |minutes| == 2 && i < |s| && s[i] == '['
    requires Field(s, i + 1) == Some(hours) && Field(s, i + 4) == Some(minutes)
    ensures Seconds(s, i + 7, hours, minutes).Some? ==> MatchTime(s, i) == Seconds(s, i + 7, hours, minutes)
  {
  }

  /** So is one with hours. */
  lemma StampReadExact(s: string, i: nat, hours: string, minutes: string, seconds: string, f: string, end: nat)
    requires Parts(hours, minutes, seconds, f) && hours != ""
    requires HasAt(s, i, StampText(hours, minutes, seconds, f)) && end == i + |f| + 10
    ensures MatchTime(s, i) == Some(Stamp(end, hours, minutes, seconds, f)) <==> f != "" || !Swallows(s, end)
  {
    HoursRead(s, i, hours, minutes, seconds, f);
    SecondsRead(s, i + 7, hours, minutes, seconds, f, end);
    WithBothFields(s, i, hours, minutes);
  }

  /** Reading inverts printing, for one, two or three digits of a second's fraction. */
  lemma TimeRoundTrip(h: nat, m: nat, sec: nat, v: nat, n: nat, stamp: Stamp)
    requires h < 100 && m < 100 && sec < 100 && 1 <= n <= 3 && v < Power10(n)
    requires stamp.hours == Padded(h, 2) && stamp.minutes == Padded(m, 2) && stamp.seconds == Padded(sec, 2)
    requires stamp.fraction == "." + Padded(v, n)
    ensures ParseTime(stamp) == Some(Millis(h, m, sec, v, n))
  {
    PartsRead(h, m, sec, v, n, stamp);
    TimeOf(stamp, h, m, sec, v, n);
  }

  /** v is a fraction of a second in n digits. */
  function Millis(h: int, m: int, sec: int, v: int, n: nat): int {
    ((h * 60 + m) * 60 + sec) * 1000 + (if n == 1 then 100 * v else if n == 2 then 10 * v else v)
  }

  lemma PartsRead(h: nat, m: nat, sec: nat, v: nat, n: nat, stamp: Stamp)
    requires h < 100 && m < 100 && sec < 100 && 1 <= n <= 3 && v < Power10(n)
    requires stamp.hours == Padded(h, 2) && stamp.minutes == Padded(m, 2) && stamp.seconds == Padded(sec, 2)
    requires stamp.fraction == "." + Padded(v, n)
    ensures stamp.hours != "" && |stamp.fraction| == n + 1 && stamp.fraction[0] == '.'
    ensures ParseInt(stamp.hours) == Some(h) && ParseInt(stamp.minutes) == Some(m)
    ensures ParseInt(stamp.seconds) == Some(sec) && ParseInt(stamp.fraction[1..]) == Some(v)
  {
    PairRead(stamp.hours, h);
    PairRead(stamp.minutes, m);
    PairRead(stamp.seconds, sec);
    FractionDigitsRead(stamp.fraction, v, n);
  }

  lemma PairRead(s: string, v: nat)
    requires v < 100 && s == Padded(v, 2)
    ensures s != "" && ParseInt(s) == Some(v)
  {
    ParsePadded(v, 2);
  }

  lemma FractionDigitsRead(f: string, v: nat, n: nat)
    requires 1 <= n <= 3 && v < Power10(n) && f == "." + Padded(v, n)
    ensures |f| == n + 1 && f[0] == '.' && ParseInt(f[1..]) == Some(v)
  {
    ParsePadded(v, n);
    assert f[1..] == Padded(v, n);
  }

  lemma TimeOf(stamp: Stamp, h: int, m: int, sec: int, v: int, n: nat)
    requires stamp.hours != "" && |stamp.fraction| == n + 1 && stamp.fraction[0] == '.' && 1 <= n <= 3
    requires ParseInt(stamp.hours) == Some(h) && ParseInt(stamp.minutes) == Some(m)
    requires ParseInt(stamp.seconds) == Some(sec) && ParseInt(stamp.fraction[1..]) == Some(v)
    ensures ParseTime(stamp) == Some(Millis(h, m, sec, v, n))
  {
  }

  lemma ParsePadded(v: nat, n: nat)
    requires 1 <= n <= 3 && v < Power10(n)
    ensures Padded(v, n) != "" && ParseInt(Padded(v, n)) == Some(v)
  {
    DigitsOfPadded(v, n);
    SmallPowers(n);
    ParseDigits(Padded(v, n), v);
  }

  lemma SmallPowers(n: nat)
    requires n <= 3
    ensures Power10(n) <= 1000
  {
    assert Power10(0) == 1 && Power10(1) == 10 && Power10(2) == 100 && Power10(3) == 1000;
  }

  lemma ParseDigits(s: string, v: nat)
    requires s != "" && IsDigit(s[0]) && Digits(s) == Some(v) && v < 1000
    ensures ParseInt(s) == Some(v)
  {
  }

  // ----- Printed lyrics -----

  /** A text, of one line or several, that has no white space around it or around any of its lines. */
  predicate Printable(l: Line) {
    && l.start.Some? && 0 <= l.start.value < 360_000_000
    && Trim(l.value) == l.value && '[' !in l.value && forall k :: 0 <= k < |Lines(l.value)| ==> Trim(Lines(l.value)[k]) == Lines(l.value)[k]
  }

  predicate AllPrintable(ls: seq<Line>) {
    forall i :: 0 <= i < |ls| ==> Printable(ls[i])
  }

  /** The stamp [hh:mm:ss.mmm] of a time in milliseconds. */
  function StampOf(t: nat): (m: Stamp)
    ensures Parts(m.hours, m.minutes, m.seconds, m.fraction)
  {
    Stamp(14, Padded(t / 3_600_000, 2), Padded(t / 60_000 % 60, 2), Padded(t / 1000 % 60, 2), "." + Padded(t % 1000, 3))
  }

  function PrintStamp(t: nat): (s: string)
    ensures |s| == 14 && s[0] == '[' && IsDigit(s[1]) && s[13] == ']'
    ensures forall k :: 1 <= k < 14 ==> s[k] != '[' && s[k] != '\n'
  {
    var m := StampOf(t);
    StampText(m.hours, m.minutes, m.seconds, m.fraction)
  }

  function PrintLine(l: Line): string
    requires Printable(l)
  {
    PrintStamp(l.start.value) + l.value
  }

  function Print(ls: seq<Line>): string
    requires AllPrintable(ls)
  {
    if ls == [] then ""
    else if |ls| == 1 then PrintLine(ls[0])
    else PrintLine(ls[0]) + "\n" + Print(ls[1..])
  }

  lemma PrintedTime(t: nat)
    requires t < 360_000_000
    ensures ParseTime(StampOf(t)) == Some(t)
  {
    TimeSplits(t);
    TimeRoundTrip(t / 3_600_000, t / 60_000 % 60, t / 1000 % 60, t % 1000, 3, StampOf(t));
  }

  lemma TimeSplits(t: nat)
    ensures Millis(t / 3_600_000, t / 60_000 % 60, t / 1000 % 60, t % 1000, 3) == t
    ensures t % 1000 < Power10(3)
  {
    SmallPowersExact();
    var sec := t / 1000;
    MinutesOf(t, sec, sec / 60);
    HoursOf(t, sec / 60, sec / 60 / 60);
  }

  lemma MinutesOf(t: nat, sec: nat, min: nat)
    requires sec == t / 1000 && min == sec / 60
    ensures t / 60_000 == min
  {
  }

  lemma HoursOf(t: nat, min: nat, h: nat)
    requires min == t / 60_000 && h == min / 60
    ensures t / 3_600_000 == h
  {
  }

  lemma SmallPowersExact()
    ensures Power10(3) == 1000
  {
    assert Power10(0) == 1 && Power10(1) == 10 && Power10(2) == 100;
  }

  lemma PrintedStampRead(s: string, t: nat)
    requires HasAt(s, 0, PrintStamp(t))
    ensures MatchTime(s, 0) == Some(StampOf(t))
  {
    var m := StampOf(t);
    StampReadExact(s, 0, m.hours, m.minutes, m.seconds, m.fraction, 14);
  }

  lemma AlreadyTrimmed(s: string)
    requires s != "" ==> !IsSpace(s[0]) && !IsSpace(s[|s| - 1])
    ensures Trim(s) == s
  {
    assert SkipSpace(s, 0) == 0 && s[0..] == s;
  }

  lemma {:induction false} NoTag(s: string, i: nat)
    requires |s| > 1 && IsDigit(s[1]) && forall k :: 1 <= k < |s| ==> s[k] != '['
    ensures FindTag(s, i).None?
    decreases |s| - i
  {
    if i < |s| {
      NoTagNamed(s, i, "ar", Artist);
      NoTagNamed(s, i, "ti", Title);
      NoTagNamed(s, i, "offset", Offset);
      NoTagNamed(s, i, "lang", Language);
      NoTag(s, i + 1);
    }
  }

  lemma NoTagNamed(s: string, i: nat, key: string, name: TagName)
    requires |s| > 1 && IsDigit(s[1]) && forall k :: 1 <= k < |s| ==> s[k] != '['
    requires key != "" && !IsDigit(key[0])
    ensures MatchTagNamed(s, i, key, name).None?
  {
    var part := "[" + key + ":";
    assert part[0] == '[' && part[1] == key[0];
    FirstTwo(s, i, part);
  }

  lemma FirstTwo(s: string, i: nat, part: string)
    requires |part| >= 2
    ensures HasAt(s, i, part) ==> s[i] == part[0] && s[i + 1] == part[1]
  {
    assert HasAt(s, i, part) ==> s[i..i + |part|][0] == part[0] && s[i..i + |part|][1] == part[1];
  }

  /** A line with one stamp, at its start, and no tag. */
  lemma StampedLine(s: string, m: Stamp, t: int)
    requires s != "" && s[0] == '[' && forall k :: 1 <= k < |s| ==> s[k] != '['
    requires Trim(s) == s && FindTag(s, 0).None? && MatchTime(s, 0) == Some(m) && ParseAll([m]) == Some([t])
    ensures Classify(s) == Timed([t], Trim(s[m.end..]), 1)
  {
    OnlyOneMark(s, MarksOf(s), m);
    ClassifyTimed(s, MarksOf(s), m, t);
  }

  lemma ClassifyTimed(s: string, marks: Marks, m: Stamp, t: int)
    requires Trim(s) == s != "" && FindTag(s, 0).None? && marks == MarksOf(s) && marks[0] == Some(m)
    requires AllTimes(marks, 0) == [0] && Leading(s, marks, 0) == ([m], m.end)
    requires ParseAll([m]) == Some([t])
    ensures Classify(s) == Timed([t], Trim(s[m.end..]), 1)
  {
  }

  lemma OneStamp(m: Stamp, t: int)
    requires ParseTime(m) == Some(t)
    ensures ParseAll([m]) == Some([t])
  {
    ParseAllStep(m, []);
    assert [m] + [] == [m] && [t] + [] == [t];
  }

  /** The first line of what is printed has its one stamp, no tag, and its text. */
  lemma PrintedLine(t: nat, first: string, s: string)
    requires t < 360_000_000 && Trim(first) == first && '[' !in first && s == PrintStamp(t) + first
    ensures Classify(s) == Timed([t], first, 1)
  {
    var stamp := PrintStamp(t);
    JoinedShape(stamp, first);
    AlreadyTrimmed(stamp + first);
    PrintedStampRead(s, t);
    PrintedTime(t);
    OneStamp(StampOf(t), t);
    NoTag(s, 0);
    StampedLine(s, StampOf(t), t);
  }

  lemma JoinedShape(stamp: string, value: string)
    requires |stamp| == 14 && stamp[0] == '[' && stamp[13] == ']' && forall k :: 1 <= k < 14 ==> stamp[k] != '['
    requires Trim(value) == value && '[' !in value
    ensures var s := stamp + value;
            && !IsSpace(s[0]) && !IsSpace(s[|s| - 1]) && s[14..] == value && HasAt(s, 0, stamp)
            && forall k :: 1 <= k < |s| ==> s[k] != '['
  {
    var s := stamp + value;
    assert forall k :: 14 <= k < |s| ==> s[k] == value[k - 14];
    assert s[0..14] == stamp;
  }

  /** What a further line of a text is read as. */
  function FurtherItem(line: string): Item {
    if line == "" then Empty else Loose(line, 0)
  }

  function FurtherItems(lines: seq<string>): (items: seq<Item>)
    ensures |items| == |lines| && forall i :: 0 <= i < |lines| ==> items[i] == FurtherItem(lines[i])
  {
    seq(|lines|, i requires 0 <= i < |lines| => FurtherItem(lines[i]))
  }

  lemma {:induction false} NoBracketNoTag(s: string, i: nat)
    requires '[' !in s
    ensures FindTag(s, i).None?
    decreases |s| - i
  {
    if i < |s| {
      NoBracketNoTagNamed(s, i, "ar", Artist);
      NoBracketNoTagNamed(s, i, "ti", Title);
      NoBracketNoTagNamed(s, i, "offset", Offset);
      NoBracketNoTagNamed(s, i, "lang", Language);
      NoBracketNoTag(s, i + 1);
    }
  }

  lemma NoBracketNoTagNamed(s: string, i: nat, key: string, name: TagName)
    requires '[' !in s && key != ""
    ensures MatchTagNamed(s, i, key, name).None?
  {
    forall k | 0 <= k < |s| ensures s[k] != '[' {
      assert s[k] in s;
    }
    FirstTwo(s, i, "[" + key + ":");
  }

  lemma FurtherLine(line: string)
    requires Trim(line) == line && '[' !in line
    ensures Classify(line) == FurtherItem(line)
  {
    if line != "" {
      NoBracketNoTag(line, 0);
      var marks := MarksOf(line);
      forall k | 0 <= k < |marks| ensures marks[k].None? {
        assert line[k] in line;
      }
      assert NextTime(marks, 0) == |marks| && AllTimes(marks, 0) == [];
    }
  }

  lemma OnlyOneMark(s: string, marks: Marks, m: Stamp)
    requires Marked(s, marks) && s != "" && s[0] == '[' && marks[0] == Some(m)
    requires forall k :: 1 <= k < |s| ==> s[k] != '['
    ensures AllTimes(marks, 0) == [0] && Leading(s, marks, 0) == ([m], m.end)
  {
    assert forall k :: 1 <= k < |s| ==> marks[k].None?;
    assert NextTime(marks, m.end) == |marks|;
    var rest := Leading(s, marks, m.end);
    assert rest == ([], m.end);
    assert SkipSpace(s, 0) == 0 && Leading(s, marks, 0) == ([m] + rest.0, rest.1);
    assert [m] + rest.0 == [m];
  }

  /** What the lines of a printed text are read as. */
  function PrintedItem(l: Line): (items: seq<Item>)
    requires Printable(l)
    ensures items != [] && items[0].Timed? && items[0].stamps == 1
    ensures forall i :: 1 <= i < |items| ==> items[i] == Empty || (items[i].Loose? && items[i].stamps == 0)
  {
    var lines := Lines(l.value);
    [Timed([l.start.value], lines[0], 1)] + FurtherItems(lines[1..])
  }

  function PrintedItems(ls: seq<Line>): (items: seq<Item>)
    requires AllPrintable(ls)
    ensures ls != [] ==> items != [] && items[0].Timed?
    ensures forall i :: 0 <= i < |items| ==> !items[i].Broken? && !HasStamps(items[i], 2)
  {
    if ls == [] then [] else PrintedItem(ls[0]) + PrintedItems(ls[1..])
  }

  lemma {:induction false} OneLine(a: string)
    requires '\n' !in a
    ensures Lines(a) == [a]
  {
    if a != "" {
      OneLine(a[1..]);
      assert a == [a[0]] + a[1..];
    }
  }

  lemma {:induction false} LinesAppend(a: string, b: string)
    ensures Lines(a + "\n" + b) == Lines(a) + Lines(b)
  {
    var s := a + "\n" + b;
    if a == "" {
      assert s[1..] == b;
    } else {
      assert s[1..] == a[1..] + "\n" + b && s[0] == a[0];
      LinesAppend(a[1..], b);
      if a[0] == '\n' {
        assert [""] + (Lines(a[1..]) + Lines(b)) == ([""] + Lines(a[1..])) + Lines(b);
      } else {
        CharacterBefore(a[0], Lines(a[1..]), Lines(b));
      }
    }
  }

  lemma CharacterBefore(c: char, la: seq<string>, lb: seq<string>)
    requires la != []
    ensures var all := la + lb; [[c] + all[0]] + all[1..] == ([[c] + la[0]] + la[1..]) + lb
  {
    assert (la + lb)[1..] == la[1..] + lb;
  }

  /** A first part without line feeds belongs to the first line. */
  lemma {:induction false} LinesPrefix(a: string, b: string)
    requires '\n' !in a
    ensures Lines(a + b) == [a + Lines(b)[0]] + Lines(b)[1..]
  {
    var first := Lines(b)[0];
    if a == "" {
      assert a + b == b && a + first == first;
    } else {
      assert (a + b)[1..] == a[1..] + b;
      LinesPrefix(a[1..], b);
      assert (a + b)[0] == a[0] && a[0] in a;
      assert [a[0]] + (a[1..] + first) == a + first;
    }
  }

  lemma {:induction false} NoBracketInLines(s: string)
    requires '[' !in s
    ensures forall k :: 0 <= k < |Lines(s)| ==> '[' !in Lines(s)[k]
  {
    if s != "" {
      NoBracketInLines(s[1..]);
    }
  }

  lemma {:induction false} FurtherLines(lines: seq<string>)
    requires forall k :: 0 <= k < |lines| ==> Trim(lines[k]) == lines[k] && '[' !in lines[k]
    ensures Items(lines) == FurtherItems(lines)
  {
    if lines != [] {
      FurtherLine(lines[0]);
      FurtherLines(lines[1..]);
    }
  }

  lemma FirstItem(first: string, rest: seq<string>)
    ensures Items([first] + rest) == [Classify(first)] + Items(rest)
  {
    assert ([first] + rest)[1..] == rest;
  }

  lemma LinesOfPrinted(l: Line)
    requires Printable(l)
    ensures var lines := Lines(l.value);
            Lines(PrintLine(l)) == [PrintStamp(l.start.value) + lines[0]] + lines[1..]
  {
    LinesPrefix(PrintStamp(l.start.value), l.value);
  }

  lemma PrintedText(l: Line)
    requires Printable(l)
    ensures Items(Lines(PrintLine(l))) == PrintedItem(l)
  {
    var lines, stamp := Lines(l.value), PrintStamp(l.start.value);
    NoBracketInLines(l.value);
    LinesOfPrinted(l);
    PrintedLine(l.start.value, lines[0], stamp + lines[0]);
    FurtherLines(lines[1..]);
    FirstItem(stamp + lines[0], lines[1..]);
  }

  lemma {:induction false} ItemsAppend(a: seq<string>, b: seq<string>)
    ensures Items(a + b) == Items(a) + Items(b)
  {
    if a == [] {
      assert a + b == b;
    } else {
      assert (a + b)[1..] == a[1..] + b;
      ItemsAppend(a[1..], b);
    }
  }

  lemma {:induction false} PrintedLines(ls: seq<Line>)
    requires ls != [] && AllPrintable(ls)
    ensures Items(Lines(Print(ls))) == PrintedItems(ls)
  {
    PrintedText(ls[0]);
    if |ls| > 1 {
      PrintedLines(ls[1..]);
      LinesAppend(PrintLine(ls[0]), Print(ls[1..]));
      ItemsAppend(Lines(PrintLine(ls[0])), Lines(Print(ls[1..])));
    }
  }

  /** Further lines as text, each after a line feed. */
  function FurtherText(lines: seq<string>): string {
    if lines == [] then "" else "\n" + (lines[0] + FurtherText(lines[1..]))
  }

  lemma BreakJoins(later: seq<string>, rest: string)
    requires later != [] && later[0] + FurtherText(later[1..]) == rest
    ensures FurtherText(later) == "\n" + rest
  {
  }

  lemma CharacterJoins(c: char, later: seq<string>, rest: string)
    requires later != [] && later[0] + FurtherText(later[1..]) == rest
    ensures var lines := [[c] + later[0]] + later[1..]; lines[0] + FurtherText(lines[1..]) == [c] + rest
  {
    var lines := [[c] + later[0]] + later[1..];
    assert lines[1..] == later[1..];
    assert ([c] + later[0]) + FurtherText(later[1..]) == [c] + (later[0] + FurtherText(later[1..]));
  }

  /** Cutting a text at its line feeds loses nothing. */
  lemma {:induction false} TextOfLines(s: string)
    ensures Lines(s)[0] + FurtherText(Lines(s)[1..]) == s
  {
    if s != "" {
      var later := Lines(s[1..]);
      TextOfLines(s[1..]);
      assert s == [s[0]] + s[1..];
      if s[0] == '\n' {
        assert ([""] + later)[1..] == later;
        BreakJoins(later, s[1..]);
      } else {
        CharacterJoins(s[0], later, s[1..]);
      }
    }
  }

  lemma FurtherSplits(lines: seq<string>, rest: seq<Item>)
    requires lines != []
    ensures FurtherItems(lines) + rest == [FurtherItem(lines[0])] + (FurtherItems(lines[1..]) + rest)
  {
  }

  lemma {:induction false} TailIsFurtherText(lines: seq<string>, rest: seq<Item>)
    requires rest == [] || rest[0].Timed?
    ensures Tail(FurtherItems(lines) + rest) == FurtherText(lines)
  {
    if lines == [] {
      assert FurtherItems(lines) + rest == rest;
    } else {
      var first, later := FurtherItem(lines[0]), FurtherItems(lines[1..]) + rest;
      TailIsFurtherText(lines[1..], rest);
      FurtherSplits(lines, rest);
      TailNext(first, later);
      FurtherContinues(lines[0], first, FurtherText(lines[1..]));
    }
  }

  lemma TailNext(item: Item, later: seq<Item>)
    requires !item.Timed?
    ensures Tail([item] + later) == Continuation(item) + Tail(later)
  {
    assert ([item] + later)[1..] == later;
  }

  lemma FurtherContinues(line: string, item: Item, rest: string)
    requires item == FurtherItem(line)
    ensures Continuation(item) + rest == "\n" + (line + rest)
  {
  }

  /** Lines without stamps make no blocks. */
  lemma {:induction false} FurtherBlocks(lines: seq<string>, rest: seq<Item>)
    ensures Blocks(FurtherItems(lines) + rest) == Blocks(rest)
  {
    if lines == [] {
      assert FurtherItems(lines) + rest == rest;
    } else {
      assert (FurtherItems(lines) + rest)[1..] == FurtherItems(lines[1..]) + rest;
      FurtherBlocks(lines[1..], rest);
    }
  }

  lemma FirstBlock(l: Line, rest: seq<Item>)
    requires Printable(l) && (rest == [] || rest[0].Timed?)
    ensures Blocks(PrintedItem(l) + rest) == [l] + Blocks(rest)
  {
    var lines := Lines(l.value);
    TextOfLines(l.value);
    TailIsFurtherText(lines[1..], rest);
    FurtherBlocks(lines[1..], rest);
    PrintedItemStarts(l, rest);
    TimedBlock(PrintedItem(l) + rest, l.start.value, lines[0], l.value);
  }

  lemma PrintedItemStarts(l: Line, rest: seq<Item>)
    requires Printable(l)
    ensures var lines, all := Lines(l.value), PrintedItem(l) + rest;
            && all[0] == Timed([l.start.value], lines[0], 1)
            && all[1..] == FurtherItems(lines[1..]) + rest
  {
  }

  lemma TimedBlock(items: seq<Item>, t: int, text: string, value: string)
    requires items != [] && items[0] == Timed([t], text, 1) && text + Tail(items[1..]) == value
    ensures Blocks(items) == [Line(Some(t), Trim(value))] + Blocks(items[1..])
  {
    assert Emit([t], Trim(value)) == [Line(Some(t), Trim(value))];
  }

  lemma {:induction false} PrintedBlocks(ls: seq<Line>)
    requires AllPrintable(ls)
    ensures Blocks(PrintedItems(ls)) == ls
  {
    if ls != [] {
      PrintedBlocks(ls[1..]);
      FirstBlock(ls[0], PrintedItems(ls[1..]));
    }
  }

  lemma PrintedIsSynced(ls: seq<Line>)
    requires ls != [] && AllPrintable(ls)
    ensures IsSynced(Print(ls))
  {
    var text, t := Print(ls), ls[0].start.value;
    assert text[0..14] == PrintStamp(t);
    PrintedStampRead(text, t);
    assert StartsLine(text, 0) && Spaces(text, 0, 0);
  }

  /**
   Parsing inverts printing: for times below 100 hours, with texts of one or several lines, trimmed and without
   opening brackets, the parser finds a synchronised text and gives back the very lyrics, in their order.
   */
  lemma ParserInvertsPrinter(ls: seq<Line>)
    requires ls != [] && AllPrintable(ls)
    ensures var items := Items(Lines(Print(ls)));
            && IsSynced(Print(ls)) && !HasBroken(items) && !Repeated(items)
            && Blocks(items) == ls
  {
    PrintedIsSynced(ls);
    PrintedLines(ls);
    PrintedBlocks(ls);
    OneStampEach(PrintedItems(ls));
  }

  lemma {:induction false} OneStampEach(items: seq<Item>)
    requires forall i :: 0 <= i < |items| ==> !items[i].Broken? && !HasStamps(items[i], 2)
    ensures !HasBroken(items) && !Repeated(items)
  {
    if items != [] {
      OneStampEach(items[..|items| - 1]);
    }
  }
}
