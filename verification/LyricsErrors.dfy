/** When parsing lyrics fails: exactly when some leading stamp separates its fraction by a character outside ASCII. */
module LyricsErrors {
  import opened Wrappers
  import opened LyricsText
  import opened LyricsParser
  import opened LyricsRoundTrip

  /** The separator takes more than one byte. */
  predicate WideSeparator(m: Stamp) {
    m.fraction != "" && m.fraction[0] >= '\U{80}'
  }

  // ----- One stamp -----

  predicate Figures(s: string, least: nat, most: nat) {
    least <= |s| <= most && |s| <= 3 && DigitsAt(s, 0, |s|)
  }

  /** What the groups of a match look like. */
  predicate WellFormed(m: Stamp) {
    && Figures(m.hours, 0, 2) && Figures(m.minutes, 1, 2) && Figures(m.seconds, 1, 2)
    && (m.fraction != "" ==> Figures(m.fraction[1..], 1, 3))
  }

  lemma SliceIsFigures(s: string, i: nat, n: nat)
    requires n <= 3 && DigitsAt(s, i, n)
    ensures Figures(s[i..i + n], n, n)
  {
  }

  lemma FieldIsFigures(s: string, i: nat)
    ensures Field(s, i).Some? ==> Figures(Field(s, i).value, 1, 2)
  {
    if DigitsAt(s, i, 2) {
      SliceIsFigures(s, i, 2);
    }
    if DigitsAt(s, i, 1) {
      SliceIsFigures(s, i, 1);
    }
  }

  lemma FractionIsFigures(s: string, i: nat)
    requires i <= |s|
    ensures var f := FractionAt(s, i); f != "" ==> Figures(f[1..], 1, 3)
  {
    forall n | 1 <= n <= 3 && FractionOf(s, i, n) ensures Figures(s[i..i + n + 1][1..], n, n) {
      SliceIsFigures(s, i + 1, n);
      assert s[i..i + n + 1][1..] == s[i + 1..i + 1 + n];
    }
  }

  lemma SecondsAreFigures(s: string, i: nat, hours: string, minutes: string, n: nat)
    requires 1 <= n <= 2 && Figures(hours, 0, 2) && Figures(minutes, 1, 2)
    ensures var m := WithSeconds(s, i, hours, minutes, n); m.Some? ==> WellFormed(m.value)
  {
    if DigitsAt(s, i, n) {
      SliceIsFigures(s, i, n);
      FractionIsFigures(s, i + n);
    }
  }

  lemma MatchIsWellFormed(s: string, i: nat)
    requires MatchTime(s, i).Some?
    ensures WellFormed(MatchTime(s, i).value)
  {
    var first := Field(s, i + 1).value;
    FieldIsFigures(s, i + 1);
    RestIsWellFormed(s, i + |first| + 2, first);
  }

  lemma RestIsWellFormed(s: string, i: nat, first: string)
    requires Figures(first, 1, 2) && AfterField(s, i, first).Some?
    ensures WellFormed(AfterField(s, i, first).value)
  {
    FieldIsFigures(s, i);
    EitherSeconds(s, i, "", first);
    var second := Field(s, i);
    if second.Some? {
      EitherSeconds(s, i + |second.value| + 1, first, second.value);
    }
  }

  lemma EitherSeconds(s: string, i: nat, hours: string, minutes: string)
    requires Figures(hours, 0, 2) && Figures(minutes, 1, 2)
    ensures var m := Seconds(s, i, hours, minutes); m.Some? ==> WellFormed(m.value)
  {
    SecondsAreFigures(s, i, hours, minutes, 2);
    SecondsAreFigures(s, i, hours, minutes, 1);
  }

  lemma {:induction false} FiguresHaveValue(s: string)
    requires |s| <= 3 && DigitsAt(s, 0, |s|)
    ensures Digits(s).Some? && Digits(s).value < Power10(|s|)
  {
    if s != "" {
      FiguresHaveValue(s[..|s| - 1]);
    }
  }

  lemma FiguresParse(s: string)
    requires Figures(s, 1, 3)
    ensures ParseInt(s).Some?
  {
    FiguresHaveValue(s);
    SmallPowers(|s|);
    assert IsDigit(s[0]);
  }

  lemma WellFormedFails(m: Stamp)
    requires WellFormed(m)
    ensures ParseTime(m).None? <==> WideSeparator(m)
  {
    if m.hours != "" {
      FiguresParse(m.hours);
    }
    FiguresParse(m.minutes);
    FiguresParse(m.seconds);
    if m.fraction != "" {
      FiguresParse(m.fraction[1..]);
    }
  }

  /** A stamp that is found cannot be read exactly when its separator is wide. */
  lemma ParseTimeFailsExact(s: string, i: nat)
    requires MatchTime(s, i).Some?
    ensures ParseTime(MatchTime(s, i).value).None? <==> WideSeparator(MatchTime(s, i).value)
  {
    MatchIsWellFormed(s, i);
    WellFormedFails(MatchTime(s, i).value);
  }

  // ----- A line, and a text -----

  /** Some of the stamps that lead the line has a wide separator. */
  predicate LeadsWide(stamps: seq<Stamp>) {
    exists k :: 0 <= k < |stamps| && WideSeparator(stamps[k])
  }

  predicate IsWideLine(line: string) {
    IsWide(Trim(line))
  }

  predicate IsWide(s: string) {
    FindTag(s, 0).None? && LeadsWide(Leading(s, MarksOf(s), 0).0)
  }

  /** Marks whose stamps fail exactly by their separators. */
  ghost predicate FailByWidth(marks: Marks) {
    forall i :: 0 <= i < |marks| && marks[i].Some? ==> (ParseTime(marks[i].value).None? <==> WideSeparator(marks[i].value))
  }

  lemma MarksFailByWidth(s: string)
    ensures FailByWidth(MarksOf(s))
  {
    forall i | 0 <= i < |s| && MarksOf(s)[i].Some?
      ensures ParseTime(MarksOf(s)[i].value).None? <==> WideSeparator(MarksOf(s)[i].value)
    {
      ParseTimeFailsExact(s, i);
    }
  }

  lemma {:induction false} LeadingFailsExact(s: string, marks: Marks, i: nat)
    requires Marked(s, marks) && FailByWidth(marks) && i <= |s|
    ensures ParseAll(Leading(s, marks, i).0).None? <==> LeadsWide(Leading(s, marks, i).0)
    decreases |s| - i
  {
    var j := SkipSpace(s, i);
    if j < |s| && marks[j].Some? {
      var m, rest := marks[j].value, Leading(s, marks, marks[j].value.end).0;
      LeadingFailsExact(s, marks, m.end);
      ParseAllStep(m, rest);
      OneMoreStamp(m, rest);
    }
  }

  lemma OneMoreStamp(m: Stamp, rest: seq<Stamp>)
    ensures LeadsWide([m] + rest) <==> WideSeparator(m) || LeadsWide(rest)
  {
    var all := [m] + rest;
    assert all[0] == m && forall k :: 0 <= k < |rest| ==> all[k + 1] == rest[k];
  }

  /** A line is unreadable exactly when a stamp in front has a wide separator, and it is no tag. */
  lemma LineFailsExact(line: string)
    ensures Classify(line).Broken? <==> IsWideLine(line)
  {
    var s := Trim(line);
    MarksFailByWidth(s);
    LeadingFailsExact(s, MarksOf(s), 0);
    BrokenLine(line, s, MarksOf(s));
  }

  lemma BrokenLine(line: string, s: string, marks: Marks)
    requires s == Trim(line) && marks == MarksOf(s)
    ensures Classify(line).Broken? <==> FindTag(s, 0).None? && ParseAll(Leading(s, marks, 0).0).None?
  {
    if s == "" || marks[0].None? {
      NoneLeading(s, marks);
    }
  }

  lemma NoneLeading(s: string, marks: Marks)
    requires Marked(s, marks) && (s == "" || (!IsSpace(s[0]) && marks[0].None?))
    ensures Leading(s, marks, 0).0 == []
  {
  }

  lemma {:induction false} SomeLineFails(lines: seq<string>)
    ensures HasBroken(Items(lines)) <==> exists line :: line in lines && IsWideLine(line)
  {
    if lines != [] {
      var before, last := lines[..|lines| - 1], lines[|lines| - 1];
      assert lines == before + [last];
      SomeLineFails(before);
      LineFailsExact(last);
      MapAppend(before, last, Classify);
      OneMoreItem(Items(before), Classify(last));
    }
  }

  lemma OneMoreItem(items: seq<Item>, last: Item)
    ensures HasBroken(items + [last]) <==> HasBroken(items) || last.Broken?
  {
    assert (items + [last])[..|items|] == items;
  }

  /** Parsing a text fails exactly when it is synchronised and some line of it has such a stamp in front. */
  lemma ParsingFailsExact(text: string)
    ensures IsSynced(text) && HasBroken(Items(Lines(text)))
            <==> IsSynced(text) && exists line :: line in Lines(text) && IsWideLine(line)
  {
    SomeLineFails(Lines(text));
  }

  /** A line with one stamp in front, whose separator is wide. */
  lemma WideLine(s: string, m: Stamp)
    requires |s| > 1 && s[0] == '[' && IsDigit(s[1]) && forall k :: 1 <= k < |s| ==> s[k] != '['
    requires MatchTime(s, 0) == Some(m) && WideSeparator(m)
    ensures IsWide(s)
  {
    NoTag(s, 0);
    WideInFront(s, MarksOf(s), m);
  }

  lemma SyncedAtOnce(s: string)
    requires s != "" && MatchTime(s, 0).Some?
    ensures IsSynced(s)
  {
    assert StartsLine(s, 0) && Spaces(s, 0, 0);
  }

  lemma WideInFront(s: string, marks: Marks, m: Stamp)
    requires Marked(s, marks) && s != "" && s[0] == '[' && marks[0] == Some(m) && WideSeparator(m)
    requires forall k :: 1 <= k < |s| ==> s[k] != '['
    ensures LeadsWide(Leading(s, marks, 0).0)
  {
    OnlyOneMark(s, marks, m);
    assert [m][0] == m;
  }

  lemma WideText(s: string)
    requires |s| > 1 && s[0] == '[' && s[|s| - 1] == ']' && '\n' !in s && IsWide(s)
    ensures HasBroken(Items(Lines(s)))
  {
    AlreadyTrimmed(s);
    OneWideLine(s);
  }

  lemma OneWideLine(s: string)
    requires IsWideLine(s) && '\n' !in s
    ensures HasBroken(Items(Lines(s)))
  {
    OneLine(s);
    assert s in [s];
    SomeLineFails([s]);
  }

  /** Every text that is just a stamp with a wide separator fails. */
  lemma WideStampFails(minutes: string, seconds: string, f: string, text: string)
    requires Parts("", minutes, seconds, f) && f != "" && f[0] >= '\U{80}'
    requires text == StampText("", minutes, seconds, f)
    ensures HasBroken(Items(Lines(text)))
  {
    WideStampIsWide(minutes, seconds, f, text);
    WideStampShape(minutes, seconds, f);
    WideText(text);
  }

  lemma WideStampIsSynced(minutes: string, seconds: string, f: string, text: string)
    requires Parts("", minutes, seconds, f) && f != "" && text == StampText("", minutes, seconds, f)
    ensures IsSynced(text)
  {
    WideStampRead(minutes, seconds, f, text);
    SyncedAtOnce(text);
  }

  lemma WideStampIsWide(minutes: string, seconds: string, f: string, text: string)
    requires Parts("", minutes, seconds, f) && f != "" && f[0] >= '\U{80}'
    requires text == StampText("", minutes, seconds, f)
    ensures IsWide(text)
  {
    WideStampShape(minutes, seconds, f);
    WideStampRead(minutes, seconds, f, text);
    WideLine(text, Stamp(|text|, "", minutes, seconds, f));
  }

  lemma WideStampRead(minutes: string, seconds: string, f: string, text: string)
    requires Parts("", minutes, seconds, f) && f != "" && text == StampText("", minutes, seconds, f)
    ensures MatchTime(text, 0) == Some(Stamp(|text|, "", minutes, seconds, f))
  {
    assert text[0..|text|] == text && |text| == |f| + 7;
    ShortStampReadExact(text, 0, minutes, seconds, f, |text|);
  }

  lemma WideStampShape(minutes: string, seconds: string, f: string)
    requires Parts("", minutes, seconds, f) && f != "" && f[0] >= '\U{80}'
    ensures var text := StampText("", minutes, seconds, f);
            && |text| == |f| + 7 && text[0] == '[' && IsDigit(text[1]) && text[|text| - 1] == ']'
            && '\n' !in text && forall k :: 1 <= k < |text| ==> text[k] != '['
  {
    var text, tail := StampText("", minutes, seconds, f), TailText(minutes, seconds, f);
    TailShape(minutes, seconds, f);
    assert forall k :: 1 <= k < |text| ==> text[k] == tail[k - 1];
  }

  lemma TailShape(minutes: string, seconds: string, f: string)
    requires Parts("", minutes, seconds, f) && f != "" && f[0] >= '\U{80}'
    ensures var tail := TailText(minutes, seconds, f);
            && |tail| == |f| + 6 && IsDigit(tail[0]) && tail[|tail| - 1] == ']'
            && forall k :: 0 <= k < |tail| ==> tail[k] != '[' && tail[k] != '\n'
  {
    assert forall k :: 0 <= k < |f| ==> f[k] != '[' && f[k] != '\n';
  }

  /** For one: an ideographic full stop before the fraction. */
  lemma IdeographicStopFails(text: string)
    requires text == "[00:01\U{3002}5]"
    ensures IsSynced(text) && HasBroken(Items(Lines(text)))
  {
    WideStampIsSynced("00", "01", "\U{3002}5", text);
    WideStampFails("00", "01", "\U{3002}5", text);
  }
}
