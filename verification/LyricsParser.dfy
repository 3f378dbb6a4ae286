/** Parsing of lyrics, plain or synchronised: one pass over the lines, against what each stamped line stands for. */
module LyricsParser {
  import opened Wrappers
  import opened LyricsText

  datatype Line = Line(start: Option<int>, value: string)

  datatype Lyrics = Lyrics(
    displayArtist: string, displayTitle: string, lang: string, line: seq<Line>, offset: Option<int>, synced: bool)

  // ----- What the lines of a synchronised text are -----

  datatype Item =
    | Empty
    | Tagged(tag: Tag)
    | Loose(text: string, stamps: nat)
    | Timed(times: seq<int>, text: string, stamps: nat)
    | Broken(stamps: nat)

  /** The stamps from position i on with only white space between them, and where the last one ends. */
  function Leading(s: string, marks: Marks, i: nat): (r: (seq<Stamp>, nat))
    requires Marked(s, marks) && i <= |s|
    ensures i <= r.1 <= |s|
    decreases |s| - i
  {
    var j := SkipSpace(s, i);
    if j == |s| || marks[j].None? then ([], i)
    else
      var rest := Leading(s, marks, marks[j].value.end);
      ([marks[j].value] + rest.0, rest.1)
  }

  function ParseAll(stamps: seq<Stamp>): Option<seq<int>> {
    if stamps == [] then Some([]) else Cons(ParseTime(stamps[0]), ParseAll(stamps[1..]))
  }

  function Classify(line: string): Item {
    var s := Trim(line);
    if s == "" then Empty
    else if FindTag(s, 0).Some? then Tagged(FindTag(s, 0).value)
    else
      var marks := MarksOf(s);
      var stamps := |AllTimes(marks, 0)|;
      if marks[0].None? then Loose(s, stamps)
      else
        var (leading, end) := Leading(s, marks, 0);
        var times := ParseAll(leading);
        if times.None? then Broken(stamps) else Timed(times.value, Trim(s[end..]), stamps)
  }

  function Map(lines: seq<string>, f: string -> Item): (items: seq<Item>)
    ensures |items| == |lines|
  {
    if lines == [] then [] else [f(lines[0])] + Map(lines[1..], f)
  }

  function Items(lines: seq<string>): (items: seq<Item>)
    ensures |items| == |lines|
  {
    Map(lines, Classify)
  }

  // ----- What they stand for -----

  /** The lines without a stamp that come before the next one with a stamp. */
  function Tail(items: seq<Item>): string {
    if items == [] || items[0].Timed? then "" else Continuation(items[0]) + Tail(items[1..])
  }

  /** What a line without a stamp adds to the one before it. */
  function Continuation(item: Item): string {
    match item
    case Empty => "\n"
    case Loose(text, _) => "\n" + text
    case _ => ""
  }

  function Emit(times: seq<int>, value: string): (ls: seq<Line>)
    ensures |ls| == |times| && forall k :: 0 <= k < |ls| ==> ls[k] == Line(Some(times[k]), value)
  {
    seq(|times|, k requires 0 <= k < |times| => Line(Some(times[k]), value))
  }

  /** One line for every leading stamp, with the text of its line and what follows. */
  function Blocks(items: seq<Item>): seq<Line> {
    if items == [] then []
    else if items[0].Timed? then Emit(items[0].times, Trim(items[0].text + Tail(items[1..]))) + Blocks(items[1..])
    else Blocks(items[1..])
  }

  function Plain(lines: seq<string>): seq<Line> {
    if lines == [] then []
    else
      var last := Trim(lines[|lines| - 1]);
      Plain(lines[..|lines| - 1]) + if last == "" then [] else [Line(None, last)]
  }

  predicate HasStamps(item: Item, n: nat) {
    (item.Loose? || item.Timed? || item.Broken?) && item.stamps >= n
  }

  /** Some line has several stamps, wherever in the line. */
  predicate Repeated(items: seq<Item>) {
    items != [] && (Repeated(items[..|items| - 1]) || HasStamps(items[|items| - 1], 2))
  }

  predicate HasBroken(items: seq<Item>) {
    items != [] && (HasBroken(items[..|items| - 1]) || items[|items| - 1].Broken?)
  }

  /** The last tag of a name, if there is one. */
  function LastTag(items: seq<Item>, name: TagName): Option<string> {
    if items == [] then None
    else
      var last := items[|items| - 1];
      if last.Tagged? && last.tag.name == name then Some(Trim(last.tag.value)) else LastTag(items[..|items| - 1], name)
  }

  /** The last offset tag that holds a number. */
  function LastOffset(items: seq<Item>): Option<int> {
    if items == [] then None
    else
      var last := items[|items| - 1];
      if last.Tagged? && last.tag.name == Offset && ParseInt(Trim(last.tag.value)).Some?
      then ParseInt(Trim(last.tag.value))
      else LastOffset(items[..|items| - 1])
  }

  predicate Sorted(ls: seq<Line>) {
    && (forall i :: 0 <= i < |ls| ==> ls[i].start.Some?)
    && (forall i, j :: 0 <= i < j < |ls| ==> ls[i].start.value <= ls[j].start.value)
  }

  // ----- Reading stamps -----

  /** Goes through the stamps found in a line, up to the first that has text before it. */
  method ReadStamps(line: string, marks: Marks, found: seq<nat>) returns (times: Option<seq<int>>, end: nat)
    requires Marked(line, marks) && found == AllTimes(marks, 0) && found != [] && found[0] == 0
    ensures end <= |line| && times == ParseAll(Leading(line, marks, 0).0)
    ensures times.Some? ==> end == Leading(line, marks, 0).1
  {
    var timestamps: seq<int> := [];
    end := 0;
    var k := 0;
    ghost var all := ParseAll(Leading(line, marks, 0).0);
    assert all.Some? ==> [] + all.value == all.value;
    while k < |found|
      invariant k <= |found| && end <= |line| && (end == 0 <==> k == 0)
      invariant found[k..] == AllTimes(marks, end)
      invariant Resumes(line, marks, timestamps, end)
      decreases |found| - k
    {
      NextStamp(line, marks, end);
      assert found[k..][0] == found[k] && found[k..][1..] == found[k + 1..];
      var stamp := marks[found[k]].value;
      if end != 0 {
        var middle := Trim(line[end..found[k]]);
        if middle != "" {
          break;
        }
      }
      var time := ParseTime(stamp);
      Resumed(line, marks, timestamps, end);
      if time.None? {
        return None, 0;
      }
      end := stamp.end;
      timestamps := timestamps + [time.value];
      k := k + 1;
    }
    if k == |found| {
      NoMoreStamps(line, marks, end);
    }
    assert timestamps + [] == timestamps;
    return Some(timestamps), end;
  }

  /** The times read so far, and those of the stamps still leading, make up the line's. */
  ghost predicate Resumes(s: string, marks: Marks, times: seq<int>, i: nat)
    requires Marked(s, marks) && i <= |s|
  {
    && Leading(s, marks, 0).1 == Leading(s, marks, i).1
    && ParseAll(Leading(s, marks, 0).0) == Prepended(times, ParseAll(Leading(s, marks, i).0))
  }

  function Prepended(times: seq<int>, rest: Option<seq<int>>): Option<seq<int>> {
    if rest.None? then None else Some(times + rest.value)
  }

  lemma Resumed(s: string, marks: Marks, times: seq<int>, i: nat)
    requires Marked(s, marks) && i <= |s| && Resumes(s, marks, times, i)
    requires SkipSpace(s, i) < |s| && marks[SkipSpace(s, i)].Some?
    ensures var m := marks[SkipSpace(s, i)].value;
            if ParseTime(m).None? then ParseAll(Leading(s, marks, 0).0).None?
            else Resumes(s, marks, times + [ParseTime(m).value], m.end)
  {
    var m := marks[SkipSpace(s, i)].value;
    var rest := Leading(s, marks, m.end).0;
    assert Leading(s, marks, i).0 == [m] + rest;
    ParseAllStep(m, rest);
    PrependStep(times, ParseTime(m), ParseAll(rest));
  }

  function Cons(time: Option<int>, rest: Option<seq<int>>): Option<seq<int>> {
    if time.None? || rest.None? then None else Some([time.value] + rest.value)
  }

  lemma ParseAllStep(m: Stamp, rest: seq<Stamp>)
    ensures ParseAll([m] + rest) == Cons(ParseTime(m), ParseAll(rest))
  {
    assert ([m] + rest)[1..] == rest;
  }

  lemma PrependStep(times: seq<int>, time: Option<int>, rest: Option<seq<int>>)
    ensures Prepended(times, Cons(time, rest)) == if time.None? then None else Prepended(times + [time.value], rest)
  {
    if time.Some? && rest.Some? {
      assert times + ([time.value] + rest.value) == times + [time.value] + rest.value;
    }
  }

  /** The next stamp leads exactly when there is only white space before it. */
  lemma NextStamp(s: string, marks: Marks, i: nat)
    requires Marked(s, marks) && i <= |s|
    ensures var next, j := NextTime(marks, i), SkipSpace(s, i);
            if next < |s| && Trim(s[i..next]) == "" then next == j else j == |s| || marks[j].None?
  {
    var next, j := NextTime(marks, i), SkipSpace(s, i);
    TrimEmpty(s[i..next]);
    assert j < |s| && marks[j].Some? ==> next <= j;
    if next < |s| {
      if Trim(s[i..next]) == "" {
        forall k | i <= k < next ensures IsSpace(s[k]) {
          assert s[i..next][k - i] == s[k];
        }
      }
    }
  }

  lemma NoMoreStamps(s: string, marks: Marks, i: nat)
    requires Marked(s, marks) && i <= |s| && AllTimes(marks, i) == []
    ensures Leading(s, marks, i) == ([], i)
  {
  }

  // ----- The pass over the lines -----

  /** The lines emitted, the lines pending and what the rest stands for make up the whole. */
  ghost predicate Parsed(items: seq<Item>, i: nat, ls: seq<Line>, valid: bool, times: seq<int>, prior: string)
    requires i <= |items|
  {
    && Blocks(items) == ls + Pending(valid, times, prior + Tail(items[i..])) + Blocks(items[i..])
    && (!valid ==> times == [])
  }

  function Pending(valid: bool, times: seq<int>, value: string): seq<Line> {
    if valid then Emit(times, Trim(value)) else []
  }

  lemma LooseParsed(items: seq<Item>, i: nat, ls: seq<Line>, valid: bool, times: seq<int>, prior: string)
    requires i < |items| && !items[i].Timed? && Parsed(items, i, ls, valid, times, prior)
    ensures Parsed(items, i + 1, ls, valid, times, if valid then prior + Continuation(items[i]) else prior)
  {
    var rest := items[i + 1..];
    assert items[i..][0] == items[i] && items[i..][1..] == rest;
    assert prior + (Continuation(items[i]) + Tail(rest)) == (prior + Continuation(items[i])) + Tail(rest);
    assert Blocks(items[i..]) == Blocks(rest) && Tail(items[i..]) == Continuation(items[i]) + Tail(rest);
  }

  lemma TimedParsed(items: seq<Item>, i: nat, ls: seq<Line>, valid: bool, times: seq<int>, prior: string)
    requires i < |items| && items[i].Timed? && Parsed(items, i, ls, valid, times, prior)
    ensures Parsed(items, i + 1, ls + Pending(valid, times, prior), true, items[i].times, items[i].text)
  {
    assert items[i..][0] == items[i] && items[i..][1..] == items[i + 1..];
    assert prior + Tail(items[i..]) == prior;
    var pending, rest := Pending(valid, times, prior), Blocks(items[i + 1..]);
    var own := Emit(items[i].times, Trim(items[i].text + Tail(items[i + 1..])));
    assert ls + pending + (own + rest) == (ls + pending) + own + rest;
  }

  method Flush(ls: seq<Line>, timestamps: seq<int>, priorLine: string, validLine: bool) returns (more: seq<Line>)
    ensures more == ls + Pending(validLine, timestamps, priorLine)
  {
    more := ls;
    if !validLine {
      return;
    }
    for idx := 0 to |timestamps|
      invariant more == ls + Emit(timestamps[..idx], Trim(priorLine))
    {
      assert timestamps[..idx + 1] == timestamps[..idx] + [timestamps[idx]];
      assert Emit(timestamps[..idx + 1], Trim(priorLine)) ==
             Emit(timestamps[..idx], Trim(priorLine)) + [Line(Some(timestamps[idx]), Trim(priorLine))];
      more := more + [Line(Some(timestamps[idx]), Trim(priorLine))];
    }
    assert timestamps[..|timestamps|] == timestamps;
  }

  /** What one line is; a line with a stamp in front is a stamped line if all the stamps in front can be read. */
  method ReadLine(raw: string) returns (item: Item)
    ensures item == Classify(raw)
  {
    var line := Trim(raw);
    if line == "" {
      return Empty;
    }
    var tag := FindTag(line, 0);
    if tag.Some? {
      return Tagged(tag.value);
    }
    var marks := MarksOf(line);
    var found := AllTimes(marks, 0);
    if found == [] || found[0] != 0 {
      return Loose(line, |found|);
    }
    var times, end := ReadStamps(line, marks, found);
    if times.None? {
      return Broken(|found|);
    }
    return Timed(times.value, if end >= |line| then "" else Trim(line[end..]), |found|);
  }

  /** What the id tags say. */
  datatype Header = Header(artist: string, title: string, lang: string, offset: Option<int>)

  function Update(h: Header, tag: Tag, sanitize: string -> string): Header {
    var value := Trim(tag.value);
    match tag.name
    case Artist => h.(artist := sanitize(value))
    case Title => h.(title := sanitize(value))
    case Language => h.(lang := sanitize(value))
    case Offset => if ParseInt(value).Some? then h.(offset := ParseInt(value)) else h
  }

  function Sanitized(value: Option<string>, default: string, sanitize: string -> string): string {
    if value.Some? then sanitize(value.value) else default
  }

  /** The last tag of each name counts; of the offsets, the last that is a number. */
  predicate HeaderOf(items: seq<Item>, h: Header, language: string, sanitize: string -> string) {
    && h.artist == Sanitized(LastTag(items, Artist), "", sanitize)
    && h.title == Sanitized(LastTag(items, Title), "", sanitize)
    && h.lang == Sanitized(LastTag(items, Language), language, sanitize)
    && h.offset == LastOffset(items)
  }

  /** The header after the tags of some lines. */
  function HeaderAfter(items: seq<Item>, language: string, sanitize: string -> string): Header {
    if items == [] then Header("", "", language, None)
    else
      var before, last := HeaderAfter(items[..|items| - 1], language, sanitize), items[|items| - 1];
      if last.Tagged? then Update(before, last.tag, sanitize) else before
  }

  lemma {:induction false} LastTagsCount(items: seq<Item>, language: string, sanitize: string -> string)
    ensures HeaderOf(items, HeaderAfter(items, language, sanitize), language, sanitize)
  {
    if items != [] {
      var before, last := items[..|items| - 1], items[|items| - 1];
      LastTagsCount(before, language, sanitize);
      if last.Tagged? {
        OneMoreTag(items, HeaderAfter(before, language, sanitize), language, sanitize);
      }
    }
  }

  lemma OneMoreTag(items: seq<Item>, h: Header, language: string, sanitize: string -> string)
    requires items != [] && items[|items| - 1].Tagged?
    requires HeaderOf(items[..|items| - 1], h, language, sanitize)
    ensures HeaderOf(items, Update(h, items[|items| - 1].tag, sanitize), language, sanitize)
  {
    var tag := items[|items| - 1].tag;
    assert forall name :: LastTag(items, name) == if tag.name == name then Some(Trim(tag.value)) else LastTag(items[..|items| - 1], name);
  }

  lemma {:induction false} MapAppend(lines: seq<string>, last: string, f: string -> Item)
    ensures Map(lines + [last], f) == Map(lines, f) + [f(last)]
  {
    if lines == [] {
      assert lines + [last] == [last];
    } else {
      assert (lines + [last])[1..] == lines[1..] + [last];
      MapAppend(lines[1..], last, f);
    }
  }

  method ReadLines(lines: seq<string>) returns (items: seq<Item>)
    ensures items == Items(lines)
  {
    items := [];
    for i := 0 to |lines|
      invariant items == Map(lines[..i], Classify)
    {
      assert lines[..i + 1] == lines[..i] + [lines[i]];
      MapAppend(lines[..i], lines[i], Classify);
      var item := ReadLine(lines[i]);
      items := items + [item];
    }
    assert lines[..|lines|] == lines;
  }

  lemma {:induction false} BrokenStays(items: seq<Item>, n: nat)
    requires n <= |items| && HasBroken(items[..n])
    ensures HasBroken(items)
    decreases |items| - n
  {
    if n < |items| {
      assert items[..n + 1][..n] == items[..n];
      BrokenStays(items, n + 1);
    } else {
      assert items[..n] == items;
    }
  }

  /**
   The pass over a synchronised text: the lines in the order in which they are written there. None if a stamp is
   broken.
   */
  method ParseSynced(items: seq<Item>, language: string, sanitize: string -> string)
    returns (structured: Option<seq<Line>>, header: Header, repeated: bool)
    ensures structured.None? <==> HasBroken(items)
    ensures structured.Some? ==>
              && structured.value == Blocks(items) && (repeated <==> Repeated(items))
              && header == HeaderAfter(items, language, sanitize)
  {
    var structuredLines: seq<Line> := [];
    var priorLine, validLine, timestamps := "", false, [];
    header, repeated := Header("", "", language, None), false;
    for i := 0 to |items|
      invariant !HasBroken(items[..i])
      invariant repeated <==> Repeated(items[..i])
      invariant Parsed(items, i, structuredLines, validLine, timestamps, priorLine)
      invariant header == HeaderAfter(items[..i], language, sanitize)
    {
      var item := items[i];
      assert items[..i + 1][..i] == items[..i];
      repeated := repeated || HasStamps(item, 2);
      if item.Broken? {
        BrokenStays(items, i + 1);
        return None, header, repeated;
      }
      if item.Timed? {
        TimedParsed(items, i, structuredLines, validLine, timestamps, priorLine);
        structuredLines := Flush(structuredLines, timestamps, priorLine, validLine);
        timestamps, priorLine, validLine := item.times, item.text, true;
      } else {
        LooseParsed(items, i, structuredLines, validLine, timestamps, priorLine);
        priorLine := if validLine then priorLine + Continuation(item) else priorLine;
      }
      if item.Tagged? {
        header := Update(header, item.tag, sanitize);
      }
    }
    assert items[..|items|] == items && priorLine + "" == priorLine;
    structuredLines := Flush(structuredLines, timestamps, priorLine, validLine);
    return Some(structuredLines), header, repeated;
  }

  method ParsePlain(lines: seq<string>) returns (structured: seq<Line>)
    ensures structured == Plain(lines)
  {
    structured := [];
    for i := 0 to |lines|
      invariant structured == Plain(lines[..i])
    {
      assert lines[..i + 1][..i] == lines[..i];
      var line := Trim(lines[i]);
      if line == "" {
        continue;
      }
      structured := structured + [Line(None, line)];
    }
    assert lines[..|lines|] == lines;
  }

  // ----- The whole parser -----

  /** Any sort will do: lines with equal starts may end up in either order. */
  method SortByStart(ls: seq<Line>) returns (sorted: seq<Line>)
    requires forall i :: 0 <= i < |ls| ==> ls[i].start.Some?
    ensures Sorted(sorted) && multiset(sorted) == multiset(ls)
  {
    sorted := [];
    for i := 0 to |ls|
      invariant Sorted(sorted) && multiset(sorted) == multiset(ls[..i])
    {
      assert ls[..i + 1] == ls[..i] + [ls[i]];
      InsertKeepsSorted(sorted, ls[i]);
      sorted := InsertLine(sorted, ls[i]);
    }
    assert ls[..|ls|] == ls;
  }

  function InsertLine(ls: seq<Line>, l: Line): (r: seq<Line>)
    requires l.start.Some? && forall i :: 0 <= i < |ls| ==> ls[i].start.Some?
    ensures multiset(r) == multiset(ls) + multiset{l}
    ensures forall x :: x in r ==> x == l || x in ls
  {
    if ls == [] then [l]
    else if l.start.value < ls[0].start.value then [l] + ls
    else
      assert ls == [ls[0]] + ls[1..];
      [ls[0]] + InsertLine(ls[1..], l)
  }

  lemma {:induction false} InsertKeepsSorted(ls: seq<Line>, l: Line)
    requires Sorted(ls) && l.start.Some?
    ensures Sorted(InsertLine(ls, l))
  {
    if ls == [] {
    } else if l.start.value < ls[0].start.value {
      SortedCons(l, ls);
    } else {
      InsertKeepsSorted(ls[1..], l);
      SortedCons(ls[0], InsertLine(ls[1..], l));
    }
  }

  lemma SortedCons(l: Line, rest: seq<Line>)
    requires Sorted(rest) && l.start.Some? && forall x :: x in rest ==> x.start.Some? && l.start.value <= x.start.value
    ensures Sorted([l] + rest)
  {
    assert forall j :: 0 <= j < |rest| ==> rest[j] in rest;
  }

  /** Whether two lists have the same lines, each as often. */
  ghost predicate Permuted(ls: seq<Line>, ms: seq<Line>) {
    multiset(ls) == multiset(ms)
  }

  /** The text has been sanitised; `sanitize` does the same to the values of the tags. */
  method ToLyrics(language: string, text: string, sanitize: string -> string) returns (r: Option<Lyrics>)
    ensures r.None? <==> IsSynced(text) && HasBroken(Items(Lines(text)))
    ensures r.Some? ==> (r.value.synced <==> IsSynced(text))
    ensures r.Some? && !IsSynced(text) ==> r.value == Lyrics("", "", language, Plain(Lines(text)), None, false)
    ensures r.Some? && IsSynced(text) ==>
              var l, items := r.value, Items(Lines(text));
              && HeaderOf(items, Header(l.displayArtist, l.displayTitle, l.lang, l.offset), language, sanitize)
              && Permuted(l.line, Blocks(items))
              && (if Repeated(items) then Sorted(l.line) else l.line == Blocks(items))
  {
    var lines := Lines(text);
    var synced := FindSynced(text, MarksOf(text), 0, true);
    FindSyncedExact(text);
    if !synced {
      var plain := ParsePlain(lines);
      return Some(Lyrics("", "", language, plain, None, false));
    }
    var items := ReadLines(lines);
    var structured, header, repeated := ParseSynced(items, language, sanitize);
    if structured.None? {
      return None;
    }
    var structuredLines := structured.value;
    LastTagsCount(items, language, sanitize);
    if repeated {
      EveryStartIsSet(items);
      structuredLines := SortByStart(structuredLines);
    }
    return Some(Lyrics(header.artist, header.title, header.lang, structuredLines, header.offset, true));
  }

  /** So the sort never meets a line without a start. */
  lemma {:induction false} EveryStartIsSet(items: seq<Item>)
    ensures forall i :: 0 <= i < |Blocks(items)| ==> Blocks(items)[i].start.Some?
  {
    if items != [] {
      EveryStartIsSet(items[1..]);
    }
  }

  /** Every start, as often as it stands before a line. */
  function Starts(items: seq<Item>): seq<int> {
    if items == [] then [] else (if items[0].Timed? then items[0].times else []) + Starts(items[1..])
  }

  /** No stamp is lost, none is doubled, and they keep their order until they are sorted. */
  lemma {:induction false} OneLinePerStamp(items: seq<Item>)
    ensures |Blocks(items)| == |Starts(items)|
    ensures forall i :: 0 <= i < |Blocks(items)| ==> Blocks(items)[i].start == Some(Starts(items)[i])
  {
    if items != [] {
      OneLinePerStamp(items[1..]);
    }
  }
}
