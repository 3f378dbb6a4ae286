/** What the lines of a text amount to, plain or with stamps. */
module LyricsLines {
  import opened Wrappers
  import opened LyricsText
  import opened LyricsParser

  /** A plain text is read line by line: each line that is not blank gives itself, trimmed and without a start. */
  lemma {:induction false} PlainAdds(a: seq<string>, b: seq<string>)
    ensures Plain(a + b) == Plain(a) + Plain(b)
  {
    if b == [] {
      assert a + b == a;
    } else {
      assert (a + b)[..|a + b| - 1] == a + b[..|b| - 1];
      PlainAdds(a, b[..|b| - 1]);
    }
  }

  lemma PlainLine(line: string)
    ensures Plain([line]) == if Trim(line) == "" then [] else [Line(None, Trim(line))]
  {
    assert [line][..0] == [];
  }

  /** The line has two stamps or more, anywhere, and is not a tag. */
  predicate HasSeveral(line: string) {
    var s := Trim(line);
    s != "" && FindTag(s, 0).None? && |AllTimes(MarksOf(s), 0)| >= 2
  }

  lemma SeveralStamps(line: string)
    ensures HasStamps(Classify(line), 2) <==> HasSeveral(line)
  {
  }

  /** The lines are sorted at the end exactly when one of them has several stamps. */
  lemma {:induction false} RepeatedExact(lines: seq<string>)
    ensures Repeated(Items(lines)) <==> exists line :: line in lines && HasSeveral(line)
    decreases |lines|
  {
    if lines != [] {
      var before, last := lines[..|lines| - 1], lines[|lines| - 1];
      RepeatedExact(before);
      SeveralStamps(last);
      LastItem(before, last);
      assert lines == before + [last];
      assert forall line :: line in lines <==> line in before || line == last;
    }
  }

  lemma LastItem(before: seq<string>, last: string)
    ensures Repeated(Items(before + [last])) <==> Repeated(Items(before)) || HasStamps(Classify(last), 2)
  {
    MapAppend(before, last, Classify);
    var items := Items(before) + [Classify(last)];
    assert items[..|items| - 1] == Items(before);
  }
}
