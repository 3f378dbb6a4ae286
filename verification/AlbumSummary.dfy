/** Summing up the tracks of an album: one pass over the tracks in path order. */
module AlbumSummary {
  import opened Ordering

  /** A file path as its bytes, compared byte by byte. */
  type Path = seq<int>

  datatype Status = Unset | Clean | Explicit

  /** Years and times are 0 when not known. */
  datatype MediaFile = MediaFile(
    path: Path, folderID: string, size: nat, year: int, originalYear: int, date: string, originalDate: string,
    releaseDate: string, comment: string, discNumber: int, discSubtitle: string, hasCoverArt: bool,
    status: Status, compilation: bool, missing: bool, updatedAt: nat, birthTime: nat)

  datatype Album = Album(
    songCount: nat, size: nat, minYear: int, maxYear: int, minOriginalYear: int, maxOriginalYear: int,
    date: string, originalDate: string, releaseDate: string, comment: string, discs: map<int, string>,
    embedArtPath: Path, status: Status, compilation: bool, missing: bool, updatedAt: nat, createdAt: nat,
    folderIDs: seq<string>)

  /** What an empty collection sums up to. */
  const NO_ALBUM := Album(0, 0, 0, 0, 0, 0, "", "", "", "", map[], [], Unset, false, false, 0, 0, [])

  // ----- Path order -----

  predicate SortedByPath(s: seq<MediaFile>) {
    forall i, j :: 0 <= i < j < |s| ==> !Below(s[j].path, s[i].path)
  }

  predicate DistinctPaths(s: seq<MediaFile>) {
    forall i, j :: 0 <= i < j < |s| ==> s[i].path != s[j].path
  }

  function InsertByPath(s: seq<MediaFile>, m: MediaFile): seq<MediaFile> {
    if s == [] || !Below(m.path, s[|s| - 1].path) then s + [m]
    else InsertByPath(s[..|s| - 1], m) + [s[|s| - 1]]
  }

  function SortPaths(s: seq<MediaFile>): (t: seq<MediaFile>)
  {
    if s == [] then [] else InsertByPath(SortPaths(s[..|s| - 1]), s[|s| - 1])
  }

  lemma NotAbove(a: Path, b: Path, c: Path)
    requires !Below(b, a) && !Below(c, b)
    ensures !Below(c, a)
  {
    BelowIsStrictOrder(c, a, b);
    BelowIsStrictOrder(a, b, c);
  }

  lemma SortedAppend(s: seq<MediaFile>, m: MediaFile)
    requires SortedByPath(s) && forall x :: x in s ==> !Below(m.path, x.path)
    ensures SortedByPath(s + [m])
  {
    assert forall i :: 0 <= i < |s| ==> s[i] in s;
  }

  lemma {:induction false} InsertByPathPermutes(s: seq<MediaFile>, m: MediaFile)
    ensures multiset(InsertByPath(s, m)) == multiset(s) + multiset{m} && |InsertByPath(s, m)| == |s| + 1
    ensures forall x :: x in InsertByPath(s, m) ==> x in s || x == m
  {
    if s != [] && Below(m.path, s[|s| - 1].path) {
      assert s == s[..|s| - 1] + [s[|s| - 1]];
      InsertByPathPermutes(s[..|s| - 1], m);
    }
  }

  lemma {:induction false} InsertByPathSorts(s: seq<MediaFile>, m: MediaFile)
    requires SortedByPath(s)
    ensures SortedByPath(InsertByPath(s, m))
  {
    if s != [] {
      var last, before := s[|s| - 1], s[..|s| - 1];
      if Below(m.path, last.path) {
        InsertByPathSorts(before, m);
        InsertByPathPermutes(before, m);
        BelowIsStrictOrder(m.path, last.path, m.path);
        SortedAppend(InsertByPath(before, m), last);
      } else {
        forall x | x in s ensures !Below(m.path, x.path) {
          var i :| 0 <= i < |s| && s[i] == x;
          BelowIsStrictOrder(last.path, last.path, []);
          NotAbove(x.path, last.path, m.path);
        }
        SortedAppend(s, m);
      }
    }
  }

  lemma {:induction false} SortPathsPermutes(s: seq<MediaFile>)
    ensures multiset(SortPaths(s)) == multiset(s)
    ensures |SortPaths(s)| == |s|
  {
    if s != [] {
      var before, last := s[..|s| - 1], s[|s| - 1];
      SortPathsPermutes(before);
      InsertByPathPermutes(SortPaths(before), last);
      LastOfMultiset(s, before, last);
    }
  }

  lemma LastOfMultiset(s: seq<MediaFile>, before: seq<MediaFile>, last: MediaFile)
    requires s != [] && before == s[..|s| - 1] && last == s[|s| - 1]
    ensures multiset(s) == multiset(before) + multiset{last}
  {
    assert s == before + [last];
  }

  lemma {:induction false} SortPathsSorts(s: seq<MediaFile>)
    ensures SortedByPath(SortPaths(s))
  {
    if s != [] {
      SortPathsSorts(s[..|s| - 1]);
      InsertByPathSorts(SortPaths(s[..|s| - 1]), s[|s| - 1]);
    }
  }

  /** With distinct paths there is only one order by path. */
  lemma {:induction false} PathOrderIsUnique(s: seq<MediaFile>, t: seq<MediaFile>)
    requires SortedByPath(s) && SortedByPath(t) && multiset(s) == multiset(t) && DistinctPaths(s) && DistinctPaths(t)
    ensures s == t
  {
    if s == [] {
      assert |multiset(t)| == |t|;
    } else {
      SameFirst(s, t);
      assert s == [s[0]] + s[1..] && t == [t[0]] + t[1..];
      assert multiset(s[1..]) == multiset(s) - multiset{s[0]};
      PathOrderIsUnique(s[1..], t[1..]);
    }
  }

  lemma SameFirst(s: seq<MediaFile>, t: seq<MediaFile>)
    requires s != [] && SortedByPath(s) && SortedByPath(t) && multiset(s) == multiset(t) && DistinctPaths(s)
    ensures t != [] && s[0] == t[0]
  {
    assert s[0] in multiset(s) && s[0] in multiset(t) && t != [];
    assert t[0] in multiset(t) && t[0] in multiset(s);
    var i :| 0 <= i < |s| && s[i] == t[0];
    var j :| 0 <= j < |t| && t[j] == s[0];
    BelowIsStrictOrder(s[0].path, t[0].path, []);
    assert s[0].path == s[i].path;
  }

  // ----- Folds -----

  /** All years; the code keeps a running minimum that a first year below 0 never leaves. */
  function MinYear(items: seq<int>): int {
    if items == [] then 0
    else
      var last := items[|items| - 1];
      if |items| == 1 then last else MinStep(MinYear(items[..|items| - 1]), last)
  }

  function MinStep(mn: int, value: int): int {
    if mn == 0 then value else if value > 0 && value < mn then value else mn
  }

  predicate IsGreatest(items: seq<int>, mx: int) {
    mx in items && forall y :: y in items ==> y <= mx
  }

  predicate IsLeastPositive(items: seq<int>, mn: int) {
    if exists y :: y in items && y > 0 then mn in items && mn > 0 && (forall y :: y in items && y > 0 ==> mn <= y)
    else mn == 0
  }

  function FirstNonZero(items: seq<int>): int {
    if items == [] then 0 else if items[0] != 0 then items[0] else FirstNonZero(items[1..])
  }

  /** The minimum is the least positive year, or 0, exactly when the first known year is not negative. */
  lemma MinYearExact(items: seq<int>)
    requires items != []
    ensures IsLeastPositive(items, MinYear(items)) <==> FirstNonZero(items) >= 0
    ensures FirstNonZero(items) < 0 ==> MinYear(items) == FirstNonZero(items)
  {
    MinYearOf(items);
    FirstNonZeroIsIn(items);
  }

  lemma {:induction false} FirstNonZeroIsIn(items: seq<int>)
    ensures FirstNonZero(items) == 0 <==> forall y :: y in items ==> y == 0
    ensures FirstNonZero(items) != 0 ==> FirstNonZero(items) in items
  {
    if items != [] {
      FirstNonZeroIsIn(items[1..]);
      assert items[0] in items && forall y :: y in items[1..] ==> y in items;
      assert forall y :: y in items ==> y == items[0] || y in items[1..];
    }
  }

  lemma {:induction false} FirstNonZeroGrows(items: seq<int>, last: int)
    ensures FirstNonZero(items + [last]) == if FirstNonZero(items) != 0 then FirstNonZero(items) else last
  {
    if items == [] {
      assert [] + [last] == [last];
    } else {
      assert (items + [last])[1..] == items[1..] + [last];
      FirstNonZeroGrows(items[1..], last);
    }
  }

  lemma {:induction false} MinYearOf(items: seq<int>)
    requires items != []
    ensures FirstNonZero(items) < 0 ==> MinYear(items) == FirstNonZero(items)
    ensures FirstNonZero(items) >= 0 ==> IsLeastPositive(items, MinYear(items))
  {
    var before, last := items[..|items| - 1], items[|items| - 1];
    assert items == before + [last];
    FirstNonZeroGrows(before, last);
    if before != [] {
      MinYearOf(before);
    }
    FirstNonZeroIsIn(before);
  }

  method MinMax(items: seq<int>) returns (mn: int, mx: int)
    requires items != []
    ensures mn == MinYear(items) && mx == MaxYear(items)
  {
    mn, mx := items[0], items[0];
    for i := 0 to |items|
      invariant i == 0 ==> mn == mx == items[0]
      invariant i > 0 ==> mn == MinYear(items[..i]) && mx == MaxYear(items[..i])
    {
      var value := items[i];
      assert items[..i + 1][..i] == items[..i];
      mx := if mx < value then value else mx;
      if mn == 0 {
        mn := value;
      } else if value > 0 {
        mn := if mn < value then mn else value;
      }
    }
    assert items[..|items|] == items;
  }

  /** Every string once, in the order of their first places. */
  function Unique(items: seq<string>): (r: seq<string>)
    ensures forall x :: x in r <==> x in items
    ensures forall i, j :: 0 <= i < j < |r| ==> r[i] != r[j]
  {
    if items == [] then []
    else
      var before, last := Unique(items[..|items| - 1]), items[|items| - 1];
      if last in before then before else before + [last]
  }

  function AllOrNothing(items: seq<string>): string {
    var u := Unique(items);
    if |u| == 1 then u[0] else ""
  }

  /** The value that all tracks share, or nothing. */
  lemma AllOrNothingExact(items: seq<string>, x: string)
    requires x != ""
    ensures AllOrNothing(items) == x <==> items != [] && forall y :: y in items ==> y == x
  {
    var u := Unique(items);
    if |u| == 1 {
      assert u[0] in items;
      assert forall y :: y in items ==> y in u;
    }
    if forall y :: y in items ==> y == x {
      UniqueOfOne(items, x);
    }
  }

  lemma {:induction false} UniqueOfOne(items: seq<string>, x: string)
    requires forall y :: y in items ==> y == x
    ensures Unique(items) == if items == [] then [] else [x]
  {
    if items != [] {
      var before := items[..|items| - 1];
      assert items[|items| - 1] in items;
      forall y | y in before ensures y == x {
        assert y in items;
      }
      UniqueOfOne(before, x);
    }
  }

  // ----- The cover -----

  datatype Cover = Cover(path: Path, disc: int)

  function FirstArtPath(c: Cover, m: MediaFile): Cover {
    if !m.hasCoverArt then c
    else if c.disc == 0 || 0 < m.discNumber < c.disc then Cover(m.path, m.discNumber)
    else if m.discNumber == c.disc && (Below(m.path, c.path) || c.path == []) then Cover(m.path, m.discNumber)
    else c
  }

  function CoverOf(s: seq<MediaFile>): Cover {
    if s == [] then Cover([], 0) else FirstArtPath(CoverOf(s[..|s| - 1]), s[|s| - 1])
  }

  /** The last track with art. */
  predicate LastArt(s: seq<MediaFile>, i: int) {
    0 <= i < |s| && s[i].hasCoverArt && forall j :: i < j < |s| ==> !s[j].hasCoverArt
  }

  /** The first track with art on a disc with a number. */
  predicate FirstDisc(s: seq<MediaFile>, i: int) {
    && 0 <= i < |s| && s[i].hasCoverArt && s[i].discNumber != 0
    && forall j :: 0 <= j < i && s[j].hasCoverArt ==> s[j].discNumber == 0
  }

  /** A track with art on the lowest numbered disc, the first by path. */
  predicate OnLowestDisc(s: seq<MediaFile>, i: int) {
    && 0 <= i < |s| && s[i].hasCoverArt && s[i].discNumber > 0
    && (forall j :: 0 <= j < |s| && s[j].hasCoverArt && s[j].discNumber > 0 ==> s[i].discNumber <= s[j].discNumber)
    && (forall j :: 0 <= j < i && s[j].hasCoverArt ==> s[j].discNumber != s[i].discNumber)
  }

  predicate NumberedArt(s: seq<MediaFile>, i: int) {
    0 <= i < |s| && s[i].hasCoverArt && s[i].discNumber > 0
  }

  predicate Art(s: seq<MediaFile>, i: int) {
    0 <= i < |s| && s[i].hasCoverArt
  }

  /** The lowest disc with art decides; without numbered discs, the last path; without art there is no cover. */
  ghost predicate IsCover(s: seq<MediaFile>, path: Path) {
    if exists i :: NumberedArt(s, i) then exists i :: OnLowestDisc(s, i) && path == s[i].path
    else if exists i :: Art(s, i) then exists i :: LastArt(s, i) && path == s[i].path
    else path == []
  }

  /** The first disc with a number has a negative one, and tracks with art follow: the fold never leaves that disc. */
  ghost predicate Stuck(s: seq<MediaFile>) {
    exists i :: FirstDisc(s, i) && s[i].discNumber < 0 && !LastArt(s, i)
  }

  /** The track whose path and disc the fold holds. */
  ghost predicate Holds(s: seq<MediaFile>, k: int) {
    if k == -1 then CoverOf(s) == Cover([], 0) && forall i :: !Art(s, i)
    else
      && Art(s, k) && CoverOf(s) == Cover(s[k].path, s[k].discNumber)
      && (s[k].discNumber == 0 ==> LastArt(s, k) && forall i :: Art(s, i) ==> s[i].discNumber == 0)
      && (s[k].discNumber < 0 ==> FirstDisc(s, k))
      && (s[k].discNumber > 0 ==> OnLowestDisc(s, k) && forall i :: FirstDisc(s, i) ==> s[i].discNumber > 0)
  }

  ghost predicate ProperPaths(s: seq<MediaFile>) {
    SortedByPath(s) && DistinctPaths(s) && forall m :: m in s ==> m.path != []
  }

  lemma {:induction false} SomeHolds(s: seq<MediaFile>) returns (k: int)
    requires ProperPaths(s)
    ensures Holds(s, k)
  {
    if s == [] {
      k := -1;
    } else {
      var before, m := s[..|s| - 1], s[|s| - 1];
      assert s == before + [m];
      k := SomeHolds(before);
      k := HoldsMore(before, m, k);
    }
  }

  lemma HoldsMore(s: seq<MediaFile>, m: MediaFile, k: int) returns (k': int)
    requires Holds(s, k) && ProperPaths(s + [m])
    ensures Holds(s + [m], k')
  {
    if m.hasCoverArt {
      HoldsNext(s, m, k);
      k' := if Moves(CoverOf(s), m) then |s| else k;
    } else {
      HoldsStill(s, m, k);
      k' := k;
    }
  }

  predicate Moves(c: Cover, m: MediaFile) {
    c.disc == 0 || 0 < m.discNumber < c.disc
  }

  lemma HoldsStill(s: seq<MediaFile>, m: MediaFile, k: int)
    requires Holds(s, k) && !m.hasCoverArt
    ensures Holds(s + [m], k)
  {
    var t := s + [m];
    assert t[..|s|] == s;
    assert forall i :: Art(t, i) ==> Art(s, i) && t[i] == s[i];
    assert forall i :: FirstDisc(t, i) ==> FirstDisc(s, i);
  }

  lemma HoldsNext(s: seq<MediaFile>, m: MediaFile, k: int)
    requires Holds(s, k) && m.hasCoverArt && ProperPaths(s + [m])
    ensures Holds(s + [m], if Moves(CoverOf(s), m) then |s| else k)
  {
    var t := s + [m];
    assert t[..|s|] == s && t[|s|] == m;
    if k >= 0 {
      assert t[k] in t && !Below(m.path, s[k].path) && s[k].path != [];
    }
    NewArt(s, m);
    if Moves(CoverOf(s), m) {
      MovesTo(s, m, k);
    } else {
      assert CoverOf(t) == CoverOf(s);
    }
  }

  lemma NewArt(s: seq<MediaFile>, m: MediaFile)
    ensures forall i :: Art(s + [m], i) ==> i == |s| || (Art(s, i) && (s + [m])[i] == s[i])
    ensures forall i :: FirstDisc(s + [m], i) && i < |s| ==> FirstDisc(s, i)
  {
  }

  lemma MovesTo(s: seq<MediaFile>, m: MediaFile, k: int)
    requires Holds(s, k) && m.hasCoverArt && Moves(CoverOf(s), m)
    ensures Holds(s + [m], |s|)
  {
    var t := s + [m];
    assert t[..|s|] == s && t[|s|] == m;
    NewArt(s, m);
  }

  /** The cover is the one asked for exactly when the fold is not stuck on a negative disc number. */
  lemma CoverExact(s: seq<MediaFile>)
    requires ProperPaths(s)
    ensures IsCover(s, CoverOf(s).path) <==> !Stuck(s)
  {
    var k := SomeHolds(s);
    if k >= 0 && s[k].discNumber < 0 {
      NegativeCover(s, k);
    } else if k >= 0 {
      ProperCover(s, k);
    } else {
      assert forall i :: NumberedArt(s, i) || FirstDisc(s, i) ==> Art(s, i);
    }
  }

  lemma ProperCover(s: seq<MediaFile>, k: nat)
    requires Holds(s, k) && s[k].discNumber >= 0
    ensures IsCover(s, s[k].path) && !Stuck(s)
  {
    assert Art(s, k);
    if s[k].discNumber > 0 {
      assert NumberedArt(s, k) && OnLowestDisc(s, k);
    } else {
      assert forall i :: NumberedArt(s, i) ==> Art(s, i);
      assert forall i :: FirstDisc(s, i) ==> Art(s, i);
    }
  }

  lemma NegativeCover(s: seq<MediaFile>, k: nat)
    requires ProperPaths(s) && Holds(s, k) && s[k].discNumber < 0
    ensures IsCover(s, s[k].path) <==> LastArt(s, k)
    ensures Stuck(s) <==> !LastArt(s, k)
  {
    assert Art(s, k);
    assert forall i :: FirstDisc(s, i) ==> i == k;
    if j :| NumberedArt(s, j) {
      assert k < j && !LastArt(s, k);
      assert forall i :: OnLowestDisc(s, i) ==> i != k;
    }
  }

  // ----- The other folds -----

  function Column<T>(s: seq<MediaFile>, field: MediaFile -> T): (r: seq<T>)
    ensures |r| == |s| && forall i :: 0 <= i < |s| ==> r[i] == field(s[i])
  {
    if s == [] then [] else Column(s[..|s| - 1], field) + [field(s[|s| - 1])]
  }

  function Year(m: MediaFile): int { m.year }
  function OriginalYear(m: MediaFile): int { m.originalYear }
  function Date(m: MediaFile): string { m.date }
  function OriginalDate(m: MediaFile): string { m.originalDate }
  function ReleaseDate(m: MediaFile): string { m.releaseDate }
  function Comment(m: MediaFile): string { m.comment }
  function FolderID(m: MediaFile): string { m.folderID }

  function Size(s: seq<MediaFile>): nat {
    if s == [] then 0 else Size(s[..|s| - 1]) + s[|s| - 1].size
  }

  function MaxYear(items: seq<int>): (mx: int)
    requires items != []
    ensures IsGreatest(items, mx)
  {
    if |items| == 1 then items[0]
    else
      var mx, last := MaxYear(items[..|items| - 1]), items[|items| - 1];
      assert items == items[..|items| - 1] + [last];
      if mx < last then last else mx
  }

  function DiscsOf(s: seq<MediaFile>): map<int, string> {
    if s == [] then map[1 := ""]
    else
      var discs, m := DiscsOf(s[..|s| - 1]), s[|s| - 1];
      if m.discNumber > 0 then discs[m.discNumber := m.discSubtitle] else discs
  }

  function StatusOf(s: seq<MediaFile>): Status {
    if s == [] then Unset
    else
      var status, m := StatusOf(s[..|s| - 1]), s[|s| - 1];
      if m.status == Clean && status != Explicit then Clean else if m.status == Explicit then Explicit else status
  }

  function Newer(t1: nat, t2: nat): nat {
    if t1 > t2 then t1 else t2
  }

  function Older(t1: nat, t2: nat): nat {
    if t1 == 0 || t1 > t2 then t2 else t1
  }

  function Newest(s: seq<MediaFile>): nat {
    if s == [] then 0 else Newer(Newest(s[..|s| - 1]), s[|s| - 1].updatedAt)
  }

  function Oldest(s: seq<MediaFile>): nat {
    if s == [] then 0 else Older(Oldest(s[..|s| - 1]), s[|s| - 1].birthTime)
  }

  // ----- What they mean -----

  /** The strongest status of any track. */
  lemma {:induction false} StatusExact(s: seq<MediaFile>)
    ensures StatusOf(s) == Explicit <==> exists m :: m in s && m.status == Explicit
    ensures StatusOf(s) == Unset <==> forall m :: m in s ==> m.status == Unset
  {
    if s != [] {
      StatusExact(s[..|s| - 1]);
      assert s[|s| - 1] in s && forall m :: m in s ==> m in s[..|s| - 1] || m == s[|s| - 1];
      assert forall m :: m in s[..|s| - 1] ==> m in s;
    }
  }

  lemma {:induction false} NewestExact(s: seq<MediaFile>)
    ensures forall m :: m in s ==> m.updatedAt <= Newest(s)
    ensures s != [] ==> exists m :: m in s && m.updatedAt == Newest(s)
  {
    if s != [] {
      NewestExact(s[..|s| - 1]);
      assert s[|s| - 1] in s && forall m :: m in s ==> m in s[..|s| - 1] || m == s[|s| - 1];
      assert forall m :: m in s[..|s| - 1] ==> m in s;
    }
  }

  /** The tracks after the last one whose birth time is not known. */
  function SinceGap(s: seq<MediaFile>): seq<MediaFile> {
    if s == [] || s[|s| - 1].birthTime == 0 then [] else SinceGap(s[..|s| - 1]) + [s[|s| - 1]]
  }

  /** A track without a birth time makes the fold forget what came before it; after the last such, it finds the oldest. */
  lemma {:induction false} OldestSinceGap(s: seq<MediaFile>)
    ensures var t := SinceGap(s);
            if t == [] then Oldest(s) == 0
            else (exists m :: m in t && m.birthTime == Oldest(s)) && forall m :: m in t ==> 0 < Oldest(s) <= m.birthTime
  {
    if s != [] {
      var before, last := s[..|s| - 1], s[|s| - 1];
      OldestSinceGap(before);
      if last.birthTime != 0 {
        var t := SinceGap(before);
        assert last in t + [last] && forall m :: m in t + [last] ==> m in t || m == last;
        assert forall m :: m in t ==> m in t + [last];
      }
    }
  }

  /** The least known birth time, or none. */
  ghost predicate IsEarliestKnown(s: seq<MediaFile>, t: nat) {
    if exists m :: m in s && m.birthTime > 0
    then (exists m :: m in s && m.birthTime > 0 && m.birthTime == t)
         && forall m :: m in s && m.birthTime > 0 ==> t <= m.birthTime
    else t == 0
  }

  /** The fold finds the earliest known time exactly when none is known or a track after the last unknown one has it. */
  lemma EarliestExact(s: seq<MediaFile>)
    ensures IsEarliestKnown(s, Oldest(s))
            <==> (forall m :: m in s ==> m.birthTime == 0)
                 || exists m :: m in SinceGap(s) && forall x :: x in s && x.birthTime > 0 ==> m.birthTime <= x.birthTime
  {
    OldestSinceGap(s);
    SinceGapIsKnown(s);
    if SinceGap(s) == [] {
      assert forall m :: m !in SinceGap(s);
    }
  }

  lemma {:induction false} SinceGapIsKnown(s: seq<MediaFile>)
    ensures forall m :: m in SinceGap(s) ==> m in s && m.birthTime > 0
  {
    if s != [] {
      SinceGapIsKnown(s[..|s| - 1]);
      assert s[|s| - 1] in s && forall m :: m in s[..|s| - 1] ==> m in s;
    }
  }

  /** So the album's birth is the oldest of all when every birth time is known. */
  lemma {:induction false} NoGap(s: seq<MediaFile>)
    requires forall m :: m in s ==> m.birthTime > 0
    ensures SinceGap(s) == s
  {
    if s != [] {
      assert s[|s| - 1] in s && forall m :: m in s[..|s| - 1] ==> m in s;
      NoGap(s[..|s| - 1]);
    }
  }

  predicate LastOnDisc(s: seq<MediaFile>, d: int, i: int) {
    0 <= i < |s| && s[i].discNumber == d && forall j :: i < j < |s| ==> s[j].discNumber != d
  }

  /** Every disc with a number, under the subtitle of its last track, and disc 1 in any case. */
  lemma {:induction false} DiscsExact(s: seq<MediaFile>, d: int)
    ensures d in DiscsOf(s) <==> d == 1 || (d > 0 && exists m :: m in s && m.discNumber == d)
    ensures d > 0 && (exists m :: m in s && m.discNumber == d) ==> exists i :: LastOnDisc(s, d, i) && DiscsOf(s)[d] == s[i].discSubtitle
  {
    if s != [] {
      assert forall i :: LastOnDisc(s[..|s| - 1], d, i) && s[|s| - 1].discNumber != d ==> LastOnDisc(s, d, i);
      assert s[|s| - 1].discNumber == d ==> LastOnDisc(s, d, |s| - 1);
      DiscsExact(s[..|s| - 1], d);
      assert s[|s| - 1] in s && forall m :: m in s ==> m in s[..|s| - 1] || m == s[|s| - 1];
      assert forall m :: m in s[..|s| - 1] ==> m in s;
    }
  }

  // ----- The album -----

  /** The running totals of the pass. */
  datatype Totals = Totals(
    size: nat, discs: map<int, string>, cover: Cover, status: Status, compilation: bool, missing: bool,
    updatedAt: nat, createdAt: nat)

  function TotalsOf(s: seq<MediaFile>): Totals {
    Totals(Size(s), DiscsOf(s), CoverOf(s), StatusOf(s),
           exists i :: 0 <= i < |s| && s[i].compilation, forall i :: 0 <= i < |s| ==> s[i].missing,
           Newest(s), Oldest(s))
  }

  function Summary(s: seq<MediaFile>, t: Totals): Album
    requires s != []
  {
    var years, originalYears := Column(s, Year), Column(s, OriginalYear);
    Album(|s|, t.size, MinYear(years), MaxYear(years), MinYear(originalYears), MaxYear(originalYears),
          AllOrNothing(Column(s, Date)), AllOrNothing(Column(s, OriginalDate)), AllOrNothing(Column(s, ReleaseDate)),
          AllOrNothing(Column(s, Comment)), t.discs, t.cover.path, t.status, t.compilation, t.missing,
          t.updatedAt, t.createdAt, Unique(Column(s, FolderID)))
  }

  function AlbumOf(s: seq<MediaFile>): Album {
    if s == [] then NO_ALBUM else Summary(s, TotalsOf(s))
  }

  /** The order in which the tracks come makes no difference. */
  lemma AlbumIgnoresOrder(s: seq<MediaFile>, t: seq<MediaFile>)
    requires multiset(s) == multiset(t) && DistinctPaths(s)
    ensures AlbumOf(SortPaths(s)) == AlbumOf(SortPaths(t))
  {
    SortPathsSorts(s);
    SortPathsSorts(t);
    SortPathsPermutes(s);
    SortPathsPermutes(t);
    DistinctPathsPermute(s, SortPaths(s));
    DistinctPathsPermute(s, SortPaths(t));
    PathOrderIsUnique(SortPaths(s), SortPaths(t));
  }

  /** One track for each path: a property of the collection. */
  ghost predicate OnePerPath(m: multiset<MediaFile>) {
    forall x, y :: x in m && y in m && x.path == y.path ==> x == y && m[x] == 1
  }

  lemma OnePerPathIfDistinct(s: seq<MediaFile>)
    requires DistinctPaths(s)
    ensures OnePerPath(multiset(s))
  {
    forall x, y | x in multiset(s) && y in multiset(s) && x.path == y.path ensures x == y && multiset(s)[x] == 1 {
      var i :| 0 <= i < |s| && s[i] == x;
      var j :| 0 <= j < |s| && s[j] == y;
      assert s == s[..i] + [x] + s[i + 1..];
      assert x !in s[..i] && x !in s[i + 1..];
    }
  }

  lemma DistinctIfOnePerPath(s: seq<MediaFile>)
    requires OnePerPath(multiset(s))
    ensures DistinctPaths(s)
  {
    forall i, j | 0 <= i < j < |s| ensures s[i].path != s[j].path {
      assert s == s[..j] + s[j..] && s[i] in s[..j] && s[j] in s[j..];
      assert s[i] in multiset(s) && s[j] in multiset(s);
      assert s[i] == s[j] ==> multiset(s)[s[i]] >= 2;
    }
  }

  lemma DistinctPathsPermute(s: seq<MediaFile>, t: seq<MediaFile>)
    requires multiset(s) == multiset(t) && DistinctPaths(s)
    ensures DistinctPaths(t)
  {
    OnePerPathIfDistinct(s);
    DistinctIfOnePerPath(t);
  }
}
