/** What each column of an album says about its tracks. */
module AlbumColumns {
  import opened AlbumSummary

  lemma InColumn<T>(s: seq<MediaFile>, field: MediaFile -> T, x: T)
    ensures x in Column(s, field) <==> exists m :: m in s && field(m) == x
  {
    var c := Column(s, field);
    if x in c {
      var i :| 0 <= i < |c| && c[i] == x;
      assert s[i] in s && field(s[i]) == x;
    }
    if m :| m in s && field(m) == x {
      var i :| 0 <= i < |s| && s[i] == m;
      assert c[i] == x;
    }
  }

  lemma {:induction false} SizeAdds(s: seq<MediaFile>, t: seq<MediaFile>)
    ensures Size(s + t) == Size(s) + Size(t)
    ensures forall m: MediaFile :: Size([m]) == m.size
  {
    if t == [] {
      assert s + t == s;
    } else {
      assert (s + t)[..|s + t| - 1] == s + t[..|t| - 1];
      SizeAdds(s, t[..|t| - 1]);
    }
    forall m: MediaFile ensures Size([m]) == m.size {
      assert [m][..0] == [];
    }
  }

  /** The song count, and what each total is the total of. */
  lemma TotalsExact(s: seq<MediaFile>)
    requires s != []
    ensures var a := AlbumOf(s);
            && a.songCount == |s| && a.size == Size(s) && a.status == StatusOf(s) && a.updatedAt == Newest(s)
            && a.createdAt == Oldest(s) && a.discs == DiscsOf(s) && a.embedArtPath == CoverOf(s).path
  {
  }

  lemma SomeTrack(s: seq<MediaFile>, flag: MediaFile -> bool)
    ensures (exists i :: 0 <= i < |s| && flag(s[i])) <==> exists m :: m in s && flag(m)
    ensures (forall i :: 0 <= i < |s| ==> flag(s[i])) <==> forall m :: m in s ==> flag(m)
  {
    if i :| 0 <= i < |s| && flag(s[i]) {
      assert s[i] in s;
    }
    if i :| 0 <= i < |s| && !flag(s[i]) {
      assert s[i] in s;
    }
  }

  /** A compilation if one of the tracks is of one; missing if all are. */
  lemma FlagsExact(s: seq<MediaFile>)
    requires s != []
    ensures AlbumOf(s).compilation <==> exists m :: m in s && m.compilation
    ensures AlbumOf(s).missing <==> forall m :: m in s ==> m.missing
  {
    SomeTrack(s, (m: MediaFile) => m.compilation);
    SomeTrack(s, (m: MediaFile) => m.missing);
    var t := TotalsOf(s);
    assert t.compilation <==> exists i :: 0 <= i < |s| && s[i].compilation;
    assert t.missing <==> forall i :: 0 <= i < |s| ==> s[i].missing;
  }

  /** The latest year of a track, in each of the two columns. */
  lemma MaxYearsExact(s: seq<MediaFile>)
    requires s != []
    ensures var a := AlbumOf(s);
            && (exists m :: m in s && m.year == a.maxYear) && (forall m :: m in s ==> m.year <= a.maxYear)
            && (exists m :: m in s && m.originalYear == a.maxOriginalYear)
            && (forall m :: m in s ==> m.originalYear <= a.maxOriginalYear)
  {
    var a := AlbumOf(s);
    InColumn(s, Year, a.maxYear);
    InColumn(s, OriginalYear, a.maxOriginalYear);
    forall m | m in s ensures m.year <= a.maxYear && m.originalYear <= a.maxOriginalYear {
      InColumn(s, Year, m.year);
      InColumn(s, OriginalYear, m.originalYear);
    }
  }

  /** No track before that one has a year in the column. */
  ghost predicate FirstKnown(s: seq<MediaFile>, field: MediaFile -> int, y: int) {
    exists i :: 0 <= i < |s| && field(s[i]) == y && y != 0 && forall j :: 0 <= j < i ==> field(s[j]) == 0
  }

  ghost predicate LeastKnownYear(s: seq<MediaFile>, field: MediaFile -> int, y: int) {
    if exists m :: m in s && field(m) > 0
    then (exists m :: m in s && field(m) == y) && y > 0 && forall m :: m in s && field(m) > 0 ==> y <= field(m)
    else y == 0
  }

  lemma {:induction false} FirstKnownIs(s: seq<MediaFile>, field: MediaFile -> int, items: seq<int>)
    requires |items| == |s| && forall i :: 0 <= i < |s| ==> items[i] == field(s[i])
    ensures FirstNonZero(items) != 0 ==> FirstKnown(s, field, FirstNonZero(items))
    ensures FirstNonZero(items) == 0 ==> forall i :: 0 <= i < |s| ==> field(s[i]) == 0
    decreases |s|
  {
    if s != [] && items[0] == 0 {
      FirstKnownIs(s[1..], field, items[1..]);
      if FirstNonZero(items) != 0 {
        var y := FirstNonZero(items);
        var i :| 0 <= i < |s[1..]| && field(s[1..][i]) == y && forall j :: 0 <= j < i ==> field(s[1..][j]) == 0;
        forall j | 0 <= j < i + 1 ensures field(s[j]) == 0 {
          assert j > 0 ==> s[j] == s[1..][j - 1];
        }
        assert field(s[i + 1]) == y;
      } else {
        forall i | 0 <= i < |s| ensures field(s[i]) == 0 {
          assert i > 0 ==> s[i] == s[1..][i - 1];
        }
      }
    } else if s != [] {
      assert field(s[0]) == FirstNonZero(items);
    }
  }

  /** The least known year, unless the first known one is negative: then that. */
  ghost predicate EarliestOrFirst(s: seq<MediaFile>, field: MediaFile -> int, y: int) {
    || (y < 0 && FirstKnown(s, field, y))
    || (LeastKnownYear(s, field, y) && forall x :: FirstKnown(s, field, x) ==> x > 0)
  }

  lemma MinYearColumn(s: seq<MediaFile>, field: MediaFile -> int)
    requires s != []
    ensures EarliestOrFirst(s, field, MinYear(Column(s, field)))
  {
    var items := Column(s, field);
    MinYearExact(items);
    FirstKnownIs(s, field, items);
    if FirstNonZero(items) >= 0 {
      LeastInColumn(s, field, MinYear(items));
      forall x | FirstKnown(s, field, x) ensures x > 0 {
        OneFirstKnown(s, field, x, FirstNonZero(items));
      }
    }
  }

  lemma OneFirstKnown(s: seq<MediaFile>, field: MediaFile -> int, x: int, y: int)
    requires FirstKnown(s, field, x) && (FirstKnown(s, field, y) || forall i :: 0 <= i < |s| ==> field(s[i]) == 0)
    ensures x == y && FirstKnown(s, field, y)
  {
    var i :| 0 <= i < |s| && field(s[i]) == x && x != 0 && forall j :: 0 <= j < i ==> field(s[j]) == 0;
    var k :| 0 <= k < |s| && field(s[k]) == y && y != 0 && forall j :: 0 <= j < k ==> field(s[j]) == 0;
    assert i == k;
  }

  lemma LeastInColumn(s: seq<MediaFile>, field: MediaFile -> int, y: int)
    requires IsLeastPositive(Column(s, field), y)
    ensures LeastKnownYear(s, field, y)
  {
    InColumn(s, field, y);
    forall m | m in s ensures field(m) in Column(s, field) {
      InColumn(s, field, field(m));
    }
    if x :| x in Column(s, field) && x > 0 {
      InColumn(s, field, x);
    }
  }

  lemma MinYearsExact(s: seq<MediaFile>)
    requires s != []
    ensures EarliestOrFirst(s, (m: MediaFile) => m.year, AlbumOf(s).minYear)
    ensures EarliestOrFirst(s, (m: MediaFile) => m.originalYear, AlbumOf(s).minOriginalYear)
  {
    var year, original := (m: MediaFile) => m.year, (m: MediaFile) => m.originalYear;
    SameColumn(s, Year, year);
    SameColumn(s, OriginalYear, original);
    MinYearColumn(s, year);
    MinYearColumn(s, original);
  }

  lemma SameColumn<T>(s: seq<MediaFile>, f: MediaFile -> T, g: MediaFile -> T)
    requires forall m: MediaFile :: f(m) == g(m)
    ensures Column(s, f) == Column(s, g)
  {
  }

  lemma SharedColumn(s: seq<MediaFile>, field: MediaFile -> string, x: string)
    requires s != [] && x != ""
    ensures AllOrNothing(Column(s, field)) == x <==> forall m :: m in s ==> field(m) == x
  {
    var c := Column(s, field);
    AllOrNothingExact(c, x);
    if forall y :: y in c ==> y == x {
      forall m | m in s ensures field(m) == x {
        InColumn(s, field, field(m));
      }
    }
    if forall m :: m in s ==> field(m) == x {
      forall y | y in c ensures y == x {
        InColumn(s, field, y);
      }
    }
  }

  /** Dates and comment are what all the tracks share, column by column. */
  lemma SharedExact(s: seq<MediaFile>, x: string)
    requires s != [] && x != ""
    ensures AlbumOf(s).date == x <==> forall m :: m in s ==> m.date == x
    ensures AlbumOf(s).originalDate == x <==> forall m :: m in s ==> m.originalDate == x
    ensures AlbumOf(s).releaseDate == x <==> forall m :: m in s ==> m.releaseDate == x
    ensures AlbumOf(s).comment == x <==> forall m :: m in s ==> m.comment == x
  {
    SharedColumn(s, Date, x);
    SharedColumn(s, OriginalDate, x);
    SharedColumn(s, ReleaseDate, x);
    SharedColumn(s, Comment, x);
  }

  /** Each value stands where it first occurs. */
  ghost predicate FirstPlaces(items: seq<string>, r: seq<string>, at: seq<nat>) {
    && |at| == |r|
    && (forall k :: 0 <= k < |at| ==> at[k] < |items| && items[at[k]] == r[k] && r[k] !in items[..at[k]])
    && (forall j, k :: 0 <= j < k < |at| ==> at[j] < at[k])
  }

  lemma {:induction false} UniqueKeepsOrder(items: seq<string>) returns (at: seq<nat>)
    ensures FirstPlaces(items, Unique(items), at)
  {
    if items == [] {
      at := [];
    } else {
      var before, last := items[..|items| - 1], items[|items| - 1];
      at := UniqueKeepsOrder(before);
      forall k | 0 <= k < |at| ensures items[..at[k]] == before[..at[k]] {
      }
      if last !in Unique(before) {
        at := at + [|items| - 1];
        assert items[..|items| - 1] == before;
      }
    }
  }

  /** The folders of the tracks, each once. */
  lemma FoldersExact(s: seq<MediaFile>)
    requires s != []
    ensures forall f :: f in AlbumOf(s).folderIDs <==> exists m :: m in s && m.folderID == f
    ensures var ids := AlbumOf(s).folderIDs; forall i, j :: 0 <= i < j < |ids| ==> ids[i] != ids[j]
  {
    forall f ensures f in Column(s, FolderID) <==> exists m :: m in s && m.folderID == f {
      InColumn(s, FolderID, f);
    }
  }

  /** In the order of their first tracks. */
  ghost predicate FirstTracks(s: seq<MediaFile>, ids: seq<string>, at: seq<nat>) {
    && |at| == |ids| && (forall j, k :: 0 <= j < k < |at| ==> at[j] < at[k])
    && (forall k :: 0 <= k < |at| ==> at[k] < |s| && s[at[k]].folderID == ids[k] && NotBefore(s, ids[k], at[k]))
  }

  predicate NotBefore(s: seq<MediaFile>, folder: string, n: nat) {
    n <= |s| && forall i :: 0 <= i < n ==> s[i].folderID != folder
  }

  lemma FoldersKeepOrder(s: seq<MediaFile>) returns (at: seq<nat>)
    requires s != []
    ensures FirstTracks(s, AlbumOf(s).folderIDs, at)
  {
    var items := Column(s, FolderID);
    at := UniqueKeepsOrder(items);
    forall k | 0 <= k < |at| ensures NotBefore(s, Unique(items)[k], at[k]) {
      forall i | 0 <= i < at[k] ensures s[i].folderID != Unique(items)[k] {
        assert items[..at[k]][i] == s[i].folderID;
      }
    }
  }

  /** No tracks make an album of nothing. */
  lemma EmptyAlbum()
    ensures var a := AlbumOf([]);
            && a.songCount == 0 && a.size == 0 && a.minYear == a.maxYear == a.minOriginalYear == a.maxOriginalYear == 0
            && a.date == a.originalDate == a.releaseDate == a.comment == "" && a.discs == map[] && a.embedArtPath == []
            && a.status == Unset && !a.compilation && !a.missing && a.updatedAt == a.createdAt == 0 && a.folderIDs == []
  {
  }
}
