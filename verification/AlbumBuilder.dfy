/** The pass that builds an album, over the tracks it has sorted in place. */
module AlbumBuilder {
  import opened Ordering
  import opened AlbumSummary

  lemma {:induction false} InsertAt(s: seq<MediaFile>, m: MediaFile, j: nat)
    requires j <= |s| && (j > 0 ==> !Below(m.path, s[j - 1].path))
    requires forall k :: j <= k < |s| ==> Below(m.path, s[k].path)
    ensures InsertByPath(s, m) == s[..j] + [m] + s[j..]
  {
    if j < |s| {
      var before := s[..|s| - 1];
      InsertAt(before, m, j);
      assert before[..j] == s[..j] && before[j..] + [s[|s| - 1]] == s[j..];
    } else {
      assert s[..j] == s && s[j..] == [];
    }
  }

  /** Moves the element at i down to its place among the sorted elements before it. */
  method SinkInto(a: array<MediaFile>, i: nat)
    requires i < a.Length
    modifies a
    ensures a[..] == InsertByPath(old(a[..i]), old(a[i])) + old(a[i + 1..])
  {
    ghost var s, m, rest := a[..i], a[i], a[i + 1..];
    var j := i;
    assert a[..] == s[..j] + [m] + s[j..] + rest;
    while j > 0 && Below(a[j].path, a[j - 1].path)
      invariant j <= i
      invariant a[..] == s[..j] + [m] + s[j..] + rest
      invariant forall k :: j <= k < i ==> Below(m.path, s[k].path)
    {
      Swapped(a[..], s, m, rest, j);
      a[j], a[j - 1] := a[j - 1], a[j];
      j := j - 1;
    }
    assert a[..][j] == m && (j > 0 ==> a[..][j - 1] == s[j - 1]);
    InsertAt(s, m, j);
  }

  lemma Swapped(all: seq<MediaFile>, s: seq<MediaFile>, m: MediaFile, rest: seq<MediaFile>, j: nat)
    requires 0 < j <= |s| && all == s[..j] + [m] + s[j..] + rest
    ensures |all| == |s| + 1 + |rest| && all[j] == m && all[j - 1] == s[j - 1]
    ensures all[j - 1 := m][j := s[j - 1]] == s[..j - 1] + [m] + s[j - 1..] + rest
  {
  }

  lemma StillUnsorted(now: seq<MediaFile>, s: seq<MediaFile>, all: seq<MediaFile>, i: nat)
    requires i < |all| == |now| && |s| == i && now == s + all[i..] && s == SortPaths(all[..i])
    ensures now[..i] == s && now[i] == all[i] && now[i + 1..] == all[i + 1..]
    ensures SortPaths(all[..i + 1]) == InsertByPath(s, all[i])
  {
    assert all[..i + 1][..i] == all[..i];
  }

  method SortInPlace(a: array<MediaFile>)
    modifies a
    ensures a[..] == SortPaths(old(a[..]))
  {
    ghost var all := a[..];
    for i := 0 to a.Length
      invariant a[..] == SortPaths(all[..i]) + all[i..]
    {
      ghost var s := SortPaths(all[..i]);
      SortPathsPermutes(all[..i]);
      StillUnsorted(a[..], s, all, i);
      SinkInto(a, i);
      assert a[..] == SortPaths(all[..i + 1]) + all[i + 1..];
    }
    assert all[..a.Length] == all;
  }

  method UniqueStrings(items: seq<string>) returns (r: seq<string>)
    ensures r == Unique(items)
  {
    var seen: set<string> := {};
    r := [];
    for i := 0 to |items|
      invariant r == Unique(items[..i]) && forall x :: x in seen <==> x in r
    {
      assert items[..i + 1][..i] == items[..i];
      if items[i] !in seen {
        seen := seen + {items[i]};
        r := r + [items[i]];
      }
    }
    assert items[..|items|] == items;
  }

  method AddTrack(t: Totals, m: MediaFile, ghost s: seq<MediaFile>) returns (r: Totals)
    requires t == TotalsOf(s)
    ensures r == TotalsOf(s + [m])
  {
    assert (s + [m])[..|s|] == s;
    r := t.(compilation := t.compilation || m.compilation, size := t.size + m.size);
    if m.discNumber > 0 {
      r := r.(discs := r.discs[m.discNumber := m.discSubtitle]);
    }
    r := r.(cover := FirstArtPath(r.cover, m));
    if m.status == Clean && r.status != Explicit {
      r := r.(status := Clean);
    } else if m.status == Explicit {
      r := r.(status := Explicit);
    }
    r := r.(updatedAt := Newer(r.updatedAt, m.updatedAt));
    r := r.(createdAt := Older(r.createdAt, m.birthTime));
    r := r.(missing := r.missing && m.missing);
    SomeAndAll(s, m);
  }

  lemma SomeAndAll(s: seq<MediaFile>, m: MediaFile)
    ensures var t := s + [m];
            && ((exists i :: 0 <= i < |t| && t[i].compilation) <==> (exists i :: 0 <= i < |s| && s[i].compilation) || m.compilation)
            && ((forall i :: 0 <= i < |t| ==> t[i].missing) <==> (forall i :: 0 <= i < |s| ==> s[i].missing) && m.missing)
  {
    var t := s + [m];
    assert t[|s|] == m && forall i :: 0 <= i < |s| ==> t[i] == s[i];
  }

  method Collect<T>(s: seq<MediaFile>, field: MediaFile -> T) returns (r: seq<T>)
    ensures r == Column(s, field)
  {
    r := [];
    for i := 0 to |s|
      invariant r == Column(s[..i], field)
    {
      assert s[..i + 1][..i] == s[..i];
      r := r + [field(s[i])];
    }
    assert s[..|s|] == s;
  }

  method SharedValue(s: seq<MediaFile>, field: MediaFile -> string) returns (r: string)
    ensures r == AllOrNothing(Column(s, field))
  {
    var items := Collect(s, field);
    var u := UniqueStrings(items);
    return if |u| == 1 then u[0] else "";
  }

  method Folders(s: seq<MediaFile>) returns (r: seq<string>)
    ensures r == Unique(Column(s, FolderID))
  {
    var items := Collect(s, FolderID);
    r := UniqueStrings(items);
  }

  method YearRange(s: seq<MediaFile>, field: MediaFile -> int) returns (mn: int, mx: int)
    requires s != []
    ensures mn == MinYear(Column(s, field)) && mx == MaxYear(Column(s, field))
  {
    var items := Collect(s, field);
    mn, mx := MinMax(items);
  }

  /** Sorts the tracks by path, in place, and sums them up. */
  method ToAlbum(a: array<MediaFile>) returns (album: Album)
    modifies a
    ensures a[..] == SortPaths(old(a[..]))
    ensures album == AlbumOf(a[..])
  {
    if a.Length == 0 {
      return NO_ALBUM;
    }
    SortInPlace(a);
    var totals := Totals(0, map[1 := ""], Cover([], 0), Unset, false, true, 0, 0);
    for i := 0 to a.Length
      invariant a[..] == SortPaths(old(a[..])) && totals == TotalsOf(a[..i])
    {
      assert a[..i + 1] == a[..i] + [a[i]];
      totals := AddTrack(totals, a[i], a[..i]);
    }
    assert a[..a.Length] == a[..];
    album := Finish(a[..], totals);
  }

  method Finish(s: seq<MediaFile>, t: Totals) returns (album: Album)
    requires s != []
    ensures album == Summary(s, t)
  {
    var minYear, maxYear := YearRange(s, Year);
    var minOriginalYear, maxOriginalYear := YearRange(s, OriginalYear);
    var date := SharedValue(s, Date);
    var originalDate := SharedValue(s, OriginalDate);
    var releaseDate := SharedValue(s, ReleaseDate);
    var comment := SharedValue(s, Comment);
    var folderIDs := Folders(s);
    album := Album(|s|, t.size, minYear, maxYear, minOriginalYear, maxOriginalYear, date, originalDate, releaseDate, comment,
                   t.discs, t.cover.path, t.status, t.compilation, t.missing, t.updatedAt, t.createdAt, folderIDs);
  }
}
