/** Deleting rows leaves gaps; renumber closes them by negating the positions and numbering them anew. */
module PlaylistRenumber {
  import opened PlaylistTable

  /** The positions 1..n that are kept, in order. */
  function KeptPositions(n: nat, keep: int -> bool): seq<int> {
    if n == 0 then [] else KeptPositions(n - 1, keep) + if keep(n) then [n] else []
  }

  /** The tracks at the kept positions, in order. */
  function KeptTracks<T>(s: seq<T>, keep: int -> bool): seq<T> {
    if s == [] then []
    else KeptTracks(s[..|s| - 1], keep) + if keep(|s|) then [s[|s| - 1]] else []
  }

  function Filter<T>(s: seq<T>, p: T -> bool): seq<T> {
    if s == [] then []
    else Filter(s[..|s| - 1], p) + if p(s[|s| - 1]) then [s[|s| - 1]] else []
  }

  /** Keeping positions by what they hold is filtering. */
  lemma {:induction false} KeptTracksIsFilter<T>(s: seq<T>, keep: int -> bool, p: T -> bool)
    requires forall i :: 1 <= i <= |s| ==> keep(i) == p(s[i - 1])
    ensures KeptTracks(s, keep) == Filter(s, p)
  {
    if s != [] {
      KeptTracksIsFilter(s[..|s| - 1], keep, p);
    }
  }

  lemma {:induction false} KeepingAll<T>(s: seq<T>, keep: int -> bool)
    requires forall i :: 1 <= i <= |s| ==> keep(i)
    ensures KeptTracks(s, keep) == s
  {
    if s != [] {
      KeepingAll(s[..|s| - 1], keep);
      assert s == s[..|s| - 1] + [s[|s| - 1]];
    }
  }

  ghost predicate Listed(ps: seq<int>, p: int) {
    exists i :: 0 <= i < |ps| && ps[i] == p
  }

  lemma {:induction false} KeptPairs<T>(s: seq<T>, keep: int -> bool)
    ensures var ps, ks := KeptPositions(|s|, keep), KeptTracks(s, keep);
            && |ps| == |ks| && Increasing(ps)
            && forall i :: 0 <= i < |ps| ==> 1 <= ps[i] <= |s| && keep(ps[i]) && ks[i] == s[ps[i] - 1]
  {
    if s != [] {
      KeptPairs(s[..|s| - 1], keep);
    }
  }

  lemma {:induction false} KeptAreListed(n: nat, keep: int -> bool, p: int)
    requires 1 <= p <= n && keep(p)
    ensures Listed(KeptPositions(n, keep), p)
  {
    var ps := KeptPositions(n, keep);
    if p < n {
      var ps0 := KeptPositions(n - 1, keep);
      KeptAreListed(n - 1, keep, p);
      var i :| 0 <= i < |ps0| && ps0[i] == p;
      assert ps[i] == p;
    } else {
      assert ps[|ps| - 1] == p;
    }
  }

  /** DELETE FROM playlist_tracks WHERE playlist_id = pid AND not keep(id). */
  function Deleted(rows: Rows, pid: string, keep: int -> bool): Rows {
    map r | r in rows && (rows[r].playlist != pid || keep(rows[r].pos)) :: rows[r]
  }

  lemma DeletedIsSparse(rows: Rows, pid: string, s: seq<Media>, keep: int -> bool)
    requires Represents(rows, pid, s)
    ensures Sparse(Deleted(rows, pid, keep), pid, KeptPositions(|s|, keep), KeptTracks(s, keep))
  {
    var rows' := Deleted(rows, pid, keep);
    KeptPairs(s, keep);
    forall r | InPlaylist(rows', pid, r) ensures HoldsEntry(rows'[r], KeptPositions(|s|, keep), KeptTracks(s, keep)) {
      KeptEntry(rows, pid, s, keep, r);
    }
    forall p | p in KeptPositions(|s|, keep) ensures HasPos(rows', pid, p) {
      KeptPosition(rows, pid, s, keep, p);
    }
  }

  lemma KeptEntry(rows: Rows, pid: string, s: seq<Media>, keep: int -> bool, r: RowId)
    requires Represents(rows, pid, s) && InPlaylist(Deleted(rows, pid, keep), pid, r)
    ensures |KeptPositions(|s|, keep)| == |KeptTracks(s, keep)|
    ensures HoldsEntry(rows[r], KeptPositions(|s|, keep), KeptTracks(s, keep))
  {
    var ps, ks := KeptPositions(|s|, keep), KeptTracks(s, keep);
    KeptPairs(s, keep);
    assert InPlaylist(rows, pid, r);
    KeptAreListed(|s|, keep, rows[r].pos);
    var i :| 0 <= i < |ps| && ps[i] == rows[r].pos;
    assert ks[i] == rows[r].media;
  }

  lemma KeptPosition(rows: Rows, pid: string, s: seq<Media>, keep: int -> bool, p: int)
    requires Represents(rows, pid, s) && 1 <= p <= |s| && keep(p)
    ensures HasPos(Deleted(rows, pid, keep), pid, p)
  {
    assert HasPos(rows, pid, p);
    var r :| InPlaylist(rows, pid, r) && rows[r].pos == p;
    assert InPlaylist(Deleted(rows, pid, keep), pid, r);
  }

  // ----- Renumbering -----

  function Negate(p: int): int {
    if p > 0 then -p else p
  }

  /** No positive position is held together with its opposite. */
  ghost predicate NoOpposites(rows: Rows, pid: string) {
    forall a, b :: InPlaylist(rows, pid, a) && InPlaylist(rows, pid, b) && rows[a].pos > 0 ==> rows[b].pos != -rows[a].pos
  }

  /** The negating update goes through exactly when there are no opposites. */
  lemma NegateExact(rows: Rows, pid: string)
    requires Unique(rows)
    ensures CollisionFree(rows, pid, p => Negate(p)) <==> NoOpposites(rows, pid)
    ensures Unique(Moved(rows, pid, p => Negate(p))) <==> NoOpposites(rows, pid)
  {
    var t := Moved(rows, pid, p => Negate(p));
    if NoOpposites(rows, pid) {
      CollisionFreeUnique(rows, pid, p => Negate(p));
    } else {
      var a, b :| InPlaylist(rows, pid, a) && InPlaylist(rows, pid, b) && rows[a].pos > 0 && rows[b].pos == -rows[a].pos;
      assert t[a].pos == t[b].pos && t[a].playlist == t[b].playlist;
    }
  }

  lemma CollisionFreeUnique(rows: Rows, pid: string, f: int -> int)
    requires Unique(rows) && CollisionFree(rows, pid, f)
    ensures Unique(Moved(rows, pid, f))
  {
    forall a, b | a in rows && b in rows && a != b && rows[a].playlist == rows[b].playlist
      ensures Moved(rows, pid, f)[a].pos != Moved(rows, pid, f)[b].pos
    {
      assert rows[a].playlist == pid ==> InPlaylist(rows, pid, a) && InPlaylist(rows, pid, b);
    }
  }

  /** ROW_NUMBER() OVER (ORDER BY id DESC). */
  function RowNumber(ps: set<int>, p: int): nat {
    1 + |set q | q in ps && q > p|
  }

  lemma RowNumbersDescend(ps: set<int>, p: int, q: int)
    requires p in ps && q in ps && p > q
    ensures RowNumber(ps, p) < RowNumber(ps, q)
  {
    var above, more := set x | x in ps && x > p, set x | x in ps && x > q;
    assert above + {p} <= more;
    SubsetSize(above + {p}, more);
  }

  lemma SubsetSize(a: set<int>, b: set<int>)
    requires a <= b
    ensures |a| <= |b|
  {
    assert b == a + (b - a);
    assert |b| == |a| + |b - a|;
  }

  function Negated(rows: Rows, pid: string): Rows {
    Moved(rows, pid, p => Negate(p))
  }

  /** Both updates: the positions negated, then numbered from the largest down. */
  function Renumbered(rows: Rows, pid: string): Rows {
    var t := Negated(rows, pid);
    var ps := Positions(t, pid);
    Moved(t, pid, p => RowNumber(ps, p))
  }

  /** Numbering negated positions never meets a row still to be renumbered. */
  lemma AssignNeverCollides(rows: Rows, pid: string)
    requires Unique(rows) && NoOpposites(rows, pid)
    ensures var t := Negated(rows, pid);
            var ps := Positions(t, pid);
            Unique(t) && CollisionFree(t, pid, p => RowNumber(ps, p))
  {
    var t := Negated(rows, pid);
    var ps := Positions(t, pid);
    NegateExact(rows, pid);
    forall a, b | InPlaylist(t, pid, a) && InPlaylist(t, pid, b) && a != b
      ensures RowNumber(ps, t[a].pos) != t[b].pos && RowNumber(ps, t[a].pos) != RowNumber(ps, t[b].pos)
    {
      assert t[a].pos in ps && t[b].pos in ps && t[b].pos <= 0 && t[a].pos != t[b].pos;
      if t[a].pos > t[b].pos {
        RowNumbersDescend(ps, t[a].pos, t[b].pos);
      } else {
        RowNumbersDescend(ps, t[b].pos, t[a].pos);
      }
    }
  }

  // ----- What it makes of the list -----

  function Distance(p: int): nat {
    if p > 0 then p else -p
  }

  ghost predicate HasDistance(rows: Rows, pid: string, d: int) {
    exists r :: InPlaylist(rows, pid, r) && Distance(rows[r].pos) == d
  }

  ghost predicate HoldsRank(row: Row, ds: seq<int>, s: seq<Media>)
    requires |ds| == |s|
  {
    exists i :: 0 <= i < |ds| && Distance(row.pos) == ds[i] && row.media == s[i]
  }

  /** The playlist's rows sit at the distances `ds` from 0, in order, and hold the tracks of `s`. */
  ghost predicate Ranked(rows: Rows, pid: string, ds: seq<int>, s: seq<Media>) {
    && |ds| == |s| && Increasing(ds)
    && (forall r :: InPlaylist(rows, pid, r) ==> HoldsRank(rows[r], ds, s))
    && (forall i {:trigger HasDistance(rows, pid, ds[i])} :: 0 <= i < |ds| ==> HasDistance(rows, pid, ds[i]))
  }

  lemma SparseIsRanked(rows: Rows, pid: string, ps: seq<int>, s: seq<Media>)
    requires Sparse(rows, pid, ps, s) && forall i :: 0 <= i < |ps| ==> ps[i] > 0
    ensures Ranked(rows, pid, ps, s)
  {
    forall r | InPlaylist(rows, pid, r) ensures HoldsRank(rows[r], ps, s) {
      assert HoldsEntry(rows[r], ps, s);
    }
    forall i | 0 <= i < |ps| ensures HasDistance(rows, pid, ps[i]) {
      assert HasPos(rows, pid, ps[i]);
    }
  }

  lemma {:induction false} FirstDistances(ds: seq<int>, i: nat)
    requires Increasing(ds) && i <= |ds|
    ensures |set j | 0 <= j < i :: -ds[j]| == i
  {
    if i > 0 {
      FirstDistances(ds, i - 1);
      var before, now := set j | 0 <= j < i - 1 :: -ds[j], set j | 0 <= j < i :: -ds[j];
      assert now == before + {-ds[i - 1]} && -ds[i - 1] !in before;
    }
  }

  lemma NegatedPositions(rows: Rows, pid: string, ds: seq<int>, s: seq<Media>)
    requires Ranked(rows, pid, ds, s)
    ensures Positions(Negated(rows, pid), pid) == set i | 0 <= i < |ds| :: -ds[i]
  {
    var t := Negated(rows, pid);
    forall r | r in t && t[r].playlist == pid ensures t[r].pos in set i | 0 <= i < |ds| :: -ds[i] {
      assert InPlaylist(rows, pid, r);
      assert HoldsRank(rows[r], ds, s);
    }
    forall i | 0 <= i < |ds| ensures -ds[i] in Positions(t, pid) {
      assert HasDistance(rows, pid, ds[i]);
      var r :| InPlaylist(rows, pid, r) && Distance(rows[r].pos) == ds[i];
      assert InPlaylist(t, pid, r) && t[r].pos == -ds[i];
    }
  }

  lemma RankIsRowNumber(ds: seq<int>, ps: set<int>, i: nat)
    requires Increasing(ds) && ps == (set j | 0 <= j < |ds| :: -ds[j]) && i < |ds|
    ensures RowNumber(ps, -ds[i]) == i + 1
  {
    FirstDistances(ds, i);
    assert (set q | q in ps && q > -ds[i]) == set j | 0 <= j < i :: -ds[j];
  }

  /** Renumbering makes positions 1..n, in the order of the distances: for positive positions, in their order. */
  lemma RenumberedRepresents(rows: Rows, pid: string, ds: seq<int>, s: seq<Media>)
    requires Ranked(rows, pid, ds, s)
    ensures Represents(Renumbered(rows, pid), pid, s)
  {
    var t := Renumbered(rows, pid);
    NegatedPositions(rows, pid, ds, s);
    forall r | InPlaylist(t, pid, r) ensures 1 <= t[r].pos <= |s| && t[r].media == s[t[r].pos - 1] {
      assert InPlaylist(rows, pid, r) && HoldsRank(rows[r], ds, s);
      RankedRow(rows, pid, ds, s, r);
    }
    forall p | 1 <= p <= |s| ensures HasPos(t, pid, p) {
      RankIsHeld(rows, pid, ds, s, p - 1);
    }
  }

  lemma RankIsHeld(rows: Rows, pid: string, ds: seq<int>, s: seq<Media>, i: nat)
    requires Ranked(rows, pid, ds, s) && i < |ds|
    requires Positions(Negated(rows, pid), pid) == set j | 0 <= j < |ds| :: -ds[j]
    ensures HasPos(Renumbered(rows, pid), pid, i + 1)
  {
    var t := Renumbered(rows, pid);
    assert HasDistance(rows, pid, ds[i]);
    var r :| InPlaylist(rows, pid, r) && Distance(rows[r].pos) == ds[i];
    RankIsRowNumber(ds, Positions(Negated(rows, pid), pid), i);
    assert InPlaylist(t, pid, r) && t[r].pos == i + 1;
  }

  lemma RankedRow(rows: Rows, pid: string, ds: seq<int>, s: seq<Media>, r: RowId)
    requires Ranked(rows, pid, ds, s) && InPlaylist(rows, pid, r)
    requires Positions(Negated(rows, pid), pid) == set i | 0 <= i < |ds| :: -ds[i]
    ensures var row := Renumbered(rows, pid)[r]; 1 <= row.pos <= |s| && row.media == s[row.pos - 1]
  {
    assert HoldsRank(rows[r], ds, s);
    var i :| 0 <= i < |ds| && Distance(rows[r].pos) == ds[i] && rows[r].media == s[i];
    RankIsRowNumber(ds, Positions(Negated(rows, pid), pid), i);
  }

  lemma MovedOthersSame(rows: Rows, pid: string, f: int -> int)
    ensures OthersSame(rows, Moved(rows, pid, f), pid)
  {
  }

  lemma RenumberedOthersSame(rows: Rows, pid: string)
    ensures OthersSame(rows, Renumbered(rows, pid), pid)
  {
    var t := Negated(rows, pid);
    var ps := Positions(t, pid);
    MovedOthersSame(rows, pid, p => Negate(p));
    MovedOthersSame(t, pid, p => RowNumber(ps, p));
    forall q | q != pid ensures SamePlaylist(rows, Renumbered(rows, pid), q) {
      assert SamePlaylist(rows, t, q) && SamePlaylist(t, Renumbered(rows, pid), q);
    }
  }

  // ----- Tables with positions out of range -----

  /** Every table without opposites ranks some list. */
  lemma SomeListIsRanked(rows: Rows, pid: string) returns (ds: seq<int>, s: seq<Media>)
    requires Unique(rows) && NoOpposites(rows, pid)
    ensures Ranked(rows, pid, ds, s)
  {
    var all := set r | r in rows && rows[r].playlist == pid :: Distance(rows[r].pos) as int;
    ds := Ascending(all);
    forall i | 0 <= i < |ds| ensures HasDistance(rows, pid, ds[i]) {
      assert ds[i] in ds && ds[i] in all;
      var r :| r in rows && rows[r].playlist == pid && Distance(rows[r].pos) == ds[i];
      assert InPlaylist(rows, pid, r);
    }
    s := seq(|ds|, i requires 0 <= i < |ds| => MediaAt(rows, pid, ds[i]));
    forall r | InPlaylist(rows, pid, r) ensures HoldsRank(rows[r], ds, s) {
      assert r in rows && rows[r].playlist == pid;
      assert Distance(rows[r].pos) as int in all;
      var i :| 0 <= i < |ds| && ds[i] == Distance(rows[r].pos);
      OneAtDistance(rows, pid, r);
    }
  }

  /** So renumbering makes every such table dense, in the order of the distances. */
  lemma AnyTableRenumbers(rows: Rows, pid: string) returns (ds: seq<int>, s: seq<Media>)
    requires Unique(rows) && NoOpposites(rows, pid)
    ensures Ranked(rows, pid, ds, s) && Represents(Renumbered(rows, pid), pid, s)
  {
    ds, s := SomeListIsRanked(rows, pid);
    RenumberedRepresents(rows, pid, ds, s);
  }

  ghost function MediaAt(rows: Rows, pid: string, d: int): (m: Media)
    requires HasDistance(rows, pid, d)
    ensures exists r :: InPlaylist(rows, pid, r) && Distance(rows[r].pos) == d && rows[r].media == m
  {
    var r :| InPlaylist(rows, pid, r) && Distance(rows[r].pos) == d;
    rows[r].media
  }

  lemma OneAtDistance(rows: Rows, pid: string, r: RowId)
    requires Unique(rows) && NoOpposites(rows, pid) && InPlaylist(rows, pid, r)
    ensures HasDistance(rows, pid, Distance(rows[r].pos))
    ensures MediaAt(rows, pid, Distance(rows[r].pos)) == rows[r].media
  {
    var d := Distance(rows[r].pos);
    assert HasDistance(rows, pid, d);
    var o :| InPlaylist(rows, pid, o) && Distance(rows[o].pos) == d && rows[o].media == MediaAt(rows, pid, d);
  }

  lemma {:induction false} Ascending(all: set<int>) returns (ds: seq<int>)
    ensures Increasing(ds) && forall d :: d in ds <==> d in all
    decreases |all|
  {
    if all == {} {
      ds := [];
    } else {
      var top := Greatest(all);
      ds := Ascending(all - {top});
      forall i | 0 <= i < |ds| ensures ds[i] < top {
        assert ds[i] in ds;
      }
      ds := ds + [top];
    }
  }

  lemma {:induction false} Greatest(all: set<int>) returns (top: int)
    requires all != {}
    ensures top in all && forall d :: d in all ==> d <= top
    decreases |all|
  {
    SomeElement(all);
    var first :| first in all;
    var rest := all - {first};
    top := first;
    if rest != {} {
      var other := Greatest(rest);
      top := if other > first then other else first;
    }
    forall d | d in all ensures d <= top {
      if d != first {
        assert d in rest;
      }
    }
  }

  lemma SomeElement(s: set<int>)
    requires s != {}
    ensures exists x :: x in s
  {
    if forall x: int :: x !in s {
      NoElement(s);
    }
  }

  lemma NoElement(s: set<int>)
    requires forall x: int :: x !in s
    ensures s == {}
  {
    var none: set<int> := {};
    assert forall x :: x in s <==> x in none;
    assert s == none;
  }
}
