/** Reorder as four UPDATE statements, through negated positions and a sentinel. */
module PlaylistReorder {
  import opened PlaylistTable

  const SENTINEL := -999999

  // ----- What each statement does to one position -----

  function Park(pos: int, p: int): int {
    if p == pos then SENTINEL else p
  }

  function Shift(pos: int, newPos: int, p: int): int {
    if pos < newPos then
      if pos < p <= newPos then -(p - 1) else p
    else
      if newPos <= p < pos then -(p + 1) else p
  }

  function Flip(p: int): int {
    if p < 0 && p != SENTINEL then -p else p
  }

  function Unpark(newPos: int, p: int): int {
    if p == SENTINEL then newPos else p
  }

  function Parked(rows: Rows, pid: string, pos: int): Rows {
    Moved(rows, pid, p => Park(pos, p))
  }

  function Shifted(rows: Rows, pid: string, pos: int, newPos: int): Rows {
    Moved(Parked(rows, pid, pos), pid, p => Shift(pos, newPos, p))
  }

  function Flipped(rows: Rows, pid: string, pos: int, newPos: int): Rows {
    Moved(Shifted(rows, pid, pos, newPos), pid, p => Flip(p))
  }

  /** The table Reorder leaves behind. */
  function ReorderTable(rows: Rows, pid: string, pos: int, newPos: int): Rows {
    if pos == newPos then rows
    else Moved(Flipped(rows, pid, pos, newPos), pid, p => Unpark(newPos, p))
  }

  function AfterThree(pos: int, newPos: int, p: int): int {
    Flip(Shift(pos, newPos, Park(pos, p)))
  }

  function AfterFour(pos: int, newPos: int, p: int): int {
    Unpark(newPos, AfterThree(pos, newPos, p))
  }

  lemma StagesAreMoves(rows: Rows, pid: string, pos: int, newPos: int)
    ensures Shifted(rows, pid, pos, newPos) == Moved(rows, pid, p => Shift(pos, newPos, Park(pos, p)))
    ensures Flipped(rows, pid, pos, newPos) == Moved(rows, pid, p => AfterThree(pos, newPos, p))
    ensures pos != newPos ==> ReorderTable(rows, pid, pos, newPos) == Moved(rows, pid, p => AfterFour(pos, newPos, p))
  {
  }

  // ----- The list operation -----

  function Removed<T>(s: seq<T>, i: int): seq<T>
    requires 0 <= i < |s|
  {
    s[..i] + s[i + 1..]
  }

  function Inserted<T>(s: seq<T>, i: int, x: T): seq<T>
    requires 0 <= i <= |s|
  {
    s[..i] + [x] + s[i..]
  }

  predicate BothInRange(n: nat, pos: int, newPos: int) {
    1 <= pos <= n && 1 <= newPos <= n
  }

  /** The element at position pos (from 1) taken out and put back at newPos. */
  function MoveTrack<T>(s: seq<T>, pos: int, newPos: int): (t: seq<T>)
    requires BothInRange(|s|, pos, newPos)
    ensures |t| == |s|
  {
    Inserted(Removed(s, pos - 1), newPos - 1, s[pos - 1])
  }

  /** Where the row at position p belongs. */
  function Target(pos: int, newPos: int, p: int): int {
    if p == pos then newPos
    else if pos < p <= newPos then p - 1
    else if newPos <= p < pos then p + 1
    else p
  }

  lemma InRangeReachesTarget(n: nat, pos: int, newPos: int, p: int)
    requires n < 999999 && BothInRange(n, pos, newPos) && pos != newPos && 1 <= p <= n
    ensures AfterFour(pos, newPos, p) == Target(pos, newPos, p)
  {
  }

  lemma MoveTrackAtTarget<T>(s: seq<T>, pos: int, newPos: int, p: int)
    requires BothInRange(|s|, pos, newPos) && 1 <= p <= |s|
    ensures 1 <= Target(pos, newPos, p) <= |s|
    ensures MoveTrack(s, pos, newPos)[Target(pos, newPos, p) - 1] == s[p - 1]
    ensures Target(pos, newPos, Target(newPos, pos, p)) == p
  {
  }

  /** Reorder refines the list operation. */
  lemma ReorderMovesTrack(rows: Rows, pid: string, s: seq<Media>, pos: int, newPos: int)
    requires Represents(rows, pid, s) && |s| < 999999 && BothInRange(|s|, pos, newPos)
    ensures Represents(ReorderTable(rows, pid, pos, newPos), pid, MoveTrack(s, pos, newPos))
  {
    if pos == newPos {
      assert MoveTrack(s, pos, newPos) == s;
    } else {
      var t := MoveTrack(s, pos, newPos);
      var f, g := p => AfterFour(pos, newPos, p), p => Target(newPos, pos, p);
      forall p | 1 <= p <= |s|
        ensures 1 <= f(p) <= |s| && t[f(p) - 1] == s[p - 1] && 1 <= g(p) <= |s| && f(g(p)) == p
      {
        ReachesAndComesBack(s, pos, newPos, p);
      }
      Permuted(rows, pid, f, g, s, t);
      StagesAreMoves(rows, pid, pos, newPos);
    }
  }

  lemma ReachesAndComesBack(s: seq<Media>, pos: int, newPos: int, p: int)
    requires |s| < 999999 && BothInRange(|s|, pos, newPos) && pos != newPos && 1 <= p <= |s|
    ensures var q, back := AfterFour(pos, newPos, p), Target(newPos, pos, p);
            && 1 <= q <= |s| && MoveTrack(s, pos, newPos)[q - 1] == s[p - 1]
            && 1 <= back <= |s| && AfterFour(pos, newPos, back) == p
  {
    MoveTrackAtTarget(s, pos, newPos, p);
    MoveTrackAtTarget(s, newPos, pos, p);
    InRangeReachesTarget(|s|, pos, newPos, p);
    InRangeReachesTarget(|s|, pos, newPos, Target(newPos, pos, p));
  }

  // ----- The unique index at every row update -----

  ghost predicate PositionsWithin(rows: Rows, pid: string, n: nat) {
    forall r :: InPlaylist(rows, pid, r) ==> 1 <= rows[r].pos <= n
  }

  /** A statement f, on a table whose positions went from 1..n through h. */
  lemma StageIsSafe(rows: Rows, pid: string, n: nat, h: int -> int, f: int -> int)
    requires Unique(rows) && PositionsWithin(rows, pid, n)
    requires forall p, q :: 1 <= p <= n && 1 <= q <= n && p != q ==>
                              h(p) != h(q) && f(h(p)) != h(q) && f(h(p)) != f(h(q))
    ensures Unique(Moved(rows, pid, h)) && CollisionFree(Moved(rows, pid, h), pid, f)
  {
    var t := Moved(rows, pid, h);
    forall a, b | InPlaylist(t, pid, a) && InPlaylist(t, pid, b) && a != b
      ensures t[a].pos != t[b].pos && f(t[a].pos) != t[b].pos && f(t[a].pos) != f(t[b].pos)
    {
      assert InPlaylist(rows, pid, a) && InPlaylist(rows, pid, b);
      assert rows[a].pos != rows[b].pos;
    }
  }

  lemma StagesStayApart(n: nat, pos: int, newPos: int, p: int, q: int)
    requires pos != newPos && 1 <= p <= n && 1 <= q <= n && p != q
    requires n < 999998 || (n < 999999 && BothInRange(n, pos, newPos))
    ensures Park(pos, p) != q && Park(pos, p) != Park(pos, q)
    ensures Shift(pos, newPos, Park(pos, p)) != Park(pos, q)
    ensures Shift(pos, newPos, Park(pos, p)) != Shift(pos, newPos, Park(pos, q))
    ensures AfterThree(pos, newPos, p) != Shift(pos, newPos, Park(pos, q))
    ensures AfterThree(pos, newPos, p) != AfterThree(pos, newPos, q)
    ensures AfterFour(pos, newPos, p) != AfterThree(pos, newPos, q)
    ensures AfterFour(pos, newPos, p) != AfterFour(pos, newPos, q)
  {
  }

  /**
   None of the four statements ever breaks the unique index, at any row and in any visiting order: not by the
   shifted positions, and not by the sentinel. The positions asked for need not be in range.
   */
  lemma ReorderKeepsUnique(rows: Rows, pid: string, n: nat, pos: int, newPos: int)
    requires Unique(rows) && PositionsWithin(rows, pid, n) && pos != newPos
    requires n < 999998 || (n < 999999 && BothInRange(n, pos, newPos))
    ensures CollisionFree(rows, pid, p => Park(pos, p))
    ensures Unique(Parked(rows, pid, pos)) && CollisionFree(Parked(rows, pid, pos), pid, p => Shift(pos, newPos, p))
    ensures Unique(Shifted(rows, pid, pos, newPos)) && CollisionFree(Shifted(rows, pid, pos, newPos), pid, p => Flip(p))
    ensures Unique(Flipped(rows, pid, pos, newPos))
            && CollisionFree(Flipped(rows, pid, pos, newPos), pid, p => Unpark(newPos, p))
    ensures Unique(ReorderTable(rows, pid, pos, newPos))
  {
    FirstHalfKeepsUnique(rows, pid, n, pos, newPos);
    SecondHalfKeepsUnique(rows, pid, n, pos, newPos);
  }

  lemma FirstHalfKeepsUnique(rows: Rows, pid: string, n: nat, pos: int, newPos: int)
    requires Unique(rows) && PositionsWithin(rows, pid, n) && pos != newPos
    requires n < 999998 || (n < 999999 && BothInRange(n, pos, newPos))
    ensures CollisionFree(rows, pid, p => Park(pos, p))
    ensures Unique(Parked(rows, pid, pos)) && CollisionFree(Parked(rows, pid, pos), pid, p => Shift(pos, newPos, p))
  {
    forall p, q | 1 <= p <= n && 1 <= q <= n && p != q
      ensures Park(pos, p) != q && Park(pos, p) != Park(pos, q)
      ensures Shift(pos, newPos, Park(pos, p)) != Park(pos, q)
      ensures Shift(pos, newPos, Park(pos, p)) != Shift(pos, newPos, Park(pos, q))
    {
      StagesStayApart(n, pos, newPos, p, q);
    }
    StageIsSafe(rows, pid, n, p => p, p => Park(pos, p));
    assert Moved(rows, pid, p => p) == rows;
    StageIsSafe(rows, pid, n, p => Park(pos, p), p => Shift(pos, newPos, p));
  }

  lemma SecondHalfKeepsUnique(rows: Rows, pid: string, n: nat, pos: int, newPos: int)
    requires Unique(rows) && PositionsWithin(rows, pid, n) && pos != newPos
    requires n < 999998 || (n < 999999 && BothInRange(n, pos, newPos))
    ensures Unique(Shifted(rows, pid, pos, newPos)) && CollisionFree(Shifted(rows, pid, pos, newPos), pid, p => Flip(p))
    ensures Unique(Flipped(rows, pid, pos, newPos))
            && CollisionFree(Flipped(rows, pid, pos, newPos), pid, p => Unpark(newPos, p))
    ensures Unique(ReorderTable(rows, pid, pos, newPos))
  {
    forall p, q | 1 <= p <= n && 1 <= q <= n && p != q
      ensures Shift(pos, newPos, Park(pos, p)) != Shift(pos, newPos, Park(pos, q))
      ensures AfterThree(pos, newPos, p) != Shift(pos, newPos, Park(pos, q))
      ensures AfterThree(pos, newPos, p) != AfterThree(pos, newPos, q)
      ensures AfterFour(pos, newPos, p) != AfterThree(pos, newPos, q)
      ensures AfterFour(pos, newPos, p) != AfterFour(pos, newPos, q)
    {
      StagesStayApart(n, pos, newPos, p, q);
    }
    StagesAreMoves(rows, pid, pos, newPos);
    StageIsSafe(rows, pid, n, p => Shift(pos, newPos, Park(pos, p)), p => Flip(p));
    StageIsSafe(rows, pid, n, p => AfterThree(pos, newPos, p), p => Unpark(newPos, p));
    StageIsSafe(rows, pid, n, p => AfterFour(pos, newPos, p), p => p);
  }

  // ----- Out of range: exactly when the positions stay dense -----

  ghost predicate Dense(rows: Rows, pid: string) {
    exists s :: Represents(rows, pid, s)
  }

  /** Reorder does not check its arguments: it keeps the positions dense in exactly these cases. */
  predicate KeepsDense(n: nat, pos: int, newPos: int) {
    pos == newPos || BothInRange(n, pos, newPos) || (pos < 1 && newPos < 1) || (pos > n && newPos > n) || n == 0
  }

  lemma ReorderDenseExact(rows: Rows, pid: string, s: seq<Media>, pos: int, newPos: int)
    requires Unique(rows) && Represents(rows, pid, s) && |s| < 999998
    ensures Dense(ReorderTable(rows, pid, pos, newPos), pid) <==> KeepsDense(|s|, pos, newPos)
  {
    var n, rows' := |s|, ReorderTable(rows, pid, pos, newPos);
    StagesAreMoves(rows, pid, pos, newPos);
    if BothInRange(n, pos, newPos) {
      ReorderMovesTrack(rows, pid, s, pos, newPos);
    } else if KeepsDense(n, pos, newPos) {
      assert forall r :: InPlaylist(rows, pid, r) ==> rows'[r] == rows[r];
      OtherRowsSame(rows, rows', pid, s);
    } else {
      LeavesGap(rows, pid, s, pos, newPos);
    }
  }

  /** A position nobody holds after an out-of-range move. */
  function Vacated(n: nat, pos: int, newPos: int): int {
    if 1 <= pos <= n then (if newPos > n then n else 1)
    else if pos > n then (if newPos < 1 then 1 else newPos)
    else (if newPos > n then n else newPos)
  }

  /** A position somebody held before, and left for one that is beyond the vacated one, or below 1. */
  function Strayed(n: nat, pos: int, newPos: int): int {
    if 1 <= pos <= n then pos else if pos > n then n else 1
  }

  lemma StraysPastGap(n: nat, pos: int, newPos: int, p: int)
    requires n < 999998 && !KeepsDense(n, pos, newPos) && 1 <= p <= n
    ensures 1 <= Strayed(n, pos, newPos) <= n && 1 <= Vacated(n, pos, newPos) <= n
    ensures AfterFour(pos, newPos, p) != Vacated(n, pos, newPos)
    ensures var there := AfterFour(pos, newPos, Strayed(n, pos, newPos)); there < 1 || there > Vacated(n, pos, newPos)
  {
  }

  lemma LeavesGap(rows: Rows, pid: string, s: seq<Media>, pos: int, newPos: int)
    requires Represents(rows, pid, s) && |s| < 999998 && !KeepsDense(|s|, pos, newPos)
    ensures !Dense(ReorderTable(rows, pid, pos, newPos), pid)
  {
    var n, rows' := |s|, ReorderTable(rows, pid, pos, newPos);
    var from, gap := Strayed(n, pos, newPos), Vacated(n, pos, newPos);
    StagesAreMoves(rows, pid, pos, newPos);
    StraysPastGap(n, pos, newPos, 1);
    assert HasPos(rows, pid, from);
    var stray :| InPlaylist(rows, pid, stray) && rows[stray].pos == from;
    if Dense(rows', pid) {
      var t :| Represents(rows', pid, t);
      assert InPlaylist(rows', pid, stray) && rows'[stray].pos == AfterFour(pos, newPos, from);
      assert HasPos(rows', pid, gap);
      var r :| InPlaylist(rows', pid, r) && rows'[r].pos == gap;
      assert InPlaylist(rows, pid, r);
      StraysPastGap(n, pos, newPos, rows[r].pos);
      assert false;
    }
  }
}
