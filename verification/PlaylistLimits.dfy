/** What a move out of range leaves behind, and what it stops later. */
module PlaylistLimits {
  import opened PlaylistTable
  import opened PlaylistReorder
  import opened PlaylistRenumber

  /** The move puts a row at the opposite of a position that stays held. */
  predicate MovesToOpposite(n: int, pos: int, newPos: int) {
    1 <= pos <= n && -n <= newPos <= -2
  }

  lemma OneRowOpposite(pos: int, newPos: int, n: int, p: int, q: int)
    requires n < 999998 && 1 <= p <= n && 1 <= q <= n && pos != newPos
    requires AfterFour(pos, newPos, p) > 0 && AfterFour(pos, newPos, q) == -AfterFour(pos, newPos, p)
    ensures MovesToOpposite(n, pos, newPos) && AfterFour(pos, newPos, q) == newPos
  {
  }

  /** The row that is left at the opposite. */
  function HeldAtOpposite(pos: int, newPos: int): int {
    if -newPos <= pos then -newPos - 1 else -newPos
  }

  lemma BothAreHeld(n: int, pos: int, newPos: int)
    requires n < 999998 && MovesToOpposite(n, pos, newPos)
    ensures var q := HeldAtOpposite(pos, newPos);
            1 <= q <= n && AfterFour(pos, newPos, q) == -newPos && AfterFour(pos, newPos, pos) == newPos
  {
  }

  lemma OppositesAreLeft(rows: Rows, pid: string, s: seq<Media>, pos: int, newPos: int, keep: int -> bool)
    requires Represents(rows, pid, s) && |s| < 999998
    requires MovesToOpposite(|s|, pos, newPos) && keep(newPos) && keep(-newPos)
    ensures !NoOpposites(Deleted(ReorderTable(rows, pid, pos, newPos), pid, keep), pid)
  {
    var t := Deleted(ReorderTable(rows, pid, pos, newPos), pid, keep);
    var q := HeldAtOpposite(pos, newPos);
    StagesAreMoves(rows, pid, pos, newPos);
    BothAreHeld(|s|, pos, newPos);
    assert HasPos(rows, pid, pos) && HasPos(rows, pid, q);
    var a :| InPlaylist(rows, pid, a) && rows[a].pos == pos;
    var b :| InPlaylist(rows, pid, b) && rows[b].pos == q;
    assert InPlaylist(t, pid, a) && InPlaylist(t, pid, b) && t[b].pos == -newPos && t[a].pos == newPos;
  }

  lemma NoOtherOpposites(rows: Rows, pid: string, s: seq<Media>, pos: int, newPos: int, keep: int -> bool)
    requires Represents(rows, pid, s) && |s| < 999998 && pos != newPos
    requires !(MovesToOpposite(|s|, pos, newPos) && keep(newPos) && keep(-newPos))
    ensures NoOpposites(Deleted(ReorderTable(rows, pid, pos, newPos), pid, keep), pid)
  {
    var t := Deleted(ReorderTable(rows, pid, pos, newPos), pid, keep);
    StagesAreMoves(rows, pid, pos, newPos);
    forall a, b | InPlaylist(t, pid, a) && InPlaylist(t, pid, b) && t[a].pos > 0 ensures t[b].pos != -t[a].pos {
      assert InPlaylist(rows, pid, a) && InPlaylist(rows, pid, b);
      if t[b].pos == -t[a].pos {
        OneRowOpposite(pos, newPos, |s|, rows[a].pos, rows[b].pos);
      }
    }
  }

  /**
   After a move in a dense playlist, a deletion can be renumbered unless the move went to -2, ..., -n and neither
   that position nor its opposite is deleted.
   */
  lemma DeleteAfterMoveExact(rows: Rows, pid: string, s: seq<Media>, pos: int, newPos: int, keep: int -> bool)
    requires Represents(rows, pid, s) && |s| < 999998
    ensures NoOpposites(Deleted(ReorderTable(rows, pid, pos, newPos), pid, keep), pid)
            <==> !(MovesToOpposite(|s|, pos, newPos) && keep(newPos) && keep(-newPos))
  {
    if MovesToOpposite(|s|, pos, newPos) && keep(newPos) && keep(-newPos) {
      OppositesAreLeft(rows, pid, s, pos, newPos, keep);
    } else if pos != newPos {
      NoOtherOpposites(rows, pid, s, pos, newPos, keep);
    }
  }

  /** For one: moving the first of three tracks to -3 stops the deletion of the second. */
  lemma NegativeMoveStopsDelete(rows: Rows, pid: string)
    requires Represents(rows, pid, ["a", "b", "c"])
    ensures !NoOpposites(Deleted(ReorderTable(rows, pid, 1, -3), pid, p => p != 2), pid)
  {
    DeleteAfterMoveExact(rows, pid, ["a", "b", "c"], 1, -3, p => p != 2);
  }
}
