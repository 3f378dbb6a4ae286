/** The repository methods over the table, each proved to be its operation on the table, dense or not. */
module PlaylistTracks {
  import opened PlaylistTable
  import opened PlaylistReorder
  import opened PlaylistRenumber

  const CHUNK_SIZE := 200

  // ----- The tables the operations leave -----

  /** INSERT of tracks at consecutive positions, under new rowids. */
  function Appended(rows: Rows, nextRow: RowId, pid: string, start: int, ids: seq<Media>): Rows
    decreases |ids|
  {
    if ids == [] then rows else Appended(rows[nextRow := Row(pid, ids[0], start)], nextRow + 1, pid, start + 1, ids[1..])
  }

  /** m is coalesce(max(id), 0) over the playlist. */
  ghost predicate IsMaxPosition(rows: Rows, pid: string, m: int) {
    if Positions(rows, pid) == {} then m == 0
    else m in Positions(rows, pid) && forall p :: p in Positions(rows, pid) ==> p <= m
  }

  /** None of the four statements of Reorder can meet the unique index. */
  ghost predicate StagesSafe(rows: Rows, pid: string, pos: int, newPos: int) {
    pos != newPos ==>
      && CollisionFree(rows, pid, p => Park(pos, p))
      && CollisionFree(Parked(rows, pid, pos), pid, p => Shift(pos, newPos, p))
      && CollisionFree(Shifted(rows, pid, pos, newPos), pid, p => Flip(p))
      && CollisionFree(Flipped(rows, pid, pos, newPos), pid, p => Unpark(newPos, p))
  }

  /** DELETE of the playlist's rows whose media file is gone. */
  function WithoutOrphanRows(rows: Rows, pid: string, files: set<Media>): Rows {
    map r | r in rows && (rows[r].playlist != pid || rows[r].media in files) :: rows[r]
  }

  /** The playlists that hold a track whose media file is gone. */
  function Affected(rows: Rows, files: set<Media>): set<string> {
    set r | r in rows && rows[r].media !in files :: rows[r].playlist
  }

  /** The playlist is as removing orphans makes it. */
  ghost predicate OrphansDropped(rows: Rows, rows': Rows, pid: string, files: set<Media>) {
    SamePlaylist(if pid in Affected(rows, files) then Renumbered(WithoutOrphanRows(rows, pid, files), pid) else rows, rows', pid)
  }

  /** Whatever another playlist was like, it still is. */
  ghost predicate LeavesOthers(before: Rows, after: Rows, pid: string) {
    forall s: Rows, q: string :: q != pid && SamePlaylist(s, before, q) ==> SamePlaylist(s, after, q)
  }

  /** The playlists in `left` are as they were; the other affected ones are done. */
  ghost predicate OrphanProgress(first: Rows, rows: Rows, files: set<Media>, left: set<string>) {
    && left <= Affected(first, files)
    && (forall pid :: pid in left ==> SamePlaylist(first, rows, pid))
    && (forall pid :: pid !in left ==> OrphansDropped(first, rows, pid, files))
    && (forall pid :: pid in Affected(first, files) && pid !in left ==> NoOpposites(WithoutOrphanRows(first, pid, files), pid))
  }

  class Repository {
    var rows: Rows
    var nextRow: RowId

    /** The unique index holds, and new rowids are unused; positions may be any numbers. */
    ghost predicate Sound()
      reads this
    {
      Unique(rows) && forall r :: r in rows ==> r < nextRow
    }

    constructor ()
      ensures Sound() && rows == map[]
    {
      rows, nextRow := map[], 0;
    }

    // ----- Statements -----

    /** One row of an UPDATE, or a violation of the unique index. */
    method UpdateRow(r: RowId, p: int) returns (ok: bool)
      requires Unique(rows) && r in rows
      modifies this`rows
      ensures ok <==> forall o :: o in old(rows) && o != r && old(rows)[o].playlist == old(rows)[r].playlist ==> old(rows)[o].pos != p
      ensures rows == (if ok then old(rows)[r := old(rows)[r].(pos := p)] else old(rows)) && Unique(rows)
    {
      if exists o :: o in rows && o != r && rows[o].playlist == rows[r].playlist && rows[o].pos == p {
        return false;
      }
      rows := rows[r := rows[r].(pos := p)];
      return true;
    }

    /**
     UPDATE ... SET id = f(id) WHERE playlist_id = pid, row by row in any order. It fails without effect when a row
     meets the unique index, which never happens to a collision-free update.
     */
    method ExecUpdate(pid: string, f: int -> int) returns (ok: bool)
      requires Unique(rows)
      modifies this`rows
      ensures rows == (if ok then Moved(old(rows), pid, f) else old(rows)) && Unique(rows)
      ensures CollisionFree(old(rows), pid, f) ==> ok
    {
      var before := rows;
      var left := set r | r in rows && rows[r].playlist == pid;
      ghost var done: set<RowId> := {};
      while left != {}
        invariant before == old(rows) && left !! done
        invariant forall r :: InPlaylist(before, pid, r) <==> r in left || r in done
        invariant rows == PartlyMoved(before, pid, f, done) && Unique(rows)
        decreases left
      {
        var r :| r in left;
        NextRow(before, pid, f, done, r);
        ok := UpdateRow(r, f(rows[r].pos));
        if !ok {
          rows := before;
          return;
        }
        left, done := left - {r}, done + {r};
      }
      ok := true;
      AllMoved(before, pid, f, done);
    }

    /** DELETE ... WHERE playlist_id = pid AND not keep(id). */
    method ExecDelete(pid: string, keep: int -> bool)
      requires Sound()
      modifies this`rows
      ensures rows == Deleted(old(rows), pid, keep) && Sound()
    {
      rows := Deleted(rows, pid, keep);
    }

    /** INSERT of one row, under a new rowid. */
    method InsertRow(pid: string, media: Media, p: int)
      requires Sound() && forall r :: InPlaylist(rows, pid, r) ==> rows[r].pos < p
      modifies this
      ensures Sound() && rows == old(rows)[old(nextRow) := Row(pid, media, p)] && nextRow == old(nextRow) + 1
      ensures forall r :: InPlaylist(rows, pid, r) ==> rows[r].pos <= p
    {
      rows := rows[nextRow := Row(pid, media, p)];
      nextRow := nextRow + 1;
    }

    // ----- Reorder -----

    /**
     Moves the track at position pos to newPos, in four statements. Positions out of range are not rejected; the
     statements can only fail where the unique index can be met.
     */
    method Reorder(pid: string, pos: int, newPos: int) returns (ok: bool)
      requires Sound()
      modifies this`rows
      ensures Sound() && OthersSame(old(rows), rows, pid)
      ensures ok ==> rows == ReorderTable(old(rows), pid, pos, newPos)
      ensures StagesSafe(old(rows), pid, pos, newPos) ==> ok
    {
      if pos == newPos {
        return true;
      }
      ok := UpdateOne(pid, p => Park(pos, p));
      if ok {
        OthersSameTwice(old(rows), rows, Moved(rows, pid, p => Shift(pos, newPos, p)), pid, p => Shift(pos, newPos, p));
        ok := ExecUpdate(pid, p => Shift(pos, newPos, p));
        if ok {
          ghost var before := rows;
          ok := FinishReorder(pid, newPos);
          OthersSameAfter(old(rows), before, rows, pid);
        }
      }
    }

    method FinishReorder(pid: string, newPos: int) returns (ok: bool)
      requires Sound()
      modifies this`rows
      ensures Sound() && OthersSame(old(rows), rows, pid)
      ensures ok ==> rows == Moved(Moved(old(rows), pid, p => Flip(p)), pid, p => Unpark(newPos, p))
      ensures (CollisionFree(old(rows), pid, p => Flip(p))
               && CollisionFree(Moved(old(rows), pid, p => Flip(p)), pid, p => Unpark(newPos, p))) ==> ok
    {
      ok := UpdateOne(pid, p => Flip(p));
      if ok {
        OthersSameTwice(old(rows), rows, Moved(rows, pid, p => Unpark(newPos, p)), pid, p => Unpark(newPos, p));
        ok := ExecUpdate(pid, p => Unpark(newPos, p));
      }
    }

    /** An UPDATE changes its playlist only. */
    method UpdateOne(pid: string, f: int -> int) returns (ok: bool)
      requires Sound()
      modifies this`rows
      ensures Sound() && OthersSame(old(rows), rows, pid)
      ensures ok ==> rows == Moved(old(rows), pid, f)
      ensures CollisionFree(old(rows), pid, f) ==> ok
    {
      MovedOthersSame(rows, pid, f);
      ok := ExecUpdate(pid, f);
    }

    // ----- Renumber -----

    /** ROW_NUMBER() OVER (ORDER BY id DESC): numbers the largest remaining position next. */
    method RowNumbers(pid: string) returns (newIds: map<int, int>)
      ensures newIds.Keys == Positions(rows, pid)
      ensures forall p :: p in newIds ==> newIds[p] == RowNumber(Positions(rows, pid), p)
    {
      newIds := map[];
      var all := Positions(rows, pid);
      var left, k := all, 0;
      while left != {}
        invariant Topmost(all, left, k) && Numbered(newIds, all, left)
        decreases left
      {
        var top := Largest(left);
        TopIsNext(all, left, top, k);
        NumberedNext(newIds, all, left, top, k + 1);
        newIds := newIds[top := k + 1];
        left, k := left - {top}, k + 1;
      }
      assert all - left == all;
    }

    /** Negates the positions and numbers them anew; a position held together with its opposite stops it. */
    method Renumber(pid: string) returns (ok: bool)
      requires Sound()
      modifies this`rows
      ensures Sound() && (ok <==> NoOpposites(old(rows), pid))
      ensures rows == if ok then Renumbered(old(rows), pid) else old(rows)
    {
      NegateExact(rows, pid);
      ok := ExecUpdate(pid, p => Negate(p));
      if ok {
        AssignNeverCollides(old(rows), pid);
        ghost var ps := Positions(rows, pid);
        ghost var t := rows;
        var newIds := RowNumbers(pid);
        var assign := p => if p in newIds then newIds[p] else p;
        SameUpdate(t, pid, assign, p => RowNumber(ps, p));
        ok := ExecUpdate(pid, assign);
      }
    }

    /** Deletes the rows at the positions not kept, and renumbers; without a transaction the deletion stays. */
    method DeleteAndRenumber(pid: string, keep: int -> bool) returns (ok: bool)
      requires Sound()
      modifies this`rows
      ensures Sound() && (ok <==> NoOpposites(Deleted(old(rows), pid, keep), pid))
      ensures rows == if ok then Renumbered(Deleted(old(rows), pid, keep), pid) else Deleted(old(rows), pid, keep)
    {
      ExecDelete(pid, keep);
      ok := Renumber(pid);
    }

    method Delete(pid: string, ids: set<int>) returns (ok: bool)
      requires Sound()
      modifies this`rows
      ensures Sound() && (ok <==> NoOpposites(Deleted(old(rows), pid, p => p !in ids), pid))
      ensures ok ==> rows == Renumbered(Deleted(old(rows), pid, p => p !in ids), pid)
    {
      ok := DeleteAndRenumber(pid, p => p !in ids);
    }

    method DeleteAll(pid: string) returns (ok: bool)
      requires Sound()
      modifies this`rows
      ensures Sound() && ok && Represents(rows, pid, []) && OthersSame(old(rows), rows, pid)
    {
      ok := DeleteAndRenumber(pid, p => false);
      NothingLeft(old(rows), pid);
    }

    // ----- Appending -----

    /** coalesce(max(id), 0) over the playlist. */
    method MaxPosition(pid: string) returns (m: int)
      ensures IsMaxPosition(rows, pid, m)
    {
      var ps := Positions(rows, pid);
      if ps == {} {
        return 0;
      }
      m := Largest(ps);
    }

    /** Inserts the tracks in chunks, with a running position. */
    method AddTracks(pid: string, startingPos: int, ids: seq<Media>)
      requires Sound() && forall r :: InPlaylist(rows, pid, r) ==> rows[r].pos < startingPos
      modifies this
      ensures Sound() && rows == Appended(old(rows), old(nextRow), pid, startingPos, ids) && nextRow == old(nextRow) + |ids|
    {
      var pos, i := startingPos, 0;
      while i < |ids|
        invariant 0 <= i <= |ids| && pos == startingPos + i && nextRow == old(nextRow) + i
        invariant Sound() && rows == Appended(old(rows), old(nextRow), pid, startingPos, ids[..i])
        invariant forall r :: InPlaylist(rows, pid, r) ==> rows[r].pos < pos
      {
        var end := if i + CHUNK_SIZE < |ids| then i + CHUNK_SIZE else |ids|;
        AppendedInParts(old(rows), old(nextRow), pid, startingPos, ids[..i], ids[i..end]);
        assert ids[..i] + ids[i..end] == ids[..end];
        InsertChunk(pid, pos, ids[i..end]);
        pos, i := pos + (end - i), end;
      }
      assert ids[..i] == ids;
    }

    /** One INSERT with many VALUES. */
    method InsertChunk(pid: string, startingPos: int, chunk: seq<Media>)
      requires Sound() && forall r :: InPlaylist(rows, pid, r) ==> rows[r].pos < startingPos
      modifies this
      ensures Sound() && rows == Appended(old(rows), old(nextRow), pid, startingPos, chunk) && nextRow == old(nextRow) + |chunk|
      ensures forall r :: InPlaylist(rows, pid, r) ==> rows[r].pos < startingPos + |chunk|
    {
      for k := 0 to |chunk|
        invariant Sound() && nextRow == old(nextRow) + k
        invariant rows == Appended(old(rows), old(nextRow), pid, startingPos, chunk[..k])
        invariant forall r :: InPlaylist(rows, pid, r) ==> rows[r].pos < startingPos + k
      {
        AppendedInParts(old(rows), old(nextRow), pid, startingPos, chunk[..k], [chunk[k]]);
        assert chunk[..k] + [chunk[k]] == chunk[..k + 1];
        InsertRow(pid, chunk[k], startingPos + k);
      }
      assert chunk[..|chunk|] == chunk;
    }

    method Add(pid: string, ids: seq<Media>) returns (count: nat)
      requires Sound()
      modifies this
      ensures Sound() && count == |ids|
      ensures exists m :: IsMaxPosition(old(rows), pid, m) && rows == Appended(old(rows), old(nextRow), pid, m + 1, ids)
    {
      var m := MaxPosition(pid);
      if |ids| == 0 {
        return 0;
      }
      forall r | InPlaylist(rows, pid, r) ensures rows[r].pos < m + 1 {
        assert rows[r].pos in Positions(rows, pid);
      }
      AddTracks(pid, m + 1, ids);
      return |ids|;
    }

    /** Replaces the contents of a playlist, whatever it was. */
    method UpdatePlaylist(pid: string, ids: seq<Media>)
      requires Sound()
      modifies this
      ensures Sound() && rows == Appended(Deleted(old(rows), pid, p => false), old(nextRow), pid, 1, ids)
    {
      ExecDelete(pid, p => false);
      AddTracks(pid, 1, ids);
    }

    // ----- Orphans -----

    /** Removes the tracks whose media file is gone, playlist by playlist, up to the first that cannot be renumbered. */
    method RemoveOrphans(files: set<Media>) returns (ok: bool)
      requires Sound()
      modifies this`rows
      ensures Sound()
      ensures ok <==> forall pid :: pid in Affected(old(rows), files) ==> NoOpposites(WithoutOrphanRows(old(rows), pid, files), pid)
      ensures ok ==> forall pid :: OrphansDropped(old(rows), rows, pid, files)
    {
      ghost var first := rows;
      var left := Affected(rows, files);
      while left != {}
        invariant Sound() && OrphanProgress(first, rows, files, left)
        decreases left
      {
        var pid :| pid in left;
        ghost var before := rows;
        SameWithoutOrphans(first, rows, pid, files);
        ok := RemoveOrphansFrom(pid, files);
        if !ok {
          return;
        }
        OrphanStep(first, before, rows, files, left, pid);
        left := left - {pid};
      }
      ok := true;
    }

    /** DELETE ... WHERE media_file_id NOT IN (SELECT id FROM media_file), then renumber. */
    method RemoveOrphansFrom(pid: string, files: set<Media>) returns (ok: bool)
      requires Sound()
      modifies this`rows
      ensures Sound() && (ok <==> NoOpposites(WithoutOrphanRows(old(rows), pid, files), pid))
      ensures ok ==> rows == Renumbered(WithoutOrphanRows(old(rows), pid, files), pid)
    {
      var gone := set r | r in rows && rows[r].playlist == pid && rows[r].media !in files :: rows[r].pos;
      OrphanPositions(rows, pid, files, gone);
      ok := DeleteAndRenumber(pid, p => p !in gone);
    }
  }

  // ----- Supporting facts -----

  method Largest(s: set<int>) returns (m: int)
    requires s != {}
    ensures m in s && forall x :: x in s ==> x <= m
  {
    SomeElement(s);
    m :| m in s;
    var left := s - {m};
    while left != {}
      invariant left <= s && m in s
      invariant forall x :: x in s && x !in left ==> x <= m
      decreases left
    {
      SomeElement(left);
      var x :| x in left;
      left := left - {x};
      if x > m {
        m := x;
      }
    }
  }

  /** The next row still has its old position, and moves as it should; if nothing collides, its new key is free. */
  lemma NextRow(rows: Rows, pid: string, f: int -> int, done: set<RowId>, r: RowId)
    requires Unique(rows) && InPlaylist(rows, pid, r) && r !in done
    ensures var t := PartlyMoved(rows, pid, f, done); var p := f(rows[r].pos);
            && t[r] == rows[r]
            && PartlyMoved(rows, pid, f, done + {r}) == t[r := t[r].(pos := p)]
            && (CollisionFree(rows, pid, f) ==>
                  forall o :: o in t && o != r && t[o].playlist == t[r].playlist ==> t[o].pos != p)
  {
    var t := PartlyMoved(rows, pid, f, done);
    forall o | CollisionFree(rows, pid, f) && o in t && o != r && t[o].playlist == t[r].playlist
      ensures t[o].pos != f(rows[r].pos)
    {
      assert InPlaylist(rows, pid, o);
    }
  }

  /** The k elements not in `left` are above all others. */
  ghost predicate Topmost(all: set<int>, left: set<int>, k: nat) {
    left <= all && |all - left| == k && forall p, q :: p in left && q in all - left ==> p < q
  }

  ghost predicate Numbered(newIds: map<int, int>, all: set<int>, left: set<int>) {
    newIds.Keys == all - left && forall p :: p in newIds ==> newIds[p] == RowNumber(all, p)
  }

  lemma NumberedNext(newIds: map<int, int>, all: set<int>, left: set<int>, top: int, k: nat)
    requires Numbered(newIds, all, left) && top in left && left <= all && k == RowNumber(all, top)
    ensures Numbered(newIds[top := k], all, left - {top})
  {
    assert all - (left - {top}) == (all - left) + {top};
  }

  lemma TopIsNext(all: set<int>, left: set<int>, top: int, k: nat)
    requires Topmost(all, left, k) && top in left && forall p :: p in left ==> p <= top
    ensures RowNumber(all, top) == k + 1 && Topmost(all, left - {top}, k + 1)
    ensures all - (left - {top}) == (all - left) + {top}
  {
    assert (set q | q in all && q > top) == all - left;
    assert all - (left - {top}) == (all - left) + {top};
  }

  lemma OthersSameAfter(rows: Rows, rows': Rows, rows'': Rows, pid: string)
    requires OthersSame(rows, rows', pid) && OthersSame(rows', rows'', pid)
    ensures OthersSame(rows, rows'', pid)
  {
    forall q | q != pid ensures SamePlaylist(rows, rows'', q) {
      assert SamePlaylist(rows, rows', q) && SamePlaylist(rows', rows'', q);
    }
  }

  lemma OthersSameTwice(rows: Rows, rows': Rows, rows'': Rows, pid: string, f: int -> int)
    requires OthersSame(rows, rows', pid) && rows'' == Moved(rows', pid, f)
    ensures OthersSame(rows, rows'', pid)
  {
    MovedOthersSame(rows', pid, f);
    OthersSameAfter(rows, rows', rows'', pid);
  }

  lemma AllMoved(rows: Rows, pid: string, f: int -> int, done: set<RowId>)
    requires forall r :: InPlaylist(rows, pid, r) ==> r in done
    ensures PartlyMoved(rows, pid, f, done) == Moved(rows, pid, f)
  {
    forall r | r in rows && rows[r].playlist == pid ensures r in done {
      assert InPlaylist(rows, pid, r);
    }
  }

  /** An update is what it does to the positions that there are. */
  lemma SameUpdate(rows: Rows, pid: string, f: int -> int, g: int -> int)
    requires forall p :: p in Positions(rows, pid) ==> f(p) == g(p)
    ensures Moved(rows, pid, f) == Moved(rows, pid, g)
    ensures CollisionFree(rows, pid, f) <==> CollisionFree(rows, pid, g)
  {
    forall r | InPlaylist(rows, pid, r) ensures f(rows[r].pos) == g(rows[r].pos) {
      assert rows[r].pos in Positions(rows, pid);
    }
    assert forall r :: r in rows && rows[r].playlist == pid ==> InPlaylist(rows, pid, r);
  }

  lemma NothingLeft(rows: Rows, pid: string)
    ensures var t := Deleted(rows, pid, p => false);
            && NoOpposites(t, pid) && Represents(Renumbered(t, pid), pid, []) && OthersSame(rows, Renumbered(t, pid), pid)
  {
    var t := Deleted(rows, pid, p => false);
    RenumberedOthersSame(t, pid);
    forall q | q != pid ensures SamePlaylist(rows, Renumbered(t, pid), q) {
      assert SamePlaylist(t, Renumbered(t, pid), q);
    }
    assert forall r :: !InPlaylist(Renumbered(t, pid), pid, r);
  }

  lemma {:induction false} AppendedInParts(rows: Rows, nextRow: RowId, pid: string, start: int, xs: seq<Media>, ys: seq<Media>)
    ensures Appended(rows, nextRow, pid, start, xs + ys)
            == Appended(Appended(rows, nextRow, pid, start, xs), nextRow + |xs|, pid, start + |xs|, ys)
    decreases |xs|
  {
    if xs == [] {
      assert xs + ys == ys;
    } else {
      assert (xs + ys)[1..] == xs[1..] + ys;
      AppendedInParts(rows[nextRow := Row(pid, xs[0], start)], nextRow + 1, pid, start + 1, xs[1..], ys);
    }
  }

  /** In a playlist, positions tell rows apart, so deleting the orphans' positions deletes the orphans. */
  lemma OrphanPositions(rows: Rows, pid: string, files: set<Media>, gone: set<int>)
    requires Unique(rows)
    requires gone == set r | r in rows && rows[r].playlist == pid && rows[r].media !in files :: rows[r].pos
    ensures Deleted(rows, pid, p => p !in gone) == WithoutOrphanRows(rows, pid, files)
  {
    forall r | r in rows && rows[r].playlist == pid ensures rows[r].pos in gone <==> rows[r].media !in files {
      if rows[r].pos in gone {
        var o :| o in rows && rows[o].playlist == pid && rows[o].media !in files && rows[o].pos == rows[r].pos;
      }
    }
  }

  lemma SameWithoutOrphans(rows: Rows, rows': Rows, pid: string, files: set<Media>)
    requires SamePlaylist(rows, rows', pid)
    ensures var t, t' := WithoutOrphanRows(rows, pid, files), WithoutOrphanRows(rows', pid, files);
            && SamePlaylist(t, t', pid) && (NoOpposites(t, pid) <==> NoOpposites(t', pid))
            && SamePlaylist(Renumbered(t, pid), Renumbered(t', pid), pid)
  {
    var t, t' := WithoutOrphanRows(rows, pid, files), WithoutOrphanRows(rows', pid, files);
    assert forall r :: InPlaylist(t, pid, r) <==> InPlaylist(rows, pid, r) && rows[r].media in files;
    assert forall r :: InPlaylist(t', pid, r) <==> InPlaylist(rows', pid, r) && rows'[r].media in files;
    RenumberedSame(t, t', pid);
  }

  /** Renumbering a playlist depends on its rows only. */
  lemma RenumberedSame(rows: Rows, rows': Rows, pid: string)
    requires SamePlaylist(rows, rows', pid)
    ensures SamePlaylist(Renumbered(rows, pid), Renumbered(rows', pid), pid)
  {
    var t, t' := Negated(rows, pid), Negated(rows', pid);
    forall p ensures p in Positions(t, pid) <==> p in Positions(t', pid) {
      if p in Positions(t, pid) {
        var r :| r in t && t[r].playlist == pid && t[r].pos == p;
        assert InPlaylist(rows, pid, r) && InPlaylist(rows', pid, r) && t'[r] == t[r];
      }
      if p in Positions(t', pid) {
        var r :| r in t' && t'[r].playlist == pid && t'[r].pos == p;
        assert InPlaylist(rows', pid, r) && InPlaylist(rows, pid, r) && t'[r] == t[r];
      }
    }
    assert Positions(t, pid) == Positions(t', pid);
    forall r ensures InPlaylist(Renumbered(rows', pid), pid, r) <==> InPlaylist(Renumbered(rows, pid), pid, r) {
      assert InPlaylist(rows', pid, r) <==> InPlaylist(rows, pid, r);
    }
    forall r | InPlaylist(Renumbered(rows, pid), pid, r) ensures Renumbered(rows', pid)[r] == Renumbered(rows, pid)[r] {
      assert InPlaylist(rows, pid, r);
    }
  }

  /** Working on one playlist settles it and leaves the others as they were. */
  lemma OnePlaylistDropped(first: Rows, before: Rows, after: Rows, pid: string, files: set<Media>)
    requires SamePlaylist(first, before, pid) && pid in Affected(first, files)
    requires after == Renumbered(WithoutOrphanRows(before, pid, files), pid)
    ensures OrphansDropped(first, after, pid, files) && LeavesOthers(before, after, pid)
  {
    SameWithoutOrphans(first, before, pid, files);
    var t := WithoutOrphanRows(before, pid, files);
    RenumberedOthersSame(t, pid);
    forall s: Rows, q: string | q != pid && SamePlaylist(s, before, q) ensures SamePlaylist(s, after, q) {
      assert SamePlaylist(t, after, q);
    }
  }

  lemma OrphanStep(first: Rows, before: Rows, after: Rows, files: set<Media>, left: set<string>, pid: string)
    requires OrphanProgress(first, before, files, left) && pid in left
    requires NoOpposites(WithoutOrphanRows(first, pid, files), pid)
    requires after == Renumbered(WithoutOrphanRows(before, pid, files), pid)
    ensures OrphanProgress(first, after, files, left - {pid})
  {
    OnePlaylistDropped(first, before, after, pid, files);
    forall q | q !in left - {pid} ensures OrphansDropped(first, after, q, files) {
      if q != pid {
        assert OrphansDropped(first, before, q, files);
      }
    }
  }
}
