/** Runs of edits: on dense tables every playlist sees the operations on its list; no run breaks the unique index. */
module PlaylistRuns {
  import opened PlaylistTable
  import opened PlaylistReorder
  import opened PlaylistRenumber
  import opened PlaylistTracks

  /** What each playlist holds. */
  type Lists = string -> seq<Media>

  datatype Edit =
    | Append(pid: string, ids: seq<Media>)
    | Remove(pid: string, positions: set<int>)
    | Clear(pid: string)
    | Move(pid: string, pos: int, newPos: int)
    | Replace(pid: string, ids: seq<Media>)
    | DropOrphans(files: set<Media>)

  /** The tracks at positions not in `ids`. */
  function Without(s: seq<Media>, ids: set<int>): seq<Media> {
    KeptTracks(s, p => p !in ids)
  }

  function WithoutOrphans(s: seq<Media>, files: set<Media>): seq<Media> {
    Filter(s, m => m in files)
  }

  /** A move must be in range, and the playlist below the sentinel's reach. */
  predicate Applicable(s: seq<Media>, pid: string, e: Edit) {
    e.Move? && e.pid == pid ==> |s| < 999999 && BothInRange(|s|, e.pos, e.newPos)
  }

  function AfterEdit(s: seq<Media>, pid: string, e: Edit): seq<Media> {
    if e.DropOrphans? then WithoutOrphans(s, e.files)
    else if e.pid != pid || !Applicable(s, pid, e) then s
    else
      match e
      case Append(_, ids) => s + ids
      case Remove(_, positions) => Without(s, positions)
      case Clear(_) => []
      case Move(_, pos, newPos) => MoveTrack(s, pos, newPos)
      case Replace(_, ids) => ids
  }

  predicate AllApplicable(s: seq<Media>, pid: string, edits: seq<Edit>)
    decreases |edits|
  {
    edits == [] || (Applicable(s, pid, edits[0]) && AllApplicable(AfterEdit(s, pid, edits[0]), pid, edits[1..]))
  }

  function AfterEdits(s: seq<Media>, pid: string, edits: seq<Edit>): seq<Media>
    decreases |edits|
  {
    if edits == [] then s else AfterEdits(AfterEdit(s, pid, edits[0]), pid, edits[1..])
  }

  ghost predicate AllRepresent(rows: Rows, lists: Lists) {
    forall q :: Represents(rows, q, lists(q))
  }

  ghost predicate Fresh(rows: Rows, nextRow: RowId) {
    forall r :: r in rows ==> r < nextRow
  }

  // ----- Each operation on a dense table -----

  lemma OthersRepresent(rows: Rows, rows': Rows, pid: string, lists: Lists)
    requires AllRepresent(rows, lists) && OthersSame(rows, rows', pid)
    ensures forall q :: q != pid ==> Represents(rows', q, lists(q))
  {
    forall q | q != pid ensures Represents(rows', q, lists(q)) {
      OtherRowsSame(rows, rows', q, lists(q));
    }
  }

  lemma OneAppended(rows: Rows, r: RowId, pid: string, s: seq<Media>, m: Media)
    requires Fresh(rows, r) && Represents(rows, pid, s)
    ensures Represents(rows[r := Row(pid, m, |s| + 1)], pid, s + [m])
  {
    var rows' := rows[r := Row(pid, m, |s| + 1)];
    forall p | 1 <= p <= |s| + 1 ensures HasPos(rows', pid, p) {
      if p <= |s| {
        assert HasPos(rows, pid, p);
        var o :| InPlaylist(rows, pid, o) && rows[o].pos == p;
        assert InPlaylist(rows', pid, o);
      } else {
        assert InPlaylist(rows', pid, r);
      }
    }
  }

  lemma {:induction false} AppendedRepresents(rows: Rows, nextRow: RowId, pid: string, s: seq<Media>, ids: seq<Media>)
    requires Fresh(rows, nextRow) && Represents(rows, pid, s)
    ensures var t := Appended(rows, nextRow, pid, |s| + 1, ids);
            Represents(t, pid, s + ids) && OthersSame(rows, t, pid)
    decreases |ids|
  {
    if ids == [] {
      assert s + ids == s;
    } else {
      var rows' := rows[nextRow := Row(pid, ids[0], |s| + 1)];
      OneAppended(rows, nextRow, pid, s, ids[0]);
      AppendedRepresents(rows', nextRow + 1, pid, s + [ids[0]], ids[1..]);
      assert s + [ids[0]] + ids[1..] == s + ids;
      var t := Appended(rows, nextRow, pid, |s| + 1, ids);
      forall q | q != pid ensures SamePlaylist(rows, t, q) {
        assert SamePlaylist(rows, rows', q) && SamePlaylist(rows', t, q);
      }
    }
  }

  lemma DenseMaxPosition(rows: Rows, pid: string, s: seq<Media>, m: int)
    requires Represents(rows, pid, s) && IsMaxPosition(rows, pid, m)
    ensures m == |s|
  {
    PositionsAre(rows, pid, s);
    assert |s| in Positions(rows, pid) <==> |s| > 0;
  }

  /** Deleting and renumbering succeeds on a dense table, and is deleting from the list. */
  lemma DeletedRepresents(rows: Rows, pid: string, s: seq<Media>, keep: int -> bool)
    requires Represents(rows, pid, s)
    ensures var t := Deleted(rows, pid, keep);
            && NoOpposites(t, pid) && Represents(Renumbered(t, pid), pid, KeptTracks(s, keep))
            && OthersSame(rows, Renumbered(t, pid), pid)
  {
    var t := Deleted(rows, pid, keep);
    DeletedIsSparse(rows, pid, s, keep);
    KeptPairs(s, keep);
    SparseIsRanked(t, pid, KeptPositions(|s|, keep), KeptTracks(s, keep));
    RenumberedRepresents(t, pid, KeptPositions(|s|, keep), KeptTracks(s, keep));
    forall a | InPlaylist(t, pid, a) ensures t[a].pos > 0 {
      assert InPlaylist(rows, pid, a);
    }
    RenumberedOthersSame(t, pid);
    forall q | q != pid ensures SamePlaylist(rows, Renumbered(t, pid), q) {
      assert SamePlaylist(t, Renumbered(t, pid), q);
    }
  }

  /** A move in range meets the unique index nowhere, and is the move in the list. */
  lemma MovedRepresents(rows: Rows, pid: string, s: seq<Media>, pos: int, newPos: int)
    requires Unique(rows) && Represents(rows, pid, s) && |s| < 999999 && BothInRange(|s|, pos, newPos)
    ensures StagesSafe(rows, pid, pos, newPos)
    ensures Represents(ReorderTable(rows, pid, pos, newPos), pid, MoveTrack(s, pos, newPos))
  {
    if pos != newPos {
      ReorderKeepsUnique(rows, pid, |s|, pos, newPos);
    }
    ReorderMovesTrack(rows, pid, s, pos, newPos);
  }

  lemma OrphansRepresent(rows: Rows, pid: string, s: seq<Media>, files: set<Media>)
    requires Unique(rows) && Represents(rows, pid, s)
    ensures NoOpposites(WithoutOrphanRows(rows, pid, files), pid)
    ensures Represents(Renumbered(WithoutOrphanRows(rows, pid, files), pid), pid, WithoutOrphans(s, files))
  {
    var gone := set r | r in rows && rows[r].playlist == pid && rows[r].media !in files :: rows[r].pos;
    OrphanPositions(rows, pid, files, gone);
    DeletedRepresents(rows, pid, s, p => p !in gone);
    forall p | 1 <= p <= |s| ensures p !in gone <==> s[p - 1] in files {
      assert HasPos(rows, pid, p);
      var r :| InPlaylist(rows, pid, r) && rows[r].pos == p;
      if p in gone {
        var o :| o in rows && rows[o].playlist == pid && rows[o].media !in files && rows[o].pos == p;
        assert InPlaylist(rows, pid, o);
      }
    }
    KeptTracksIsFilter(s, p => p !in gone, m => m in files);
  }

  /** A playlist without orphans is already what removing orphans would make it. */
  lemma NoOrphans(rows: Rows, pid: string, s: seq<Media>, files: set<Media>)
    requires Represents(rows, pid, s) && pid !in Affected(rows, files)
    ensures WithoutOrphans(s, files) == s
  {
    forall i | 0 <= i < |s| ensures s[i] in files {
      assert HasPos(rows, pid, i + 1);
      var r :| InPlaylist(rows, pid, r) && rows[r].pos == i + 1;
      assert rows[r].media in files;
    }
    KeepingAll(s, p => true);
    KeptTracksIsFilter(s, p => true, m => m in files);
  }

  lemma DroppedRepresents(rows: Rows, rows': Rows, pid: string, s: seq<Media>, files: set<Media>)
    requires Unique(rows) && Represents(rows, pid, s) && OrphansDropped(rows, rows', pid, files)
    ensures Represents(rows', pid, WithoutOrphans(s, files))
  {
    if pid in Affected(rows, files) {
      OrphansRepresent(rows, pid, s, files);
      OtherRowsSame(Renumbered(WithoutOrphanRows(rows, pid, files), pid), rows', pid, WithoutOrphans(s, files));
    } else {
      NoOrphans(rows, pid, s, files);
      OtherRowsSame(rows, rows', pid, s);
    }
  }

  // ----- Edits -----

  /** The table before the edit held the lists, and the edit was applicable; it succeeded, and the table holds the new lists. */
  ghost predicate Refines(before: Rows, after: Rows, ok: bool, lists: Lists, e: Edit) {
    AllRepresent(before, lists) && (forall q :: Applicable(lists(q), q, e)) ==>
      ok && forall q :: Represents(after, q, AfterEdit(lists(q), q, e))
  }

  /** With one playlist edited as its list, and the others as they were, the edit is refined. */
  lemma OneEdited(before: Rows, after: Rows, lists: Lists, e: Edit)
    requires !e.DropOrphans? && OthersSame(before, after, e.pid)
    requires AllRepresent(before, lists) ==> Represents(after, e.pid, AfterEdit(lists(e.pid), e.pid, e))
    ensures AllRepresent(before, lists) ==> forall q :: Represents(after, q, AfterEdit(lists(q), q, e))
  {
    if AllRepresent(before, lists) {
      OthersRepresent(before, after, e.pid, lists);
    }
  }

  lemma AppendRefines(before: Rows, nextRow: RowId, after: Rows, lists: Lists, e: Edit)
    requires Fresh(before, nextRow) && e.Append?
    requires exists m :: IsMaxPosition(before, e.pid, m) && after == Appended(before, nextRow, e.pid, m + 1, e.ids)
    ensures Refines(before, after, true, lists, e)
  {
    if AllRepresent(before, lists) {
      var s := lists(e.pid);
      assert Represents(before, e.pid, s);
      var m :| IsMaxPosition(before, e.pid, m) && after == Appended(before, nextRow, e.pid, m + 1, e.ids);
      DenseMaxPosition(before, e.pid, s, m);
      AppendedRepresents(before, nextRow, e.pid, s, e.ids);
      OneEdited(before, after, lists, e);
    }
  }

  lemma RemoveRefines(before: Rows, after: Rows, ok: bool, lists: Lists, pid: string, ids: set<int>)
    requires ok <==> NoOpposites(Deleted(before, pid, p => p !in ids), pid)
    requires ok ==> after == Renumbered(Deleted(before, pid, p => p !in ids), pid)
    ensures Refines(before, after, ok, lists, Remove(pid, ids))
  {
    if AllRepresent(before, lists) {
      assert Represents(before, pid, lists(pid));
      DeletedRepresents(before, pid, lists(pid), p => p !in ids);
      OneEdited(before, after, lists, Remove(pid, ids));
    }
  }

  lemma ClearRefines(before: Rows, after: Rows, lists: Lists, e: Edit)
    requires e.Clear? && Represents(after, e.pid, []) && OthersSame(before, after, e.pid)
    ensures Refines(before, after, true, lists, e)
  {
    OneEdited(before, after, lists, e);
  }

  lemma MoveDone(before: Rows, after: Rows, lists: Lists, e: Edit)
    requires Unique(before) && e.Move? && Represents(before, e.pid, lists(e.pid)) && Applicable(lists(e.pid), e.pid, e)
    requires after == ReorderTable(before, e.pid, e.pos, e.newPos)
    ensures Represents(after, e.pid, AfterEdit(lists(e.pid), e.pid, e))
  {
    assert AfterEdit(lists(e.pid), e.pid, e) == MoveTrack(lists(e.pid), e.pos, e.newPos);
    MovedRepresents(before, e.pid, lists(e.pid), e.pos, e.newPos);
  }

  lemma MoveSucceeds(before: Rows, lists: Lists, e: Edit)
    requires Unique(before) && e.Move? && Represents(before, e.pid, lists(e.pid)) && Applicable(lists(e.pid), e.pid, e)
    ensures StagesSafe(before, e.pid, e.pos, e.newPos)
  {
    MovedRepresents(before, e.pid, lists(e.pid), e.pos, e.newPos);
  }

  lemma MoveRefines(before: Rows, after: Rows, ok: bool, lists: Lists, e: Edit)
    requires Unique(before) && e.Move? && OthersSame(before, after, e.pid)
    requires ok ==> after == ReorderTable(before, e.pid, e.pos, e.newPos)
    requires StagesSafe(before, e.pid, e.pos, e.newPos) ==> ok
    ensures Refines(before, after, ok, lists, e)
  {
    if AllRepresent(before, lists) && Applicable(lists(e.pid), e.pid, e) {
      assert Represents(before, e.pid, lists(e.pid));
      MoveSucceeds(before, lists, e);
      MoveDone(before, after, lists, e);
      OneEdited(before, after, lists, e);
    }
  }

  lemma ReplaceRefines(before: Rows, nextRow: RowId, after: Rows, lists: Lists, e: Edit)
    requires Fresh(before, nextRow) && e.Replace?
    requires after == Appended(Deleted(before, e.pid, p => false), nextRow, e.pid, 1, e.ids)
    ensures Refines(before, after, true, lists, e)
  {
    var empty := Deleted(before, e.pid, p => false);
    assert Represents(empty, e.pid, []);
    AppendedRepresents(empty, nextRow, e.pid, [], e.ids);
    assert [] + e.ids == e.ids;
    forall q | q != e.pid ensures SamePlaylist(before, after, q) {
      assert SamePlaylist(before, empty, q) && SamePlaylist(empty, after, q);
    }
    OneEdited(before, after, lists, e);
  }

  lemma DropRefines(before: Rows, after: Rows, ok: bool, lists: Lists, files: set<Media>)
    requires Unique(before)
    requires ok <==> forall pid :: pid in Affected(before, files) ==> NoOpposites(WithoutOrphanRows(before, pid, files), pid)
    requires ok ==> forall pid :: OrphansDropped(before, after, pid, files)
    ensures Refines(before, after, ok, lists, DropOrphans(files))
  {
    if AllRepresent(before, lists) {
      forall pid | pid in Affected(before, files) ensures NoOpposites(WithoutOrphanRows(before, pid, files), pid) {
        assert Represents(before, pid, lists(pid));
        OrphansRepresent(before, pid, lists(pid), files);
      }
      forall q ensures Represents(after, q, WithoutOrphans(lists(q), files)) {
        assert Represents(before, q, lists(q));
        assert OrphansDropped(before, after, q, files);
        DroppedRepresents(before, after, q, lists(q), files);
      }
    }
  }

  /**
   Carries out one edit. A deletion or a move that fails is rolled back; the removal of orphans also runs outside a
   transaction, and keeps what it has done.
   */
  method Perform(r: Repository, e: Edit, ghost lists: Lists) returns (ok: bool)
    requires r.Sound()
    modifies r
    ensures r.Sound() && (!ok && !e.DropOrphans? ==> r.rows == old(r.rows))
    ensures Refines(old(r.rows), r.rows, ok, lists, e)
  {
    var before, next := r.rows, r.nextRow;
    ok := true;
    match e {
      case Append(pid, ids) =>
        var _ := r.Add(pid, ids);
        AppendRefines(before, next, r.rows, lists, e);
      case Remove(pid, positions) =>
        ok := r.Delete(pid, positions);
        RemoveRefines(before, r.rows, ok, lists, pid, positions);
      case Clear(pid) =>
        ok := r.DeleteAll(pid);
        ClearRefines(before, r.rows, lists, e);
      case Move(pid, pos, newPos) =>
        ok := r.Reorder(pid, pos, newPos);
        MoveRefines(before, r.rows, ok, lists, e);
      case Replace(pid, ids) =>
        r.UpdatePlaylist(pid, ids);
        ReplaceRefines(before, next, r.rows, lists, e);
      case DropOrphans(files) =>
        ok := r.RemoveOrphans(files);
        DropRefines(before, r.rows, ok, lists, files);
    }
    if !ok && !e.DropOrphans? {
      r.rows, r.nextRow := before, next;
    }
  }

  /**
   Any run of edits keeps the unique index. If the table held lists to which the edits are applicable, every edit
   succeeds and the table holds the edited lists.
   */
  method Replay(r: Repository, edits: seq<Edit>, ghost lists: Lists) returns (failed: nat)
    requires r.Sound()
    modifies r
    ensures r.Sound()
    ensures AllRepresent(old(r.rows), lists) && (forall q :: AllApplicable(lists(q), q, edits)) ==>
              failed == 0 && forall q :: Represents(r.rows, q, AfterEdits(lists(q), q, edits))
  {
    failed := 0;
    ghost var good := AllRepresent(r.rows, lists) && forall q :: AllApplicable(lists(q), q, edits);
    ghost var now := lists;
    for i := 0 to |edits|
      invariant r.Sound()
      invariant good ==> failed == 0 && Ahead(r.rows, now, lists, edits, i)
    {
      ghost var before := r.rows;
      var ok := Perform(r, edits[i], now);
      if good {
        AheadNext(before, r.rows, now, lists, edits, i, ok);
      }
      if !ok {
        failed := failed + 1;
      }
      now := Edited(now, edits[i]);
    }
    assert edits[|edits|..] == [];
  }

  ghost function Edited(lists: Lists, e: Edit): Lists {
    q => AfterEdit(lists(q), q, e)
  }

  /** After i edits the table holds the lists edited so far, and what is left leads to the same end. */
  ghost predicate Ahead(rows: Rows, now: Lists, lists: Lists, edits: seq<Edit>, i: nat)
    requires i <= |edits|
  {
    && AllRepresent(rows, now)
    && forall q :: AllApplicable(now(q), q, edits[i..]) && AfterEdits(now(q), q, edits[i..]) == AfterEdits(lists(q), q, edits)
  }

  lemma AheadNext(before: Rows, after: Rows, now: Lists, lists: Lists, edits: seq<Edit>, i: nat, ok: bool)
    requires i < |edits| && Ahead(before, now, lists, edits, i) && Refines(before, after, ok, now, edits[i])
    ensures ok && Ahead(after, Edited(now, edits[i]), lists, edits, i + 1)
  {
    assert edits[i..][0] == edits[i] && edits[i..][1..] == edits[i + 1..];
    forall q ensures Applicable(now(q), q, edits[i]) {
      assert AllApplicable(now(q), q, edits[i..]);
    }
  }
}
