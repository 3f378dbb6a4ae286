/**
 The playlist_tracks table: rows keyed by rowid, with a position `id` that is unique within a playlist.
 An UPDATE visits its rows one by one, in an order the database chooses, and the unique index is checked
 at every single row.
 */
module PlaylistTable {
  type RowId = nat
  type Media = string

  datatype Row = Row(playlist: string, media: Media, pos: int)

  type Rows = map<RowId, Row>

  predicate InPlaylist(rows: Rows, pid: string, r: RowId) {
    r in rows && rows[r].playlist == pid
  }

  function Positions(rows: Rows, pid: string): set<int> {
    set r | r in rows && rows[r].playlist == pid :: rows[r].pos
  }

  /** The unique index on (playlist_id, id). */
  predicate Unique(rows: Rows) {
    forall a, b :: a in rows && b in rows && a != b && rows[a].playlist == rows[b].playlist ==> rows[a].pos != rows[b].pos
  }

  /** UPDATE ... SET id = f(id) WHERE playlist_id = pid, once it is done. */
  function Moved(rows: Rows, pid: string, f: int -> int): Rows {
    map r | r in rows :: if rows[r].playlist == pid then rows[r].(pos := f(rows[r].pos)) else rows[r]
  }

  /** The same statement after it has visited the rows in `done`. */
  function PartlyMoved(rows: Rows, pid: string, f: int -> int, done: set<RowId>): Rows {
    map r | r in rows :: if r in done && rows[r].playlist == pid then rows[r].(pos := f(rows[r].pos)) else rows[r]
  }

  /** No row's new position is another row's old or new position. */
  ghost predicate CollisionFree(rows: Rows, pid: string, f: int -> int) {
    forall a, b :: InPlaylist(rows, pid, a) && InPlaylist(rows, pid, b) && a != b ==>
                     f(rows[a].pos) != rows[b].pos && f(rows[a].pos) != f(rows[b].pos)
  }

  /** Exactly the statements that keep the index unique at every row, in whatever order rows are visited. */
  lemma CollisionFreeExact(rows: Rows, pid: string, f: int -> int)
    requires Unique(rows)
    ensures CollisionFree(rows, pid, f) <==> forall done: set<RowId> :: Unique(PartlyMoved(rows, pid, f, done))
  {
    if CollisionFree(rows, pid, f) {
      forall done: set<RowId> ensures Unique(PartlyMoved(rows, pid, f, done)) {
        PartlyMovedIsUnique(rows, pid, f, done);
      }
    }
    if forall done: set<RowId> :: Unique(PartlyMoved(rows, pid, f, done)) {
      forall a, b | InPlaylist(rows, pid, a) && InPlaylist(rows, pid, b) && a != b
        ensures f(rows[a].pos) != rows[b].pos && f(rows[a].pos) != f(rows[b].pos)
      {
        TwoRowsApart(rows, pid, f, a, b);
      }
    }
  }

  lemma PartlyMovedIsUnique(rows: Rows, pid: string, f: int -> int, done: set<RowId>)
    requires Unique(rows) && CollisionFree(rows, pid, f)
    ensures Unique(PartlyMoved(rows, pid, f, done))
  {
    var t := PartlyMoved(rows, pid, f, done);
    forall a, b | a in t && b in t && a != b && t[a].playlist == t[b].playlist ensures t[a].pos != t[b].pos {
      assert t[a].playlist == pid ==> InPlaylist(rows, pid, a) && InPlaylist(rows, pid, b);
    }
  }

  lemma TwoRowsApart(rows: Rows, pid: string, f: int -> int, a: RowId, b: RowId)
    requires InPlaylist(rows, pid, a) && InPlaylist(rows, pid, b) && a != b
    requires Unique(PartlyMoved(rows, pid, f, {a})) && Unique(PartlyMoved(rows, pid, f, {a, b}))
    ensures f(rows[a].pos) != rows[b].pos && f(rows[a].pos) != f(rows[b].pos)
  {
    var one, both := PartlyMoved(rows, pid, f, {a}), PartlyMoved(rows, pid, f, {a, b});
    assert one[a].pos == f(rows[a].pos) && one[b].pos == rows[b].pos;
    assert both[a].pos == f(rows[a].pos) && both[b].pos == f(rows[b].pos);
  }

  // ----- What a playlist's rows stand for -----

  ghost predicate HasPos(rows: Rows, pid: string, p: int) {
    exists r :: InPlaylist(rows, pid, r) && rows[r].pos == p
  }

  predicate Increasing(ps: seq<int>) {
    forall i, j :: 0 <= i < j < |ps| ==> ps[i] < ps[j]
  }

  /** The playlist's rows sit at the positions `ps`, in order, and hold the tracks of `s`. */
  ghost predicate Sparse(rows: Rows, pid: string, ps: seq<int>, s: seq<Media>) {
    && |ps| == |s| && Increasing(ps)
    && (forall r :: InPlaylist(rows, pid, r) ==> HoldsEntry(rows[r], ps, s))
    && (forall i {:trigger HasPos(rows, pid, ps[i])} :: 0 <= i < |ps| ==> HasPos(rows, pid, ps[i]))
  }

  ghost predicate HoldsEntry(row: Row, ps: seq<int>, s: seq<Media>)
    requires |ps| == |s|
  {
    exists i :: 0 <= i < |ps| && row.pos == ps[i] && row.media == s[i]
  }

  /** Positions are exactly 1..|s|, and position i holds the i-th track of s. */
  ghost predicate Represents(rows: Rows, pid: string, s: seq<Media>) {
    && (forall r :: InPlaylist(rows, pid, r) ==> 1 <= rows[r].pos <= |s| && rows[r].media == s[rows[r].pos - 1])
    && (forall p :: 1 <= p <= |s| ==> HasPos(rows, pid, p))
  }

  lemma PositionsAre(rows: Rows, pid: string, s: seq<Media>)
    requires Represents(rows, pid, s)
    ensures forall p :: p in Positions(rows, pid) <==> 1 <= p <= |s|
  {
    forall p | 1 <= p <= |s| ensures p in Positions(rows, pid) {
      assert HasPos(rows, pid, p);
    }
    forall p | p in Positions(rows, pid) ensures 1 <= p <= |s| {
      var r :| r in rows && rows[r].playlist == pid && rows[r].pos == p;
      assert InPlaylist(rows, pid, r);
    }
  }

  /** A table represents at most one list. */
  lemma RepresentsOne(rows: Rows, pid: string, s: seq<Media>, t: seq<Media>)
    requires Represents(rows, pid, s) && Represents(rows, pid, t)
    ensures s == t
  {
    PositionsAre(rows, pid, s);
    PositionsAre(rows, pid, t);
    assert |s| in Positions(rows, pid) <==> |s| > 0;
    assert |t| in Positions(rows, pid) <==> |t| > 0;
    forall i | 0 <= i < |s| ensures s[i] == t[i] {
      assert HasPos(rows, pid, i + 1);
    }
  }

  /** The playlist has the same rows in both tables. */
  ghost predicate SamePlaylist(rows: Rows, rows': Rows, q: string) {
    && (forall r :: InPlaylist(rows', q, r) <==> InPlaylist(rows, q, r))
    && (forall r :: InPlaylist(rows, q, r) ==> r in rows' && rows'[r] == rows[r])
  }

  ghost predicate OthersSame(rows: Rows, rows': Rows, pid: string) {
    forall q :: q != pid ==> SamePlaylist(rows, rows', q)
  }

  lemma OtherRowsSame(rows: Rows, rows': Rows, q: string, s: seq<Media>)
    requires Represents(rows, q, s) && SamePlaylist(rows, rows', q)
    ensures Represents(rows', q, s)
  {
    forall p | 1 <= p <= |s| ensures HasPos(rows', q, p) {
      assert HasPos(rows, q, p);
    }
  }

  /** Repositioning a represented list by a permutation of its positions. */
  lemma Permuted(rows: Rows, pid: string, f: int -> int, g: int -> int, s: seq<Media>, t: seq<Media>)
    requires Represents(rows, pid, s) && |t| == |s|
    requires forall p :: 1 <= p <= |s| ==> 1 <= f(p) <= |s| && t[f(p) - 1] == s[p - 1]
    requires forall p :: 1 <= p <= |s| ==> 1 <= g(p) <= |s| && f(g(p)) == p
    ensures Represents(Moved(rows, pid, f), pid, t)
  {
    var rows' := Moved(rows, pid, f);
    forall p | 1 <= p <= |t| ensures HasPos(rows', pid, p) {
      assert HasPos(rows, pid, g(p));
      var r :| InPlaylist(rows, pid, r) && rows[r].pos == g(p);
      assert InPlaylist(rows', pid, r) && rows'[r].pos == p;
    }
  }
}
