/**
 Move detection in the scanner: the greedy pairing of missing tracks with newly found ones, and the moves
 it leads to. Rows of the media file table are known by their id.
 */
module MissingTracks {
  import opened Wrappers

  /** `content` stands for everything MediaFile.Hash digests; times count from the zero time. */
  datatype MediaFile = MediaFile(
    id: string, pid: string, libraryId: int, path: string, albumId: string, content: string,
    missing: bool, birthTime: nat, createdAt: nat)

  type Table = map<string, MediaFile>

  /** The tracks of one library scan that share a persistent id. */
  datatype Group = Group(pid: string, missing: seq<MediaFile>, matched: seq<MediaFile>)

  datatype Pair = Pair(missing: MediaFile, target: MediaFile)

  // ----- Comparing tracks -----

  predicate Equal(a: MediaFile, b: MediaFile) {
    a.content == b.content
  }

  /** The position of the last c, or -1. */
  function LastIndex(s: string, c: char): (r: int)
    ensures -1 <= r < |s| && (r >= 0 ==> s[r] == c)
    ensures forall k :: r < k < |s| ==> s[k] != c
  {
    if s == [] then -1 else if s[|s| - 1] == c then |s| - 1 else LastIndex(s[..|s| - 1], c)
  }

  function TrimSlashes(s: string): string {
    if s != [] && s[|s| - 1] == '/' then TrimSlashes(s[..|s| - 1]) else s
  }

  /** The last element of a path, without its extension. */
  function BaseName(path: string): string {
    var trimmed := TrimSlashes(path);
    var base := if path == [] then "." else if trimmed == [] then "/" else trimmed[LastIndex(trimmed, '/') + 1..];
    var dot := LastIndex(base, '.');
    if dot < 0 then base else base[..dot]
  }

  predicate Equivalent(a: MediaFile, b: MediaFile) {
    BaseName(a.path) == BaseName(b.path)
  }

  // ----- The pairing -----

  function FirstWhere(fs: seq<MediaFile>, p: MediaFile -> bool): (r: Option<MediaFile>)
    ensures r.Some? ==> r.value in fs && p(r.value)
    ensures r.None? ==> forall t :: t in fs ==> !p(t)
  {
    if fs == [] then None else if p(fs[0]) then Some(fs[0]) else FirstWhere(fs[1..], p)
  }

  function LastWhere(fs: seq<MediaFile>, p: MediaFile -> bool): (r: Option<MediaFile>)
    ensures r.Some? ==> r.value in fs && p(r.value)
    ensures r.None? ==> forall t :: t in fs ==> !p(t)
  {
    if fs == [] then None
    else
      var last := fs[|fs| - 1];
      if p(last) then Some(last) else LastWhere(fs[..|fs| - 1], p)
  }

  function FreeEqual(m: MediaFile, used: set<string>): MediaFile -> bool {
    (t: MediaFile) => t.id !in used && Equal(m, t)
  }

  function FreeEquivalent(m: MediaFile, used: set<string>): MediaFile -> bool {
    (t: MediaFile) => t.id !in used && Equivalent(m, t)
  }

  predicate OnlyPair(g: Group, used: set<string>) {
    |g.missing| == 1 && |g.matched| == 1 && g.matched[0].id !in used
  }

  /** The first that satisfies p, else the only one, else the last that satisfies q. */
  function Pick(fs: seq<MediaFile>, p: MediaFile -> bool, q: MediaFile -> bool, only: bool): (r: Option<MediaFile>)
    requires only ==> fs != []
    ensures r.Some? ==> r.value in fs && (p(r.value) || only || q(r.value))
    ensures (exists t :: t in fs && p(t)) ==> r.Some? && p(r.value)
    ensures r.None? ==> !only && forall t :: t in fs ==> !p(t) && !q(t)
  {
    var first := FirstWhere(fs, p);
    if first.Some? then first else if only then Some(fs[0]) else LastWhere(fs, q)
  }

  function Choose(g: Group, m: MediaFile, used: set<string>): (r: Option<MediaFile>)
    ensures r.Some? ==> r.value in g.matched && r.value.id !in used
  {
    Pick(g.matched, FreeEqual(m, used), FreeEquivalent(m, used), OnlyPair(g, used))
  }

  /** The pairs made for a list of missing tracks, in order. */
  function Pairing(g: Group, missing: seq<MediaFile>, used: set<string>): seq<Pair> {
    if missing == [] then []
    else
      match Choose(g, missing[0], used)
      case None => Pairing(g, missing[1..], used)
      case Some(t) => [Pair(missing[0], t)] + Pairing(g, missing[1..], used + {t.id})
  }

  function Pairs(g: Group): seq<Pair> {
    Pairing(g, g.missing, {})
  }

  // ----- The moves -----

  /** Media file rows are updated but for two columns, or inserted when there is none to update. */
  function Put(db: Table, f: MediaFile, now: nat): Table {
    if f.id in db then db[f.id := f.(createdAt := db[f.id].createdAt, birthTime := db[f.id].birthTime)]
    else db[f.id := f.(createdAt := if f.createdAt == 0 then now else f.createdAt)]
  }

  /** The target's row moves under the missing track's id. */
  function Move(db: Table, p: Pair, now: nat): Table {
    Put(db, p.target.(createdAt := p.missing.createdAt, id := p.missing.id), now) - {p.target.id}
  }

  function AfterMoves(db: Table, ps: seq<Pair>, now: nat): Table
    decreases |ps|
  {
    if ps == [] then db else AfterMoves(Move(db, ps[0], now), ps[1..], now)
  }

  // ----- Grouping -----

  function Select(rows: seq<MediaFile>, pid: string, missing: bool): (r: seq<MediaFile>)
    ensures forall f :: f in r <==> f in rows && f.pid == pid && f.missing == missing
  {
    if rows == [] then []
    else
      var last := rows[|rows| - 1];
      Select(rows[..|rows| - 1], pid, missing) + if last.pid == pid && last.missing == missing then [last] else []
  }

  /** Everything the rows have under a persistent id. */
  function GroupOf(rows: seq<MediaFile>, pid: string): Group {
    Group(pid, Select(rows, pid, true), Select(rows, pid, false))
  }

  /** The persistent ids in order of their first row, as ORDER BY pid leaves them. */
  function Pids(rows: seq<MediaFile>): (r: seq<string>)
    ensures forall pid :: pid in r <==> exists f :: f in rows && f.pid == pid
  {
    if rows == [] then []
    else
      var before := Pids(rows[..|rows| - 1]);
      var last := rows[|rows| - 1];
      if last.pid in before then before else before + [last.pid]
  }

  /** The groups worth processing: with a persistent id, and something missing. */
  function GroupsOf(rows: seq<MediaFile>, pids: seq<string>): seq<Group> {
    if pids == [] then []
    else
      var g := GroupOf(rows, pids[|pids| - 1]);
      PutIfMatched(GroupsOf(rows, pids[..|pids| - 1]), g)
  }

  // ----- The phase -----

  class Phase {
    var db: Table
    var totalMatched: nat
    var changesDetected: bool

    constructor (db: Table)
      ensures this.db == db && totalMatched == 0 && !changesDetected
    {
      this.db, totalMatched, changesDetected := db, 0, false;
    }

    /** One transaction: it fails as a whole, or both statements take effect. */
    method MoveMatched(target: MediaFile, missing: MediaFile, now: nat, fails: bool) returns (ok: bool)
      modifies this`db, this`changesDetected
      ensures ok <==> !fails
      ensures db == if fails then old(db) else Move(old(db), Pair(missing, target), now)
      ensures changesDetected <==> old(changesDetected) || !fails
    {
      if fails {
        return false;
      }
      var moved := target.(createdAt := missing.createdAt, id := missing.id);
      if moved.id in db {
        db := db[moved.id := moved.(createdAt := db[moved.id].createdAt, birthTime := db[moved.id].birthTime)];
      } else {
        db := db[moved.id := moved.(createdAt := if moved.createdAt == 0 then now else moved.createdAt)];
      }
      db := db - {target.id};
      changesDetected := true;
      return true;
    }

    /** One pass over the matched tracks for a missing one, then the fallbacks. */
    method FindTarget(g: Group, m: MediaFile, used: set<string>) returns (target: Option<MediaFile>)
      ensures target == Choose(g, m, used)
    {
      ghost var p, q := FreeEqual(m, used), FreeEquivalent(m, used);
      var exact, equivalent := None, None;
      for i := 0 to |g.matched|
        invariant exact.None? && FirstWhere(g.matched, p) == FirstWhere(g.matched[i..], p)
        invariant equivalent == LastWhere(g.matched[..i], q)
      {
        var t := g.matched[i];
        OneMoreMatched(g.matched, i, p, q);
        if t.id in used {
          continue;
        }
        if Equal(m, t) {
          exact := Some(t);
          break;
        }
        if Equivalent(m, t) {
          equivalent := Some(t);
        }
      }
      if exact.Some? {
        return exact;
      }
      assert g.matched[..|g.matched|] == g.matched && g.matched[|g.matched|..] == [];
      if |g.missing| == 1 && |g.matched| == 1 && g.matched[0].id !in used {
        return Some(g.matched[0]);
      }
      return equivalent;
    }

    /** One missing track: finds its target and makes the move, unless there is none or the move fails. */
    method MoveMissing(g: Group, m: MediaFile, used: set<string>, now: nat, fails: bool)
      returns (target: Option<MediaFile>, ok: bool)
      modifies this
      ensures target == Choose(g, m, used) && (ok <==> target.None? || !fails)
      ensures var made := target.Some? && ok;
              && db == (if made then Move(old(db), Pair(m, target.value), now) else old(db))
              && totalMatched == old(totalMatched) + (if made then 1 else 0)
              && (changesDetected <==> old(changesDetected) || made)
    {
      target := FindTarget(g, m, used);
      ok := true;
      if target.Some? {
        ok := MoveMatched(target.value, m, now, fails);
        if ok {
          totalMatched := totalMatched + 1;
        }
      }
    }

    /** Moves the pairs of a group, up to the first move that fails; the group is passed on if none was made. */
    method ProcessMissingTracks(g: Group, now: nat, failsAt: nat) returns (ok: bool, passedOn: bool)
      modifies this
      ensures ok <==> |Pairs(g)| <= failsAt
      ensures passedOn <==> Pairs(g) == []
      ensures Outcome(old(db), db, Made(g, failsAt), now)
      ensures totalMatched == old(totalMatched) + |Made(g, failsAt)|
      ensures changesDetected <==> old(changesDetected) || Made(g, failsAt) != []
    {
      passedOn := true;
      var start := totalMatched;
      var used: set<string> := {};
      ghost var made: seq<Pair> := [];
      for i := 0 to |g.missing|
        invariant (used, made) == Steps(g, i) && |made| <= failsAt
        invariant Outcome(old(db), db, made, now)
        invariant passedOn <==> made == []
        invariant totalMatched == start + |made|
        invariant changesDetected <==> old(changesDetected) || made != []
      {
        ghost var before := db;
        var target;
        target, ok := MoveMissing(g, g.missing[i], used, now, totalMatched == start + failsAt);
        if !ok {
          StoppedAt(g, i);
          return false, false;
        }
        if target.Some? {
          OutcomeGrows(old(db), before, db, made, Pair(g.missing[i], target.value), now);
          made := made + [Pair(g.missing[i], target.value)];
          used := used + {target.value.id};
          passedOn := false;
        }
      }
      ok := true;
      AllMade(g, failsAt);
    }

    /** Cuts the cursor, whose rows with one persistent id are adjacent, into groups. */
    method Produce(rows: seq<MediaFile>) returns (groups: seq<Group>)
      requires Contiguous(rows)
      ensures groups == GroupsOf(rows, Pids(rows))
    {
      groups := [];
      var current := Group("", [], []);
      ghost var closed: seq<string> := [];
      for i := 0 to |rows|
        invariant i == 0 ==> current == Group("", [], []) && closed == [] && groups == []
        invariant i > 0 ==> Grouped(rows, i, closed, current, groups)
      {
        ghost var before, pid := groups, current.pid;
        var f := rows[i];
        if current.pid != f.pid {
          groups := PutIfMatched(groups, current);
          current := Group(f.pid, [], []);
        }
        if f.missing {
          current := current.(missing := current.missing + [f]);
        } else {
          current := current.(matched := current.matched + [f]);
        }
        if i == 0 {
          GroupedFirst(rows, current, groups);
        } else if f.pid == pid {
          GroupedSame(rows, i, closed, pid, before);
        } else {
          GroupedNew(rows, i, closed, pid, before);
          closed := closed + [pid];
        }
      }
      assert rows[..|rows|] == rows;
      assert |rows| > 0 ==> (closed + [current.pid])[..|closed|] == closed;
      groups := PutIfMatched(groups, current);
    }
  }

  lemma OneMoreMatched(fs: seq<MediaFile>, i: nat, p: MediaFile -> bool, q: MediaFile -> bool)
    requires i < |fs|
    ensures FirstWhere(fs[i..], p) == if p(fs[i]) then Some(fs[i]) else FirstWhere(fs[i + 1..], p)
    ensures LastWhere(fs[..i + 1], q) == if q(fs[i]) then Some(fs[i]) else LastWhere(fs[..i], q)
  {
    assert fs[i..][0] == fs[i] && fs[i..][1..] == fs[i + 1..];
    assert fs[..i + 1][..i] == fs[..i];
  }

  function PutIfMatched(groups: seq<Group>, g: Group): seq<Group> {
    if g.pid != "" && g.missing != [] then groups + [g] else groups
  }

  /** The first i > 0 rows are cut: the last group is still open. */
  ghost predicate Grouped(rows: seq<MediaFile>, i: nat, closed: seq<string>, current: Group, groups: seq<Group>)
    requires 0 < i <= |rows|
  {
    && current == GroupOf(rows[..i], current.pid)
    && Pids(rows[..i]) == closed + [current.pid] && current.pid !in closed
    && current.pid == rows[i - 1].pid
    && groups == GroupsOf(rows[..i], closed)
  }

  function Added(g: Group, f: MediaFile): Group {
    if f.missing then g.(missing := g.missing + [f]) else g.(matched := g.matched + [f])
  }

  lemma RowAdded(rows: seq<MediaFile>, f: MediaFile, pid: string)
    ensures GroupOf(rows + [f], pid) == if f.pid == pid then Added(GroupOf(rows, pid), f) else GroupOf(rows, pid)
    ensures Pids(rows + [f]) == if f.pid in Pids(rows) then Pids(rows) else Pids(rows) + [f.pid]
  {
    assert (rows + [f])[..|rows|] == rows;
    assert forall missing :: Select(rows + [f], pid, missing) ==
                             Select(rows, pid, missing) + if f.pid == pid && f.missing == missing then [f] else [];
  }

  lemma GroupedFirst(rows: seq<MediaFile>, current: Group, groups: seq<Group>)
    requires rows != [] && current == Added(Group(rows[0].pid, [], []), rows[0]) && groups == []
    ensures Grouped(rows, 1, [], current, groups)
  {
    assert rows[..1] == [] + [rows[0]];
    RowAdded([], rows[0], current.pid);
    assert Pids(rows[..1]) == [] + [current.pid];
  }

  lemma GroupedSame(rows: seq<MediaFile>, i: nat, closed: seq<string>, pid: string, groups: seq<Group>)
    requires 0 < i < |rows| && Contiguous(rows) && rows[i].pid == pid
    requires Grouped(rows, i, closed, GroupOf(rows[..i], pid), groups)
    ensures Grouped(rows, i + 1, closed, Added(GroupOf(rows[..i], pid), rows[i]), groups)
  {
    assert rows[..i + 1] == rows[..i] + [rows[i]];
    assert pid in closed + [pid];
    RowAdded(rows[..i], rows[i], pid);
    GroupsUnchanged(rows[..i], rows[i], closed);
  }

  lemma GroupedNew(rows: seq<MediaFile>, i: nat, closed: seq<string>, pid: string, groups: seq<Group>)
    requires 0 < i < |rows| && Contiguous(rows) && rows[i].pid != pid
    requires Grouped(rows, i, closed, GroupOf(rows[..i], pid), groups)
    ensures Grouped(rows, i + 1, closed + [pid], Added(Group(rows[i].pid, [], []), rows[i]),
                    PutIfMatched(groups, GroupOf(rows[..i], pid)))
  {
    assert rows[..i + 1] == rows[..i] + [rows[i]];
    RowAdded(rows[..i], rows[i], rows[i].pid);
    NotSeenAgain(rows, i);
    NothingSelected(rows[..i], rows[i].pid);
    assert (closed + [pid])[..|closed|] == closed;
    GroupsUnchanged(rows[..i], rows[i], closed + [pid]);
  }

  /** The pairs made before a move fails. */
  function Made(g: Group, failsAt: nat): seq<Pair> {
    if failsAt < |Pairs(g)| then Pairs(g)[..failsAt] else Pairs(g)
  }

  predicate Outcome(before: Table, after: Table, ps: seq<Pair>, now: nat) {
    after == AfterMoves(before, ps, now)
  }

  /** The used tracks and the pairs after i missing tracks. */
  function Steps(g: Group, i: nat): (set<string>, seq<Pair>)
    requires i <= |g.missing|
  {
    if i == 0 then ({}, [])
    else
      var (used, made) := Steps(g, i - 1);
      match Choose(g, g.missing[i - 1], used)
      case None => (used, made)
      case Some(t) => (used + {t.id}, made + [Pair(g.missing[i - 1], t)])
  }

  /** They are the part of the pairing that has been carried out. */
  lemma {:induction false} StepsAreThePairing(g: Group, i: nat)
    requires i <= |g.missing|
    ensures Steps(g, i).1 + Pairing(g, g.missing[i..], Steps(g, i).0) == Pairs(g)
    decreases i
  {
    if i == 0 {
      assert g.missing[0..] == g.missing;
      assert [] + Pairs(g) == Pairs(g);
    } else {
      StepsAreThePairing(g, i - 1);
      var m, rest := g.missing[i - 1], g.missing[i..];
      var (used, made) := Steps(g, i - 1);
      assert g.missing[i - 1..][0] == m && g.missing[i - 1..][1..] == rest;
      var chosen := Choose(g, m, used);
      if chosen.Some? {
        Regroup(made, Pair(m, chosen.value), Pairing(g, rest, used + {chosen.value.id}));
      }
    }
  }

  lemma StoppedAt(g: Group, i: nat)
    requires i < |g.missing| && Choose(g, g.missing[i], Steps(g, i).0).Some?
    ensures var made := Steps(g, i).1; |made| < |Pairs(g)| && Made(g, |made|) == made
  {
    var (used, made) := Steps(g, i);
    var m, rest := g.missing[i], g.missing[i + 1..];
    StepsAreThePairing(g, i);
    assert g.missing[i..][0] == m && g.missing[i..][1..] == rest;
    var t := Choose(g, m, used).value;
    Regroup(made, Pair(m, t), Pairing(g, rest, used + {t.id}));
  }

  lemma AllMade(g: Group, failsAt: nat)
    ensures var made := Steps(g, |g.missing|).1;
            made == Pairs(g) && (|made| <= failsAt ==> Made(g, failsAt) == made)
  {
    StepsAreThePairing(g, |g.missing|);
    var made := Steps(g, |g.missing|).1;
    assert made + [] == made;
  }

  lemma Regroup(made: seq<Pair>, p: Pair, later: seq<Pair>)
    ensures var all := made + ([p] + later);
            && all == made + [p] + later
            && |made| < |all| && all[..|made|] == made
  {
  }

  ghost predicate Contiguous(rows: seq<MediaFile>) {
    forall i, j, k :: 0 <= i < j < k < |rows| && rows[i].pid == rows[k].pid ==> rows[j].pid == rows[i].pid
  }

  lemma OutcomeGrows(first: Table, before: Table, after: Table, made: seq<Pair>, p: Pair, now: nat)
    requires Outcome(first, before, made, now) && after == Move(before, p, now)
    ensures Outcome(first, after, made + [p], now)
  {
    OneMoreMove(first, made, p, now);
  }

  lemma {:induction false} OneMoreMove(db: Table, ps: seq<Pair>, p: Pair, now: nat)
    ensures AfterMoves(db, ps + [p], now) == Move(AfterMoves(db, ps, now), p, now)
    decreases |ps|
  {
    if ps == [] {
      assert ([] + [p])[1..] == [];
    } else {
      assert (ps + [p])[1..] == ps[1..] + [p];
      OneMoreMove(Move(db, ps[0], now), ps[1..], p, now);
    }
  }

  /** A row whose persistent id was seen continues the current group. */
  lemma NotSeenAgain(rows: seq<MediaFile>, i: nat)
    requires Contiguous(rows) && i < |rows|
    ensures rows[i].pid in Pids(rows[..i]) ==> i > 0 && rows[i].pid == rows[i - 1].pid
  {
    if f :| f in rows[..i] && f.pid == rows[i].pid {
      var j :| 0 <= j < i && rows[j] == f;
      assert j < i - 1 ==> rows[i - 1].pid == rows[j].pid;
    }
  }

  lemma NothingSelected(rows: seq<MediaFile>, pid: string)
    requires pid !in Pids(rows)
    ensures GroupOf(rows, pid) == Group(pid, [], [])
  {
    assert forall f :: f in rows ==> f.pid in Pids(rows);
    SelectNothing(rows, pid, true);
    SelectNothing(rows, pid, false);
  }

  lemma {:induction false} SelectNothing(rows: seq<MediaFile>, pid: string, missing: bool)
    requires forall f :: f in rows ==> f.pid != pid
    ensures Select(rows, pid, missing) == []
  {
    if rows != [] {
      var before := rows[..|rows| - 1];
      assert rows[|rows| - 1] in rows && forall f :: f in before ==> f in rows;
      SelectNothing(before, pid, missing);
    }
  }

  lemma {:induction false} GroupsUnchanged(rows: seq<MediaFile>, f: MediaFile, pids: seq<string>)
    requires f.pid !in pids
    ensures GroupsOf(rows + [f], pids) == GroupsOf(rows, pids)
  {
    if pids != [] {
      assert pids[|pids| - 1] in pids;
      RowAdded(rows, f, pids[|pids| - 1]);
      GroupsUnchanged(rows, f, pids[..|pids| - 1]);
    }
  }
}
