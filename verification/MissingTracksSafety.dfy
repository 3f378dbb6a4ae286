/** What the pairing promises, and what carrying it out keeps. */
module MissingTracksSafety {
  import opened Wrappers
  import opened MissingTracks

  // ----- Comparing tracks -----

  lemma LastIndexIs(s: string, c: char, i: nat)
    requires i < |s| && s[i] == c && forall k :: i < k < |s| ==> s[k] != c
    ensures LastIndex(s, c) == i
  {
  }

  /** The last element of a path is what follows its last slash. */
  lemma LastElement(dir: string, name: string, path: string)
    requires name != "" && '/' !in name && (path == name || path == dir + "/" + name)
    ensures path != "" && TrimSlashes(path) == path && path[LastIndex(path, '/') + 1..] == name
  {
    assert name[|name| - 1] in name;
    if path == name {
      assert LastIndex(path, '/') == -1;
    } else {
      forall k | |dir| < k < |path| ensures path[k] != '/' {
        assert path[k] == name[k - |dir| - 1] && name[k - |dir| - 1] in name;
      }
      LastIndexIs(path, '/', |dir|);
    }
  }

  /** In any folder or in none, a name without a dot stays; of any other, what stands before the last dot. */
  lemma BaseNameExact(dir: string, stem: string, extension: string, path: string)
    requires '/' !in stem && '/' !in extension && '.' !in extension
    requires path == stem + "." + extension || path == dir + "/" + (stem + "." + extension)
    ensures BaseName(path) == stem
  {
    var name := stem + "." + extension;
    LastElement(dir, name, path);
    forall k | |stem| < k < |name| ensures name[k] != '.' {
      assert name[k] == extension[k - |stem| - 1] && extension[k - |stem| - 1] in extension;
    }
    LastIndexIs(name, '.', |stem|);
    assert name[..|stem|] == stem;
  }

  lemma BaseNameWithoutDot(dir: string, name: string, path: string)
    requires name != "" && '/' !in name && '.' !in name && (path == name || path == dir + "/" + name)
    ensures BaseName(path) == name
  {
    LastElement(dir, name, path);
    forall k | 0 <= k < |name| ensures name[k] != '.' {
      assert name[k] in name;
    }
  }

  /** A slash at the end makes no difference. */
  lemma TrailingSlash(path: string)
    requires path != ""
    ensures BaseName(path + "/") == BaseName(path)
  {
    var longer := path + "/";
    assert longer[..|longer| - 1] == path;
    assert TrimSlashes(longer) == TrimSlashes(path);
  }

  /** Of slashes alone, one is left; of nothing, nothing. */
  lemma NoElement(path: string)
    requires forall k :: 0 <= k < |path| ==> path[k] == '/'
    ensures BaseName(path) == if path == "" then "" else "/"
  {
    OnlySlashes(path);
    assert LastIndex("/", '.') == -1 && LastIndex(".", '.') == 0;
  }

  lemma {:induction false} OnlySlashes(path: string)
    requires forall k :: 0 <= k < |path| ==> path[k] == '/'
    ensures TrimSlashes(path) == ""
  {
    if path != "" {
      OnlySlashes(path[..|path| - 1]);
    }
  }

  /** So a track that changed its folder and its format, but not its name, is still taken for the same. */
  lemma SameNameIsEquivalent(a: MediaFile, b: MediaFile, dirA: string, dirB: string, stem: string, extA: string, extB: string)
    requires '/' !in stem && '/' !in extA && '.' !in extA && '/' !in extB && '.' !in extB
    requires a.path == dirA + "/" + (stem + "." + extA) && b.path == dirB + "/" + (stem + "." + extB)
    ensures Equivalent(a, b)
  {
    BaseNameExact(dirA, stem, extA, a.path);
    BaseNameExact(dirB, stem, extB, b.path);
  }

  // ----- The pairing -----

  ghost predicate DistinctIds(fs: seq<MediaFile>) {
    forall i, j :: 0 <= i < j < |fs| ==> fs[i].id != fs[j].id
  }

  /** The rows of a group come from one table: no two have the same id. */
  ghost predicate ProperGroup(g: Group) {
    && DistinctIds(g.missing) && DistinctIds(g.matched)
    && forall m, t :: m in g.missing && t in g.matched ==> m.id != t.id
  }

  ghost predicate OneToOne(ps: seq<Pair>) {
    && (forall i, j :: 0 <= i < j < |ps| ==> ps[i].missing.id != ps[j].missing.id && ps[i].target.id != ps[j].target.id)
    && (forall i, j :: 0 <= i < |ps| && 0 <= j < |ps| ==> ps[i].missing.id != ps[j].target.id)
  }

  ghost predicate Within(ps: seq<Pair>, missing: seq<MediaFile>, matched: seq<MediaFile>) {
    forall k :: 0 <= k < |ps| ==> ps[k].missing in missing && ps[k].target in matched
  }

  ghost predicate Taken(ps: seq<Pair>, n: int, id: string) {
    exists k :: 0 <= k < n <= |ps| && ps[k].target.id == id
  }

  lemma {:induction false} PairingIsWithin(g: Group, missing: seq<MediaFile>, used: set<string>)
    ensures Within(Pairing(g, missing, used), missing, g.matched)
    ensures forall p :: p in Pairing(g, missing, used) ==> p.target.id !in used
  {
    if missing != [] {
      var t := Choose(g, missing[0], used);
      PairingIsWithin(g, missing[1..], if t.Some? then used + {t.value.id} else used);
    }
  }

  lemma {:induction false} PairingIsInjective(g: Group, missing: seq<MediaFile>, used: set<string>)
    requires ProperGroup(g) && DistinctIds(missing) && forall m :: m in missing ==> m in g.missing
    ensures OneToOne(Pairing(g, missing, used))
  {
    if missing != [] {
      var rest := missing[1..];
      match Choose(g, missing[0], used)
      case None =>
        PairingIsInjective(g, rest, used);
      case Some(t) =>
        var later := Pairing(g, rest, used + {t.id});
        PairingIsInjective(g, rest, used + {t.id});
        PairingIsWithin(g, rest, used + {t.id});
        var p := Pair(missing[0], t);
        forall q | q in later ensures Apart(p, q) {
          assert q.missing in rest && q.target in g.matched;
        }
        OneToOneTogether([p], later);
    }
  }

  /** Each missing track is paired at most once, and so is each matched one. */
  lemma PairsAreOneToOne(g: Group)
    requires ProperGroup(g)
    ensures OneToOne(Pairs(g)) && Within(Pairs(g), g.missing, g.matched)
  {
    PairingIsInjective(g, g.missing, {});
    PairingIsWithin(g, g.missing, {});
  }

  /** A pair is exact whenever the missing track still had an exact match; otherwise it has another ground. */
  ghost predicate WellChosen(g: Group, ps: seq<Pair>, used: set<string>, k: nat)
    requires k < |ps|
  {
    var p := ps[k];
    if exists t :: t in g.matched && t.id !in used && !Taken(ps, k, t.id) && t.content == p.missing.content
    then p.target.content == p.missing.content
    else BaseName(p.target.path) == BaseName(p.missing.path) || (|g.missing| == 1 && |g.matched| == 1)
  }

  lemma {:induction false} PairingIsWellChosen(g: Group, missing: seq<MediaFile>, used: set<string>, k: nat)
    requires k < |Pairing(g, missing, used)|
    ensures WellChosen(g, Pairing(g, missing, used), used, k)
    decreases |missing|
  {
    var ps := Pairing(g, missing, used);
    var rest := missing[1..];
    match Choose(g, missing[0], used)
    case None =>
      PairingIsWellChosen(g, rest, used, k);
    case Some(t) =>
      if k > 0 {
        var used' := used + {t.id};
        var later := Pairing(g, rest, used');
        PairingIsWellChosen(g, rest, used', k - 1);
        assert ps[k] == later[k - 1];
        forall x | x in g.matched
          ensures x.id !in used && !Taken(ps, k, x.id) <==> x.id !in used' && !Taken(later, k - 1, x.id)
        {
          TakenLater(ps, later, k, x.id);
        }
      }
  }

  lemma TakenLater(ps: seq<Pair>, later: seq<Pair>, k: nat, id: string)
    requires 0 < k <= |ps| && |ps| == |later| + 1 && ps[1..] == later
    ensures Taken(ps, k, id) <==> ps[0].target.id == id || Taken(later, k - 1, id)
  {
    if j :| 0 <= j < k && ps[j].target.id == id {
      assert j > 0 ==> later[j - 1].target.id == id;
    }
    if j :| 0 <= j < k - 1 && later[j].target.id == id {
      assert ps[j + 1].target.id == id;
    }
  }

  lemma ExactMatchesComeFirst(g: Group, k: nat)
    requires k < |Pairs(g)|
    ensures WellChosen(g, Pairs(g), {}, k)
  {
    PairingIsWellChosen(g, g.missing, {}, k);
  }

  predicate At(fs: seq<MediaFile>, p: MediaFile -> bool, i: int) {
    0 <= i < |fs| && p(fs[i])
  }

  lemma {:induction false} FirstWhereIsFirst(fs: seq<MediaFile>, p: MediaFile -> bool) returns (i: int)
    requires FirstWhere(fs, p).Some?
    ensures At(fs, p, i) && FirstWhere(fs, p) == Some(fs[i])
    ensures forall j :: At(fs, p, j) ==> i <= j
  {
    if p(fs[0]) {
      i := 0;
    } else {
      i := FirstWhereIsFirst(fs[1..], p);
      i := i + 1;
      assert forall j :: At(fs, p, j) ==> At(fs[1..], p, j - 1);
    }
  }

  lemma {:induction false} LastWhereIsLast(fs: seq<MediaFile>, p: MediaFile -> bool) returns (i: int)
    requires LastWhere(fs, p).Some?
    ensures At(fs, p, i) && LastWhere(fs, p) == Some(fs[i])
    ensures forall j :: At(fs, p, j) ==> j <= i
    decreases |fs|
  {
    if p(fs[|fs| - 1]) {
      i := |fs| - 1;
    } else {
      i := LastWhereIsLast(fs[..|fs| - 1], p);
      assert forall j :: At(fs, p, j) ==> At(fs[..|fs| - 1], p, j);
    }
  }

  lemma NoneAt(fs: seq<MediaFile>, p: MediaFile -> bool)
    ensures FirstWhere(fs, p).None? ==> forall j :: !At(fs, p, j)
    ensures LastWhere(fs, p).None? ==> forall j :: !At(fs, p, j)
  {
    forall j | 0 <= j < |fs| ensures fs[j] in fs {
    }
  }

  /** The place of what is picked: the first that satisfies p, else the only one, else the last that satisfies q. */
  ghost predicate IsPicked(fs: seq<MediaFile>, p: MediaFile -> bool, q: MediaFile -> bool, only: bool, i: int) {
    if exists j :: At(fs, p, j) then At(fs, p, i) && forall j :: At(fs, p, j) ==> i <= j
    else if only then i == 0
    else At(fs, q, i) && forall j :: At(fs, q, j) ==> j <= i
  }

  lemma PickExact(fs: seq<MediaFile>, p: MediaFile -> bool, q: MediaFile -> bool, only: bool)
    requires only ==> fs != []
    ensures Pick(fs, p, q, only).Some? ==>
              exists i :: 0 <= i < |fs| && IsPicked(fs, p, q, only, i) && Pick(fs, p, q, only) == Some(fs[i])
    ensures Pick(fs, p, q, only).None? ==> forall i :: !IsPicked(fs, p, q, only, i)
  {
    NoneAt(fs, p);
    NoneAt(fs, q);
    if FirstWhere(fs, p).Some? {
      var i := FirstWhereIsFirst(fs, p);
      assert IsPicked(fs, p, q, only, i);
    } else if only {
      assert IsPicked(fs, p, q, only, 0);
    } else if LastWhere(fs, q).Some? {
      var i := LastWhereIsLast(fs, q);
      assert IsPicked(fs, p, q, only, i);
    }
  }

  /** The target: the first unused equal track, else the only pair, else the last unused equivalent one, else none. */
  lemma ChooseExact(g: Group, m: MediaFile, used: set<string>)
    ensures var p, q, only := FreeEqual(m, used), FreeEquivalent(m, used), OnlyPair(g, used);
            && (Choose(g, m, used).Some? ==>
                  exists i :: 0 <= i < |g.matched| && IsPicked(g.matched, p, q, only, i) && Choose(g, m, used) == Some(g.matched[i]))
            && (Choose(g, m, used).None? ==> forall i :: !IsPicked(g.matched, p, q, only, i))
  {
    PickExact(g.matched, FreeEqual(m, used), FreeEquivalent(m, used), OnlyPair(g, used));
  }

  ghost predicate Paired(ps: seq<Pair>, m: MediaFile) {
    exists k :: 0 <= k < |ps| && ps[k].missing == m
  }

  lemma {:induction false} PairingIsMaximal(g: Group, missing: seq<MediaFile>, used: set<string>, m: MediaFile, t: MediaFile)
    requires m in missing && !Paired(Pairing(g, missing, used), m)
    requires t in g.matched && t.id !in used && !Taken(Pairing(g, missing, used), |Pairing(g, missing, used)|, t.id)
    ensures m.content != t.content && BaseName(m.path) != BaseName(t.path) && !(|g.missing| == 1 && |g.matched| == 1)
    decreases |missing|
  {
    var ps := Pairing(g, missing, used);
    var rest := missing[1..];
    match Choose(g, missing[0], used)
    case None =>
      if m != missing[0] {
        PairingIsMaximal(g, rest, used, m, t);
      }
    case Some(x) =>
      var later := Pairing(g, rest, used + {x.id});
      assert ps[0] == Pair(missing[0], x) && ps[1..] == later;
      TakenLater(ps, later, |ps|, t.id);
      assert m != missing[0];
      forall k | 0 <= k < |later| ensures later[k].missing != m {
        assert ps[k + 1] == later[k];
      }
      PairingIsMaximal(g, rest, used + {x.id}, m, t);
  }

  /** No two tracks left over on either side would have made a pair. */
  lemma NothingLeftToPair(g: Group, m: MediaFile, t: MediaFile)
    requires m in g.missing && !Paired(Pairs(g), m)
    requires t in g.matched && !Taken(Pairs(g), |Pairs(g)|, t.id)
    ensures m.content != t.content && BaseName(m.path) != BaseName(t.path) && !(|g.missing| == 1 && |g.matched| == 1)
  {
    PairingIsMaximal(g, g.missing, {}, m, t);
  }

  // ----- The moves -----

  /** The places where the library has a track that is not missing. */
  function Live(db: Table): set<(int, string)> {
    set id | id in db && !db[id].missing :: (db[id].libraryId, db[id].path)
  }

  /** No two live rows are at one place. */
  ghost predicate UniquePlaces(db: Table) {
    forall a, b :: a in db && b in db && a != b && !db[a].missing && !db[b].missing ==>
                     db[a].libraryId != db[b].libraryId || db[a].path != db[b].path
  }

  /** The pair's rows are as they were read. */
  predicate Fresh(db: Table, p: Pair) {
    && p.missing.id in db && db[p.missing.id] == p.missing && p.missing.missing
    && p.target.id in db && db[p.target.id] == p.target && !p.target.missing
  }

  ghost predicate Snapshot(db: Table, ps: seq<Pair>) {
    forall k :: 0 <= k < |ps| ==> Fresh(db, ps[k])
  }

  /** The missing track's identity and history at the target's place. */
  function Transplant(p: Pair): MediaFile {
    p.target.(id := p.missing.id, createdAt := p.missing.createdAt, birthTime := p.missing.birthTime)
  }

  /**
   What a move writes, whatever the table has become since the pair was read: the target's columns under the missing
   id, with the times of the row that is there; if it has gone, with those that were read.
   */
  lemma MoveExact(db: Table, p: Pair, now: nat)
    requires p.missing.id != p.target.id
    ensures var t, id := Move(db, p, now), p.missing.id;
            && t.Keys == db.Keys + {id} - {p.target.id}
            && (forall o :: o in db && o != id && o != p.target.id ==> t[o] == db[o])
            && t[id] == p.target.(id := id,
                                  createdAt := if id in db then db[id].createdAt
                                               else if p.missing.createdAt > 0 then p.missing.createdAt else now,
                                  birthTime := if id in db then db[id].birthTime else p.target.birthTime)
  {
  }

  lemma MoveConserves(db: Table, p: Pair, now: nat)
    requires Fresh(db, p)
    ensures var t := Move(db, p, now);
            && t == (db - {p.target.id})[p.missing.id := Transplant(p)]
            && Live(t) == Live(db) && |t| == |db| - 1
            && (UniquePlaces(db) ==> UniquePlaces(t))
  {
    var t := Move(db, p, now);
    assert t == (db - {p.target.id})[p.missing.id := Transplant(p)];
    var place := (p.target.libraryId, p.target.path);
    forall x | x in Live(db) ensures x in Live(t) {
      var id :| id in db && !db[id].missing && x == (db[id].libraryId, db[id].path);
      if id == p.target.id {
        assert x == (t[p.missing.id].libraryId, t[p.missing.id].path);
      } else {
        assert t[id] == db[id];
      }
    }
    forall x | x in Live(t) ensures x in Live(db) {
      var id :| id in t && !t[id].missing && x == (t[id].libraryId, t[id].path);
      assert x == if id == p.missing.id then place else (db[id].libraryId, db[id].path);
    }
    assert t.Keys == db.Keys - {p.target.id};
  }

  /** The pair has been moved. */
  predicate Moved(db: Table, p: Pair) {
    p.missing.id in db && db[p.missing.id] == Transplant(p) && p.target.id !in db
  }

  /** None of the pairs has to do with the row. */
  ghost predicate Outside(ps: seq<Pair>, id: string) {
    forall k :: 0 <= k < |ps| ==> id != ps[k].missing.id && id != ps[k].target.id
  }

  ghost predicate SameAt(s: Table, t: Table, id: string) {
    (id in t <==> id in s) && (id in t ==> t[id] == s[id])
  }

  lemma FreshAfterMove(db: Table, ps: seq<Pair>, now: nat)
    requires ps != [] && OneToOne(ps) && Snapshot(db, ps)
    ensures Snapshot(Move(db, ps[0], now), ps[1..]) && OneToOne(ps[1..])
  {
    var s, rest := Move(db, ps[0], now), ps[1..];
    assert Fresh(db, ps[0]);
    MoveConserves(db, ps[0], now);
    forall k | 0 <= k < |rest| ensures Fresh(s, rest[k]) {
      assert Fresh(db, ps[k + 1]);
    }
  }

  /** However many moves are made, no place is gained or lost, and one row is dropped for each. */
  lemma {:induction false} MovesConserve(db: Table, ps: seq<Pair>, now: nat)
    requires OneToOne(ps) && Snapshot(db, ps)
    ensures var t := AfterMoves(db, ps, now);
            Live(t) == Live(db) && |t| == |db| - |ps| && (UniquePlaces(db) ==> UniquePlaces(t))
    decreases |ps|
  {
    if ps != [] {
      assert Fresh(db, ps[0]);
      MoveConserves(db, ps[0], now);
      FreshAfterMove(db, ps, now);
      MovesConserve(Move(db, ps[0], now), ps[1..], now);
    }
  }

  lemma {:induction false} OthersStay(db: Table, ps: seq<Pair>, now: nat, id: string)
    requires OneToOne(ps) && Snapshot(db, ps) && Outside(ps, id)
    ensures SameAt(db, AfterMoves(db, ps, now), id)
    decreases |ps|
  {
    if ps != [] {
      assert Fresh(db, ps[0]);
      MoveConserves(db, ps[0], now);
      FreshAfterMove(db, ps, now);
      OthersStay(Move(db, ps[0], now), ps[1..], now, id);
    }
  }

  /** Every paired track survives under its own id at its new place, with its history; the new row is gone. */
  lemma {:induction false} MovesTransplant(db: Table, ps: seq<Pair>, now: nat, k: nat)
    requires OneToOne(ps) && Snapshot(db, ps) && k < |ps|
    ensures Moved(AfterMoves(db, ps, now), ps[k])
    decreases |ps|
  {
    var p, rest := ps[0], ps[1..];
    var s := Move(db, p, now);
    assert Fresh(db, p);
    MoveConserves(db, p, now);
    FreshAfterMove(db, ps, now);
    if k == 0 {
      OthersStay(s, rest, now, p.missing.id);
      OthersStay(s, rest, now, p.target.id);
    } else {
      MovesTransplant(s, rest, now, k - 1);
    }
  }

  /** Processing a stale copy of a group again changes no row, although it counts its tracks again. */
  lemma MovingAgainIsHarmless(db: Table, ps: seq<Pair>, now: nat, later: nat)
    requires OneToOne(ps) && Snapshot(db, ps)
    ensures var t := AfterMoves(db, ps, now); AfterMoves(t, ps, later) == t
  {
    var t := AfterMoves(db, ps, now);
    forall k | 0 <= k < |ps| ensures Moved(t, ps[k]) {
      MovesTransplant(db, ps, now, k);
    }
    AlreadyMoved(t, ps, later);
  }

  lemma {:induction false} AlreadyMoved(t: Table, ps: seq<Pair>, now: nat)
    requires forall k :: 0 <= k < |ps| ==> Moved(t, ps[k])
    ensures AfterMoves(t, ps, now) == t
    decreases |ps|
  {
    if ps != [] {
      assert Moved(t, ps[0]);
      assert Move(t, ps[0], now) == t;
      AlreadyMoved(t, ps[1..], now);
    }
  }

  // ----- A whole library -----

  function AllPairs(groups: seq<Group>): seq<Pair> {
    if groups == [] then [] else Pairs(groups[0]) + AllPairs(groups[1..])
  }

  lemma {:induction false} MovesConcatenate(db: Table, ps: seq<Pair>, qs: seq<Pair>, now: nat)
    ensures AfterMoves(db, ps + qs, now) == AfterMoves(AfterMoves(db, ps, now), qs, now)
    decreases |ps|
  {
    if ps == [] {
      assert ps + qs == qs;
    } else {
      assert (ps + qs)[1..] == ps[1..] + qs;
      MovesConcatenate(Move(db, ps[0], now), ps[1..], qs, now);
    }
  }

  /** What processing the groups one after the other, without a failure, makes of the table. */
  function AfterGroups(db: Table, groups: seq<Group>, now: nat): Table
    decreases |groups|
  {
    if groups == [] then db else AfterGroups(AfterMoves(db, Pairs(groups[0]), now), groups[1..], now)
  }

  /** Group by group or all pairs at once is the same. */
  lemma {:induction false} GroupByGroup(db: Table, groups: seq<Group>, now: nat)
    ensures AfterGroups(db, groups, now) == AfterMoves(db, AllPairs(groups), now)
    decreases |groups|
  {
    if groups != [] {
      GroupByGroup(AfterMoves(db, Pairs(groups[0]), now), groups[1..], now);
      MovesConcatenate(db, Pairs(groups[0]), AllPairs(groups[1..]), now);
    }
  }

  /** Every missing row with a persistent id is in the one group of that id. */
  lemma {:induction false} GroupsCover(rows: seq<MediaFile>, pids: seq<string>, f: MediaFile)
    requires f in rows && f.missing && f.pid != "" && f.pid in pids
    ensures GroupOf(rows, f.pid) in GroupsOf(rows, pids) && f in GroupOf(rows, f.pid).missing
  {
    if pids[|pids| - 1] != f.pid {
      GroupsCover(rows, pids[..|pids| - 1], f);
    }
  }

  lemma {:induction false} GroupsAreSelections(rows: seq<MediaFile>, pids: seq<string>)
    requires forall i, j :: 0 <= i < j < |pids| ==> pids[i] != pids[j]
    ensures var gs := GroupsOf(rows, pids);
            && (forall g :: g in gs ==> g == GroupOf(rows, g.pid) && g.pid in pids && g.pid != "" && g.missing != [])
            && (forall i, j :: 0 <= i < j < |gs| ==> gs[i].pid != gs[j].pid)
  {
    if pids != [] {
      GroupsAreSelections(rows, pids[..|pids| - 1]);
    }
  }

  lemma {:induction false} PidsAreDistinct(rows: seq<MediaFile>)
    ensures forall i, j :: 0 <= i < j < |Pids(rows)| ==> Pids(rows)[i] != Pids(rows)[j]
  {
    if rows != [] {
      PidsAreDistinct(rows[..|rows| - 1]);
    }
  }

  lemma {:induction false} SelectIsDistinct(rows: seq<MediaFile>, pid: string, missing: bool)
    requires DistinctIds(rows)
    ensures DistinctIds(Select(rows, pid, missing))
  {
    if rows != [] {
      SelectIsDistinct(rows[..|rows| - 1], pid, missing);
    }
  }

  lemma GroupIsProper(rows: seq<MediaFile>, pid: string)
    requires DistinctIds(rows)
    ensures ProperGroup(GroupOf(rows, pid))
  {
    SelectIsDistinct(rows, pid, true);
    SelectIsDistinct(rows, pid, false);
  }

  /** A pair of a group of the rows. */
  ghost predicate PairOf(rows: seq<MediaFile>, p: Pair) {
    && p.missing in rows && p.target in rows && p.missing.missing && !p.target.missing
    && p.missing.pid == p.target.pid
  }

  lemma {:induction false} AllPairsAreOneToOne(rows: seq<MediaFile>, groups: seq<Group>)
    requires DistinctIds(rows)
    requires forall g :: g in groups ==> g == GroupOf(rows, g.pid)
    requires forall i, j :: 0 <= i < j < |groups| ==> groups[i].pid != groups[j].pid
    ensures var ps := AllPairs(groups);
            && OneToOne(ps)
            && forall p :: p in ps ==> PairOf(rows, p) && exists g :: g in groups && g.pid == p.missing.pid
  {
    if groups != [] {
      var g, rest := groups[0], groups[1..];
      var ps, qs := Pairs(g), AllPairs(rest);
      AllPairsAreOneToOne(rows, rest);
      GroupIsProper(rows, g.pid);
      PairsAreOneToOne(g);
      forall p | p in ps ensures PairOf(rows, p) && p.missing.pid == g.pid {
      }
      forall p, q | p in ps && q in qs ensures Apart(p, q) {
        assert PairOf(rows, p) && PairOf(rows, q) && p.missing.pid != q.missing.pid;
      }
      OneToOneTogether(ps, qs);
    }
  }

  ghost predicate Apart(p: Pair, q: Pair) {
    && p.missing.id != q.missing.id && p.target.id != q.target.id
    && p.missing.id != q.target.id && p.target.id != q.missing.id
  }

  lemma OneToOneTogether(ps: seq<Pair>, qs: seq<Pair>)
    requires OneToOne(ps) && OneToOne(qs) && forall p, q :: p in ps && q in qs ==> Apart(p, q)
    ensures OneToOne(ps + qs)
  {
    var all := ps + qs;
    forall i, j | 0 <= i < j < |all|
      ensures all[i].missing.id != all[j].missing.id && all[i].target.id != all[j].target.id
      ensures all[i].missing.id != all[j].target.id && all[j].missing.id != all[i].target.id
    {
      if i < |ps| <= j {
        assert Apart(ps[i], qs[j - |ps|]);
      }
    }
    forall i | 0 <= i < |all| ensures all[i].missing.id != all[i].target.id {
      assert all[i] == if i < |ps| then ps[i] else qs[i - |ps|];
    }
  }

  lemma PhaseReadsSnapshot(db: Table, rows: seq<MediaFile>, n: nat)
    requires DistinctIds(rows) && forall f :: f in rows ==> f.id in db && db[f.id] == f
    requires n <= |AllPairs(GroupsOf(rows, Pids(rows)))|
    ensures var ps := AllPairs(GroupsOf(rows, Pids(rows)))[..n]; OneToOne(ps) && Snapshot(db, ps)
  {
    var all := AllPairs(GroupsOf(rows, Pids(rows)));
    PidsAreDistinct(rows);
    GroupsAreSelections(rows, Pids(rows));
    AllPairsAreOneToOne(rows, GroupsOf(rows, Pids(rows)));
    assert forall p :: p in all ==> PairOf(rows, p);
    FirstOnes(db, rows, all, n);
  }

  lemma FirstOnes(db: Table, rows: seq<MediaFile>, all: seq<Pair>, n: nat)
    requires forall f :: f in rows ==> f.id in db && db[f.id] == f
    requires OneToOne(all) && (forall p :: p in all ==> PairOf(rows, p)) && n <= |all|
    ensures OneToOne(all[..n]) && Snapshot(db, all[..n])
  {
    forall k | 0 <= k < n ensures Fresh(db, all[k]) {
      assert PairOf(rows, all[k]);
    }
  }

  /**
   For rows read from one table, with as many moves made as there may be before one fails: places are kept,
   each move dropped a row and has taken effect, and rows outside the moves are as they were.
   */
  lemma PhaseConserves(db: Table, rows: seq<MediaFile>, n: nat, now: nat)
    requires DistinctIds(rows) && forall f :: f in rows ==> f.id in db && db[f.id] == f
    requires n <= |AllPairs(GroupsOf(rows, Pids(rows)))|
    ensures var ps := AllPairs(GroupsOf(rows, Pids(rows)))[..n];
            var t := AfterMoves(db, ps, now);
            && Live(t) == Live(db) && |t| == |db| - n
            && (UniquePlaces(db) ==> UniquePlaces(t))
            && (forall k :: 0 <= k < n ==> Moved(t, ps[k]))
            && (forall id :: Outside(ps, id) ==> SameAt(db, t, id))
  {
    var ps := AllPairs(GroupsOf(rows, Pids(rows)))[..n];
    PhaseReadsSnapshot(db, rows, n);
    MovesConserve(db, ps, now);
    forall k | 0 <= k < n ensures Moved(AfterMoves(db, ps, now), ps[k]) {
      MovesTransplant(db, ps, now, k);
    }
    forall id | Outside(ps, id) ensures SameAt(db, AfterMoves(db, ps, now), id) {
      OthersStay(db, ps, now, id);
    }
  }
}
