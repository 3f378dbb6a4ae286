/** What each lifecycle operation makes of a plugin, column by column. */
module PluginEffects {
  import opened Wrappers
  import opened PluginLifecycle
  import opened PluginSafety

  // ----- Enabling, disabling, settings -----

  /** The file at this path holds a package with this manifest. */
  predicate Packaged(s: Store, extract: Extractor, path: string, m: Manifest) {
    path in s.disk && s.disk[path].Readable? && extract(s.disk[path].sha256) == Ok(m)
  }

  /** What a reader is told of the file at this path. */
  function PackageAt(s: Store, extract: Extractor, path: string): Result<Manifest> {
    if path in s.disk && s.disk[path].Readable? then extract(s.disk[path].sha256) else Err("unreadable file")
  }

  /** The row grants what the manifest asks for: everybody, or somebody by name. */
  predicate Grants(m: Manifest, p: Plugin) {
    && (m.needsUsers && !p.allUsers ==> p.users.Listed? && p.users.items != [])
    && (m.needsLibrary && !p.allLibraries ==> p.libraries.Listed? && p.libraries.items != [])
  }

  /** Nothing on the way from the package into memory fails. */
  predicate Loadable(p: Plugin, compiles: bool) {
    !p.users.Malformed? && !p.libraries.Malformed? && compiles
  }

  predicate UnchangedRows(s: Store, t: Store) {
    t.db == s.db && t.loaded == s.loaded
  }

  /** A plugin that is granted what its package asks for and can be loaded ends enabled, and runs that package. */
  lemma EnableExact(s: Store, extract: Extractor, id: string, m: Manifest, compiles: bool)
    requires id in s.db && !s.db[id].enabled && Packaged(s, extract, s.db[id].path, m) && Grants(m, s.db[id])
    ensures var t := Apply(s, extract, Enable(id, compiles));
            && t.db.Keys == s.db.Keys
            && if Loadable(s.db[id], compiles) then
                 t.db[id] == s.db[id].(enabled := true, lastError := "") && t.loaded == s.loaded[id := m]
               else
                 t.db[id] == s.db[id].(lastError := t.db[id].lastError) && t.db[id].lastError != "" && t.loaded == s.loaded
  {
  }

  lemma EnableNeedsGrants(s: Store, extract: Extractor, id: string, m: Manifest, compiles: bool)
    requires id in s.db && (s.db[id].enabled || (Packaged(s, extract, s.db[id].path, m) && !Grants(m, s.db[id])))
    ensures UnchangedRows(s, Apply(s, extract, Enable(id, compiles)))
  {
  }

  lemma EnableTouchesOne(s: Store, extract: Extractor, id: string, compiles: bool)
    ensures var t := Apply(s, extract, Enable(id, compiles)); OnlyTouches(s, t, id) && t.disk == s.disk
  {
  }

  /** Without a row or a readable package nothing is enabled. */
  lemma EnableNeedsPackage(s: Store, extract: Extractor, id: string, compiles: bool)
    requires id !in s.db || PackageAt(s, extract, s.db[id].path).Err?
    ensures UnchangedRows(s, Apply(s, extract, Enable(id, compiles)))
  {
  }

  lemma DisableExact(s: Store, extract: Extractor, id: string)
    ensures var t := Apply(s, extract, Disable(id));
            && OnlyTouches(s, t, id) && t.disk == s.disk && t.db.Keys == s.db.Keys
            && (id in s.db ==> t.db[id] == s.db[id].(enabled := false))
            && (id in t.loaded <==> id in s.loaded && !(id in s.db && s.db[id].enabled))
            && (id in t.loaded ==> t.loaded[id] == s.loaded[id])
  {
  }

  /** The row with the columns of the setting replaced, and no other. */
  lemma SettingsExact(p: Plugin, config: string, users: JsonList<string>, libraries: JsonList<int>, all: bool, write: bool)
    ensures WithSettings(p, SetConfig(config)) == p.(config := config)
    ensures WithSettings(p, SetUsers(users, all)) == p.(users := users, allUsers := all)
    ensures WithSettings(p, SetLibraries(libraries, all, write))
            == p.(libraries := libraries, allLibraries := all, allowWriteAccess := write)
  {
  }

  /** The plugin goes on running after the saving. */
  predicate GoesOn(p: Plugin, m: Manifest, compiles: bool) {
    p.enabled && Grants(m, p) && Loadable(p, compiles)
  }

  lemma SavedRow(s: Store, extract: Extractor, id: string, p: Plugin, m: Manifest, compiles: bool)
    requires Packaged(s, extract, p.path, m)
    ensures var t := AfterSaving(s, extract, id, p, compiles);
            && id in t.db
            && t.db[id] == p.(enabled := GoesOn(p, m, compiles), lastError := t.db[id].lastError)
            && (if p.enabled && Grants(m, p) && !Loadable(p, compiles) then t.db[id].lastError != ""
                else t.db[id].lastError == p.lastError)
  {
  }

  lemma SavedRuns(s: Store, extract: Extractor, id: string, p: Plugin, m: Manifest, compiles: bool)
    requires Packaged(s, extract, p.path, m)
    ensures AfterSaving(s, extract, id, p, compiles).loaded
            == if !p.enabled then s.loaded else if GoesOn(p, m, compiles) then s.loaded[id := m] else s.loaded - {id}
  {
  }

  /** New settings are always stored; a running plugin goes on with its package, if it is granted and can be loaded. */
  lemma UpdateExact(s: Store, extract: Extractor, id: string, u: Settings, m: Manifest, compiles: bool)
    requires id in s.db && Packaged(s, extract, s.db[id].path, m)
    ensures var t, p := Apply(s, extract, Update(id, u, compiles)), WithSettings(s.db[id], u);
            && id in t.db
            && t.db[id] == p.(enabled := s.db[id].enabled && Grants(m, p) && Loadable(p, compiles), lastError := t.db[id].lastError)
            && (s.db[id].enabled && Grants(m, p) && !Loadable(p, compiles) ==> t.db[id].lastError != "")
            && t.loaded == if !s.db[id].enabled then s.loaded else if t.db[id].enabled then s.loaded[id := m] else s.loaded - {id}
  {
    SavedRow(s, extract, id, WithSettings(s.db[id], u), m, compiles);
    SavedRuns(s, extract, id, WithSettings(s.db[id], u), m, compiles);
  }

  lemma SavingTouchesOne(s: Store, extract: Extractor, id: string, p: Plugin, compiles: bool)
    ensures var t := AfterSaving(s, extract, id, p, compiles); OnlyTouches(s, t, id) && t.disk == s.disk
  {
  }

  lemma UpdateTouchesOne(s: Store, extract: Extractor, id: string, u: Settings, compiles: bool)
    ensures var t := Apply(s, extract, Update(id, u, compiles)); OnlyTouches(s, t, id) && t.disk == s.disk
  {
    if id in s.db {
      SavingTouchesOne(s, extract, id, WithSettings(s.db[id], u), compiles);
    }
  }

  lemma SavedWithoutPackage(s: Store, extract: Extractor, id: string, p: Plugin, compiles: bool)
    requires p.enabled && PackageAt(s, extract, p.path).Err?
    ensures var t := AfterSaving(s, extract, id, p, compiles);
            && t.db == s.db[id := p.(enabled := false, lastError := t.db[id].lastError)] && t.loaded == s.loaded - {id}
            && (t.db[id].lastError != "" || PackageAt(s, extract, p.path) == Err(""))
  {
  }

  /** If its package has gone, an enabled plugin is disabled with an error, whatever is granted. */
  lemma UpdateNeedsPackage(s: Store, extract: Extractor, id: string, u: Settings, compiles: bool)
    requires id in s.db && s.db[id].enabled && PackageAt(s, extract, s.db[id].path).Err?
    ensures var t, p := Apply(s, extract, Update(id, u, compiles)), WithSettings(s.db[id], u);
            && id in t.db && t.db[id] == p.(enabled := false, lastError := t.db[id].lastError)
            && (t.db[id].lastError != "" || PackageAt(s, extract, s.db[id].path) == Err(""))
            && t.loaded == s.loaded - {id}
  {
    SavedWithoutPackage(s, extract, id, WithSettings(s.db[id], u), compiles);
  }

  lemma UpdateNeedsRow(s: Store, extract: Extractor, id: string, u: Settings, compiles: bool)
    requires id !in s.db
    ensures Apply(s, extract, Update(id, u, compiles)) == s
  {
  }

  // ----- Synchronising -----

  /** A discovered plugin is disabled, knows its package, and is granted nothing. */
  lemma DiscoveredRow(s: Store, extract: Extractor, files: map<string, string>, id: string, m: Manifest)
    requires id !in s.db && id in files && Packaged(s, extract, files[id], m)
    ensures var t := Apply(s, extract, Sync(files));
            && id in t.db && !t.db[id].enabled && t.db[id].path == files[id] && t.db[id].manifest == m
            && t.db[id].sha256 == s.disk[files[id]].sha256 && t.db[id].config == "" && t.db[id].lastError == ""
            && t.db[id].users == Blank && t.db[id].libraries == Blank
            && !t.db[id].allUsers && !t.db[id].allLibraries && !t.db[id].allowWriteAccess
  {
  }

  /** A package that changed: the row takes its path, manifest and hash, keeps every setting, and is disabled. */
  lemma ChangedRow(s: Store, extract: Extractor, files: map<string, string>, id: string, m: Manifest)
    requires id in s.db && id in files && Packaged(s, extract, files[id], m) && s.disk[files[id]].sha256 != s.db[id].sha256
    ensures var t := Apply(s, extract, Sync(files));
            && id in t.db && (id in t.loaded <==> id in s.loaded && !s.db[id].enabled)
            && t.db[id] == s.db[id].(path := files[id], manifest := m, sha256 := s.disk[files[id]].sha256,
                                     enabled := false, lastError := "")
  {
  }

  /** A package that changed and cannot be read: the row keeps what it knew, and the error, and is disabled. */
  lemma BrokenRow(s: Store, extract: Extractor, files: map<string, string>, id: string)
    requires id in s.db && id in files && files[id] in s.disk && s.disk[files[id]].Readable?
    requires s.disk[files[id]].sha256 != s.db[id].sha256 && extract(s.disk[files[id]].sha256).Err?
    ensures var t := Apply(s, extract, Sync(files));
            && id in t.db && (id in t.loaded <==> id in s.loaded && !s.db[id].enabled)
            && t.db[id] == s.db[id].(enabled := false, lastError := extract(s.disk[files[id]].sha256).message)
  {
  }

  /** An event for a file that is gone removes the row and unloads the plugin; one that cannot be hashed does nothing. */
  lemma FileGone(s: Store, extract: Extractor, name: string, path: string)
    ensures var t := Apply(s, extract, FileEvent(name, path));
            && (path !in s.disk ==>
                  && t.db == s.db - {name}
                  && t.loaded == if name in s.db && s.db[name].enabled then s.loaded - {name} else s.loaded)
            && (path in s.disk && s.disk[path].Unreadable? ==> UnchangedRows(s, t))
            && t.disk == s.disk
  {
    assert name !in s.db ==> s.db - {name} == s.db;
  }

  /** What a sync leaves in memory: all but enabled plugins whose file has changed, cannot be hashed, or has gone. */
  lemma SyncUnloadsExact(s: Store, extract: Extractor, files: map<string, string>, id: string)
    ensures var t := Apply(s, extract, Sync(files));
            && (id in t.loaded <==>
                && id in s.loaded
                && (id in s.db && s.db[id].enabled ==>
                      id in files && files[id] in s.disk && s.disk[files[id]] == Readable(s.db[id].sha256)))
            && (id in t.loaded ==> t.loaded[id] == s.loaded[id])
  {
  }

  /** And an event: all but the plugin of its name, if it is enabled and its file has changed or gone. */
  lemma FileEventUnloadsExact(s: Store, extract: Extractor, name: string, path: string)
    ensures var t := Apply(s, extract, FileEvent(name, path));
            t.loaded == if name in s.db && s.db[name].enabled
                           && (path in s.disk ==> s.disk[path].Readable? && s.disk[path].sha256 != s.db[name].sha256)
                        then s.loaded - {name} else s.loaded
  {
  }

  lemma DiskChangeExact(s: Store, extract: Extractor, disk: map<string, File>)
    ensures var t := Apply(s, extract, ChangeDisk(disk)); t.disk == disk && UnchangedRows(s, t)
  {
  }

  // ----- Removing from a list -----

  /** The places of the items, in order. */
  ghost predicate Places<T>(left: seq<T>, items: seq<T>, at: seq<nat>) {
    && |at| == |left|
    && (forall k :: 0 <= k < |at| ==> at[k] < |items| && left[k] == items[at[k]])
    && (forall j, k :: 0 <= j < k < |at| ==> at[j] < at[k])
  }

  /** Everything but x, as often as it was there and in its order. */
  ghost predicate Without<T>(items: seq<T>, x: T, left: seq<T>) {
    multiset(left) == multiset(items)[x := 0] && exists at :: Places(left, items, at)
  }

  lemma {:induction false} RemoveKeepsCounts<T>(items: seq<T>, x: T)
    ensures multiset(Remove(items, x)) == multiset(items)[x := 0]
  {
    if items != [] {
      RemoveKeepsCounts(items[1..], x);
      assert items == [items[0]] + items[1..];
    }
  }

  function Shifted(at: seq<nat>): (r: seq<nat>)
    ensures |r| == |at| && forall k :: 0 <= k < |at| ==> r[k] == at[k] + 1
  {
    seq(|at|, k requires 0 <= k < |at| => at[k] + 1)
  }

  lemma PlacesInRest<T>(left: seq<T>, items: seq<T>, at: seq<nat>)
    requires items != [] && Places(left, items[1..], at)
    ensures Places(left, items, Shifted(at)) && Places([items[0]] + left, items, [0] + Shifted(at))
  {
    var moved := Shifted(at);
    forall k | 0 <= k < |at| ensures moved[k] < |items| && left[k] == items[moved[k]] {
      assert items[1..][at[k]] == items[at[k] + 1];
    }
    var all, first := [0] + moved, [items[0]] + left;
    forall k | 0 <= k < |all| ensures all[k] < |items| && first[k] == items[all[k]] {
      assert k > 0 ==> all[k] == moved[k - 1] && first[k] == left[k - 1];
    }
  }

  lemma {:induction false} RemoveKeepsOrder<T>(items: seq<T>, x: T) returns (at: seq<nat>)
    ensures Places(Remove(items, x), items, at)
  {
    if items == [] {
      at := [];
    } else {
      var later := RemoveKeepsOrder(items[1..], x);
      var left := Remove(items[1..], x);
      PlacesInRest(left, items, later);
      at := if items[0] == x then Shifted(later) else [0] + Shifted(later);
      assert Remove(items, x) == if items[0] == x then left else [items[0]] + left;
    }
  }

  /** Removing x keeps everything else. */
  lemma RemoveKeepsOthers<T>(items: seq<T>, x: T)
    ensures Without(items, x, Remove(items, x))
    ensures forall y :: y in Remove(items, x) <==> y in items && y != x
  {
    RemoveKeepsCounts(items, x);
    var at := RemoveKeepsOrder(items, x);
    forall y ensures y in Remove(items, x) <==> y in items && y != x {
      assert y in Remove(items, x) <==> y in multiset(Remove(items, x));
    }
  }

  // ----- Deleting users and libraries -----

  /** Nobody but x is listed. */
  ghost predicate OnlyLists<T>(l: JsonList<T>, x: T) {
    l.Blank? || (l.Listed? && forall y :: y in l.items ==> y == x)
  }

  ghost predicate ListedWithout<T>(l: JsonList<T>, x: T, l': JsonList<T>) {
    if l.Listed? then l'.Listed? && Without(l.items, x, l'.items) else l' == l
  }

  lemma RemovedFromList<T>(l: JsonList<T>, x: T)
    ensures ListedWithout(l, x, RemoveFrom(l, x))
    ensures Empty(RemoveFrom(l, x)) <==> OnlyLists(l, x)
  {
    if l.Listed? {
      if x !in l.items {
        RemoveAbsent(l.items, x);
      }
      assert RemoveFrom(l, x) == Listed(Remove(l.items, x));
      NothingLeft(l.items, x);
      RemoveKeepsOthers(l.items, x);
    }
  }

  lemma NothingLeft<T>(items: seq<T>, x: T)
    ensures Remove(items, x) == [] <==> forall y :: y in items ==> y == x
  {
    RemoveKeepsOthers(items, x);
    var left := Remove(items, x);
    assert left != [] ==> left[0] in left;
  }

  lemma RowWithoutUser(p: Plugin, userId: string)
    ensures var q := UserDropped(p, userId);
            && ListedWithout(p.users, userId, q.users) && q == p.(users := q.users, enabled := q.enabled)
            && (q.enabled <==> p.enabled && !(p.manifest.needsUsers && !p.allUsers && OnlyLists(p.users, userId)))
  {
    RemovedFromList(p.users, userId);
  }

  lemma RowWithoutLibrary(p: Plugin, libraryId: int)
    ensures var q := LibraryDropped(p, libraryId);
            && ListedWithout(p.libraries, libraryId, q.libraries) && q == p.(libraries := q.libraries, enabled := q.enabled)
            && (q.enabled <==> p.enabled && !(p.manifest.needsLibrary && !p.allLibraries && OnlyLists(p.libraries, libraryId)))
  {
    RemovedFromList(p.libraries, libraryId);
  }

  /** Plugins whose rows are disabled go from memory, and no others. */
  ghost predicate OnlyDisabledUnloaded(s: Store, t: Store) {
    && (forall id :: id in t.loaded <==> id in s.loaded && (id in t.db ==> t.db[id].enabled))
    && forall id :: id in t.loaded ==> t.loaded[id] == s.loaded[id]
  }

  /**
   Deleting a user takes exactly that user out of every list, and disables exactly the enabled plugins whose row needs
   users and lists nobody else. Nothing else in the table changes, and disabled plugins are unloaded.
   */
  lemma UserDeletion(s: Store, extract: Extractor, userId: string)
    requires UsersReadable(s)
    ensures var t := Apply(s, extract, DeleteUser(userId));
            && t.db.Keys == s.db.Keys && t.disk == s.disk && OnlyDisabledUnloaded(s, t)
            && forall id :: id in s.db ==>
                              var p, q := s.db[id], t.db[id];
                              && ListedWithout(p.users, userId, q.users) && q == p.(users := q.users, enabled := q.enabled)
                              && (q.enabled <==>
                                  p.enabled && !(p.manifest.needsUsers && !p.allUsers && OnlyLists(p.users, userId)))
  {
    forall id | id in s.db {
      RowWithoutUser(s.db[id], userId);
    }
  }

  lemma LibraryDeletion(s: Store, extract: Extractor, libraryId: int)
    requires LibrariesReadable(s)
    ensures var t := Apply(s, extract, DeleteLibrary(libraryId));
            && t.db.Keys == s.db.Keys && t.disk == s.disk && OnlyDisabledUnloaded(s, t)
            && forall id :: id in s.db ==>
                              var p, q := s.db[id], t.db[id];
                              && ListedWithout(p.libraries, libraryId, q.libraries)
                              && q == p.(libraries := q.libraries, enabled := q.enabled)
                              && (q.enabled <==>
                                  p.enabled && !(p.manifest.needsLibrary && !p.allLibraries && OnlyLists(p.libraries, libraryId)))
  {
    forall id | id in s.db {
      RowWithoutLibrary(s.db[id], libraryId);
    }
  }

  /** If some list is not JSON, the deletion changes no row; disabled plugins are unloaded all the same. */
  lemma DeletionNeedsLists(s: Store, extract: Extractor, userId: string, libraryId: int)
    ensures !UsersReadable(s) ==> Apply(s, extract, DeleteUser(userId)).db == s.db
    ensures !LibrariesReadable(s) ==> Apply(s, extract, DeleteLibrary(libraryId)).db == s.db
  {
  }

  /** A running plugin that lists somebody else. */
  ghost predicate RunsFor<T>(s: Store, id: string, l: JsonList<T>, x: T, other: T) {
    id in s.db && s.db[id].enabled && id in s.loaded && l.Listed? && other in l.items && other != x
  }

  lemma OthersStayListed<T>(l: JsonList<T>, x: T, other: T)
    requires l.Listed? && other in l.items && other != x
    ensures RemoveFrom(l, x).Listed? && other in RemoveFrom(l, x).items
  {
    RemoveKeepsOthers(l.items, x);
  }

  /** A plugin that still lists somebody after the deletion goes on running, with them. */
  lemma UsersGoOn(s: Store, extract: Extractor, userId: string, other: string, id: string)
    requires id in s.db && RunsFor(s, id, s.db[id].users, userId, other)
    ensures var t := Apply(s, extract, DeleteUser(userId));
            && id in t.db && t.db[id].enabled && id in t.loaded && t.loaded[id] == s.loaded[id]
            && t.db[id].users.Listed? && other in t.db[id].users.items
  {
    OthersStayListed(s.db[id].users, userId, other);
  }

  lemma LibrariesGoOn(s: Store, extract: Extractor, libraryId: int, other: int, id: string)
    requires id in s.db && RunsFor(s, id, s.db[id].libraries, libraryId, other)
    ensures var t := Apply(s, extract, DeleteLibrary(libraryId));
            && id in t.db && t.db[id].enabled && id in t.loaded && t.loaded[id] == s.loaded[id]
            && t.db[id].libraries.Listed? && other in t.db[id].libraries.items
  {
    OthersStayListed(s.db[id].libraries, libraryId, other);
  }

  // ----- Starting -----

  lemma ErrorsAreCleared(s: Store)
    ensures var t := ErrorsCleared(s);
            && t.db.Keys == s.db.Keys && t.loaded == s.loaded && t.disk == s.disk
            && forall id :: id in s.db ==> t.db[id] == s.db[id].(lastError := "")
  {
  }

  /** What loading makes of each row, and whether it runs. */
  lemma LoadExact(s: Store, extract: Extractor, compiling: set<string>, id: string, m: Manifest)
    requires id in s.db && Packaged(s, extract, s.db[id].path, m)
    ensures var t, loads := AfterLoadEnabled(s, extract, compiling), s.db[id].enabled && Loadable(s.db[id], id in compiling);
            && t.db.Keys == s.db.Keys
            && t.db[id] == s.db[id].(enabled := t.db[id].enabled, lastError := t.db[id].lastError)
            && (t.db[id].enabled <==> loads)
            && (loads ==> t.db[id].lastError == "" && id in t.loaded && t.loaded[id] == m)
            && (!loads ==> (id in t.loaded <==> id in s.loaded) && (id in t.loaded ==> t.loaded[id] == s.loaded[id]))
            && (!s.db[id].enabled ==> t.db[id] == s.db[id])
  {
  }
}
