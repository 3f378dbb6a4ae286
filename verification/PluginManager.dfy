/** The manager object: the lifecycle operations as methods over its table and its map of loaded plugins. */
module PluginManager {
  import opened Wrappers
  import opened PluginLifecycle
  import opened PluginSafety
  import opened PluginEffects

  /** Nothing has become of one plugin between two states. */
  ghost predicate Untouched(s: Store, t: Store, id: string) {
    && (id in t.db <==> id in s.db) && (id in t.db ==> t.db[id] == s.db[id])
    && (id in t.loaded <==> id in s.loaded) && (id in t.loaded ==> t.loaded[id] == s.loaded[id])
  }

  /** Whatever held of another plugin still holds. */
  ghost predicate LeavesOthers(before: Store, after: Store, id: string) {
    forall s: Store, o: string :: o != id && Untouched(s, before, o) ==> Untouched(s, after, o)
  }

  /** One plugin's part of a finished sync. */
  ghost predicate Settled(s: Store, t: Store, extract: Extractor, files: map<string, string>, id: string) {
    Untouched(AfterSync(s, extract, files), t, id)
  }

  /** One plugin's part of a finished start. */
  ghost predicate Started(s: Store, t: Store, extract: Extractor, compiling: set<string>, id: string) {
    Untouched(AfterLoadEnabled(s, extract, compiling), t, id)
  }

  lemma AllTouched(s: Store, t: Store)
    requires forall id :: Untouched(s, t, id)
    ensures s.db == t.db && s.loaded == t.loaded
  {
    forall id ensures id in t.db <==> id in s.db
              ensures id in t.db ==> t.db[id] == s.db[id]
              ensures id in t.loaded <==> id in s.loaded
              ensures id in t.loaded ==> t.loaded[id] == s.loaded[id]
    {
      assert Untouched(s, t, id);
    }
  }

  /** Visiting one more name of the folder settles it and leaves the others as they were. */
  lemma SyncVisits(s: Store, before: Store, after: Store, extract: Extractor, files: map<string, string>, name: string)
    requires name in files && files[name] in s.disk && s.disk[files[name]].Readable?
    requires Untouched(s, before, name)
    requires var row := SyncedRow(before, extract, name, files[name]);
             && after.db == (if row.Ok? then before.db[name := row.value] else before.db)
             && after.loaded == (if StaysLoaded(before, name, files[name]) then before.loaded else before.loaded - {name})
    requires before.disk == s.disk
    ensures Settled(s, after, extract, files, name)
    ensures LeavesOthers(before, after, name)
  {
    assert SyncedRow(before, extract, name, files[name]) == SyncedRow(s, extract, name, files[name]);
    assert StaysLoaded(before, name, files[name]) <==> StaysLoaded(s, name, files[name]);
  }

  /** So does loading one more plugin at startup. */
  lemma StartVisits(s: Store, before: Store, after: Store, extract: Extractor, compiling: set<string>, id: string)
    requires id in before.db && before.db[id].enabled && Untouched(s, before, id) && before.disk == s.disk
    requires var p := before.db[id];
             var m := Load(before, extract, p, id in compiling);
             match m
             case Err(e) => after.loaded == before.loaded && after.db == before.db[id := p.(enabled := false, lastError := e)]
             case Ok(manifest) => after.loaded == before.loaded[id := manifest] && after.db == before.db[id := p.(lastError := "")]
    ensures Started(s, after, extract, compiling, id)
    ensures LeavesOthers(before, after, id)
  {
    assert Load(before, extract, before.db[id], id in compiling) == Load(s, extract, s.db[id], id in compiling);
  }

  class Manager {
    const extract: Extractor
    var db: map<string, Plugin>
    var plugins: map<string, Manifest>
    var disk: map<string, File>

    function View(): Store
      reads this
    {
      Store(db, plugins, disk)
    }

    constructor (extract: Extractor, db: map<string, Plugin>, disk: map<string, File>)
      ensures View() == Store(db, map[], disk) && this.extract == extract
    {
      this.extract, this.db, this.plugins, this.disk := extract, db, map[], disk;
    }

    // ----- Loading and unloading -----

    /** Reads, compiles and registers a package; on error nothing is registered. */
    method LoadPluginWithConfig(id: string, p: Plugin, compiles: bool) returns (r: Result<()>)
      modifies this`plugins
      ensures var m := Load(old(View()), extract, p, compiles);
              && (r.Ok? <==> m.Ok?) && (r.Err? ==> r.message == m.message)
              && plugins == if m.Ok? then old(plugins)[id := m.value] else old(plugins)
    {
      if p.users.Malformed? {
        return Err("parsing plugin users");
      }
      if p.libraries.Malformed? {
        return Err("parsing plugin libraries");
      }
      var m := ReadManifest(View(), extract, p.path);
      if m.Err? {
        return Err(m.message);
      }
      if !compiles {
        return Err("compiling plugin");
      }
      plugins := plugins[id := m.value];
      return Ok(());
    }

    method UnloadPlugin(id: string) returns (wasLoaded: bool)
      modifies this`plugins
      ensures View() == Unload(old(View()), id) && (wasLoaded <==> id in old(plugins))
    {
      wasLoaded := id in plugins;
      plugins := plugins - {id};
    }

    method CheckPermissionGates(p: Plugin) returns (ok: bool)
      ensures var m := ReadManifest(View(), extract, p.path); ok <==> m.Ok? && GatesMet(m.value, p)
    {
      var m := ReadManifest(View(), extract, p.path);
      if m.Err? {
        return false;
      }
      if m.value.needsUsers && !HasValidUsers(p) {
        return false;
      }
      if m.value.needsLibrary && !HasValidLibraries(p) {
        return false;
      }
      return true;
    }

    // ----- Enable, disable, settings -----

    method EnablePlugin(id: string, compiles: bool) returns (ok: bool)
      modifies this
      ensures View() == AfterEnable(old(View()), extract, id, compiles)
      ensures ok <==> id in db && db[id].enabled
    {
      if id !in db {
        return false;
      }
      var p := db[id];
      if p.enabled {
        return true;
      }
      var allowed := CheckPermissionGates(p);
      if !allowed {
        return false;
      }
      var r := LoadPluginWithConfig(id, p, compiles);
      if r.Err? {
        db := db[id := p.(lastError := r.message)];
        return false;
      }
      db := db[id := p.(enabled := true, lastError := "")];
      return true;
    }

    method DisablePlugin(id: string) returns (ok: bool)
      modifies this
      ensures View() == AfterDisable(old(View()), id)
      ensures ok <==> id in db
      ensures ok ==> !db[id].enabled
    {
      if id !in db {
        return false;
      }
      if !db[id].enabled {
        return true;
      }
      var _ := UnloadPlugin(id);
      db := db[id := db[id].(enabled := false)];
      return true;
    }

    method UpdatePluginSettings(id: string, u: Settings, compiles: bool)
      modifies this
      ensures View() == AfterUpdate(old(View()), extract, id, u, compiles)
    {
      if id in db {
        SaveSettings(id, WithSettings(db[id], u), compiles);
      }
    }

    method SaveSettings(id: string, p: Plugin, compiles: bool)
      modifies this`db, this`plugins
      ensures View() == AfterSaving(old(View()), extract, id, p, compiles)
    {
      var wasEnabled := p.enabled;
      var shouldDisable := ShouldDisable(p);
      if shouldDisable {
        var _ := UnloadPlugin(id);
        db := db[id := p.(enabled := false)];
        return;
      }
      db := db[id := p];
      if wasEnabled {
        Reload(id, p, compiles);
      }
    }

    method ShouldDisable(p: Plugin) returns (shouldDisable: bool)
      ensures shouldDisable <==> MustDisable(View(), extract, p)
    {
      shouldDisable := false;
      if p.enabled {
        var m := ReadManifest(View(), extract, p.path);
        if m.Ok? {
          shouldDisable := (m.value.needsUsers && !HasValidUsers(p)) || (m.value.needsLibrary && !HasValidLibraries(p));
        }
      }
    }

    /** Loads an enabled plugin again with its new settings, or disables it. */
    method Reload(id: string, p: Plugin, compiles: bool)
      modifies this`db, this`plugins
      ensures var m := Load(old(View()), extract, p, compiles);
              match m
              case Err(e) => plugins == old(plugins) - {id} && db == old(db)[id := p.(enabled := false, lastError := e)]
              case Ok(manifest) => plugins == old(plugins)[id := manifest] && db == old(db)
    {
      var _ := UnloadPlugin(id);
      var r := LoadPluginWithConfig(id, p, compiles);
      if r.Err? {
        db := db[id := p.(lastError := r.message, enabled := false)];
      }
    }

    // ----- Folder synchronisation -----

    method AddPluginToDB(name: string, path: string, m: Manifest, sha256: string)
      modifies this`db
      ensures db == old(db)[name := NewRow(path, m, sha256)]
    {
      db := db[name := Plugin(path, m, "", Blank, false, Blank, false, false, false, "", sha256)];
    }

    method UpdatePluginInDB(name: string, row: Plugin, path: string, m: Manifest, sha256: string)
      modifies this`db, this`plugins
      ensures db == old(db)[name := row.(path := path, manifest := m, sha256 := sha256, enabled := false, lastError := "")]
      ensures plugins == if row.enabled then old(plugins) - {name} else old(plugins)
    {
      if row.enabled {
        var _ := UnloadPlugin(name);
      }
      db := db[name := row.(path := path, manifest := m, sha256 := sha256, enabled := false, lastError := "")];
    }

    method RemovePluginFromDB(name: string, row: Plugin)
      modifies this`db, this`plugins
      ensures db == old(db) - {name}
      ensures plugins == if row.enabled then old(plugins) - {name} else old(plugins)
    {
      if row.enabled {
        var _ := UnloadPlugin(name);
      }
      db := db - {name};
    }

    /** The package could not be read: the row keeps the error, and is disabled. */
    method StoreExtractError(name: string, row: Plugin, message: string)
      modifies this`db, this`plugins
      ensures db == old(db)[name := row.(lastError := message, enabled := false)]
      ensures plugins == if row.enabled then old(plugins) - {name} else old(plugins)
    {
      if row.enabled {
        var _ := UnloadPlugin(name);
      }
      db := db[name := row.(lastError := message, enabled := false)];
    }

    /** The body of the sync's loop over the folder; `hashed` tells whether the name counts as processed. */
    method SyncFile(name: string, path: string) returns (hashed: bool)
      requires path in disk
      modifies this`db, this`plugins
      ensures hashed <==> disk[path].Readable?
      ensures !hashed ==> db == old(db) && plugins == old(plugins)
      ensures hashed ==>
                var row := SyncedRow(old(View()), extract, name, path);
                && db == (if row.Ok? then old(db)[name := row.value] else old(db))
                && plugins == (if StaysLoaded(old(View()), name, path) then old(plugins) else old(plugins) - {name})
    {
      if disk[path].Unreadable? {
        return false;
      }
      var sha := disk[path].sha256;
      if name in db && db[name].sha256 == sha {
        if db[name].path != path {
          db := db[name := db[name].(path := path)];
        }
        assert db == old(db)[name := old(db)[name].(path := path)];
        return true;
      }
      var m := extract(sha);
      if name in db && m.Err? {
        StoreExtractError(name, db[name], m.message);
      } else if name in db {
        UpdatePluginInDB(name, db[name], path, m.value, sha);
      } else if m.Ok? {
        AddPluginToDB(name, path, m.value, sha);
      }
      return true;
    }

    /** One file of the folder: settles its name, if it can be hashed, and touches no other. */
    method VisitFile(name: string, files: map<string, string>, ghost s0: Store) returns (hashed: bool)
      requires name in files && files[name] in disk && disk == s0.disk && Untouched(s0, View(), name)
      modifies this`db, this`plugins
      ensures hashed <==> Processed(files, name)
      ensures if hashed then Settled(s0, View(), extract, files, name) else Untouched(s0, View(), name)
      ensures LeavesOthers(old(View()), View(), name)
    {
      hashed := SyncFile(name, files[name]);
      if hashed {
        SyncVisits(s0, old(View()), View(), extract, files, name);
      }
    }

    /** The name counts as processed: its file could be hashed. */
    predicate Processed(files: map<string, string>, id: string)
      reads this`disk
    {
      id in files && files[id] in disk && disk[files[id]].Readable?
    }

    /** Goes through the folder, in whatever order the map yields; returns the rows not met there. */
    method SyncFolder(files: map<string, string>) returns (left: map<string, Plugin>)
      requires forall name :: name in files ==> files[name] in disk
      modifies this`db, this`plugins
      ensures left == old(db) - (set id | id in files && Processed(files, id))
      ensures forall id :: Processed(files, id) ==> Settled(old(View()), View(), extract, files, id)
      ensures forall id :: !Processed(files, id) ==> Untouched(old(View()), View(), id)
    {
      ghost var s0 := View();
      ghost var done := {};
      left := db;
      var names := files.Keys;
      while names != {}
        invariant names <= files.Keys && disk == s0.disk
        invariant forall id :: id in done <==> Processed(files, id) && id !in names
        invariant left == s0.db - done
        invariant forall id :: id in done ==> Settled(s0, View(), extract, files, id)
        invariant forall id :: id !in done ==> Untouched(s0, View(), id)
        decreases names
      {
        var name :| name in names;
        names := names - {name};
        var hashed := VisitFile(name, files, s0);
        if hashed {
          done := done + {name};
          left := left - {name};
        }
      }
      assert done == set id | id in files && Processed(files, id);
    }

    /** Removes the rows whose file is no longer there. */
    method RemoveMissing(rows: map<string, Plugin>)
      modifies this`db, this`plugins
      ensures db == old(db) - rows.Keys
      ensures forall id :: id in plugins <==> id in old(plugins) && !(id in rows && rows[id].enabled)
      ensures forall id :: id in plugins ==> plugins[id] == old(plugins)[id]
    {
      var left := rows;
      while left != map[]
        invariant left.Keys <= rows.Keys && forall id :: id in left ==> left[id] == rows[id]
        invariant db == old(db) - (rows.Keys - left.Keys)
        invariant forall id :: id in plugins <==> id in old(plugins) && !(id in rows && id !in left && rows[id].enabled)
        invariant forall id :: id in plugins ==> plugins[id] == old(plugins)[id]
        decreases left.Keys
      {
        var id :| id in left;
        RemovePluginFromDB(id, left[id]);
        left := left - {id};
      }
    }

    method SyncPlugins(files: map<string, string>)
      requires forall name :: name in files ==> files[name] in disk
      modifies this`db, this`plugins
      ensures View() == AfterSync(old(View()), extract, files)
    {
      ghost var s0 := View();
      var missing := SyncFolder(files);
      ghost var synced := View();
      RemoveMissing(missing);
      forall id ensures Untouched(AfterSync(s0, extract, files), View(), id) {
        if Processed(files, id) {
          assert Settled(s0, synced, extract, files, id);
        } else {
          assert Untouched(s0, synced, id);
        }
      }
      AllTouched(AfterSync(s0, extract, files), View());
    }

    /** What the watcher does once the events for a file have settled. */
    method ProcessPluginEvent(name: string, path: string)
      modifies this`db, this`plugins
      ensures View() == AfterFileEvent(old(View()), extract, name, path)
    {
      if path in disk {
        if disk[path].Unreadable? {
          return;
        }
        var sha := disk[path].sha256;
        if name !in db {
          var m := extract(sha);
          if m.Ok? {
            AddPluginToDB(name, path, m.value, sha);
          }
          return;
        }
        if db[name].sha256 == sha {
          return;
        }
        match extract(sha)
        case Err(e) => StoreExtractError(name, db[name], e);
        case Ok(m) => UpdatePluginInDB(name, db[name], path, m, sha);
      } else if name in db {
        RemovePluginFromDB(name, db[name]);
      }
    }

    // ----- Start -----

    /** Loads the enabled plugins, in any order; one that fails is disabled with its error. */
    method LoadEnabledPlugins(compiling: set<string>)
      modifies this`db, this`plugins
      ensures View() == AfterLoadEnabled(old(View()), extract, compiling)
    {
      ghost var s0 := View();
      var left := set id | id in db && db[id].enabled;
      while left != {}
        invariant disk == s0.disk
        invariant forall id :: id in left ==> id in db && db[id].enabled && Untouched(s0, View(), id)
        invariant forall id :: id !in left ==> Started(s0, View(), extract, compiling, id)
        decreases left
      {
        var id :| id in left;
        left := left - {id};
        LoadNext(id, compiling, s0);
      }
      forall id ensures Untouched(AfterLoadEnabled(s0, extract, compiling), View(), id) {
        assert Started(s0, View(), extract, compiling, id);
      }
      AllTouched(AfterLoadEnabled(s0, extract, compiling), View());
    }

    method LoadNext(id: string, compiling: set<string>, ghost s0: Store)
      requires id in db && db[id].enabled && disk == s0.disk && Untouched(s0, View(), id)
      modifies this`db, this`plugins
      ensures Started(s0, View(), extract, compiling, id)
      ensures LeavesOthers(old(View()), View(), id)
    {
      LoadOne(id, id in compiling);
      StartVisits(s0, old(View()), View(), extract, compiling, id);
    }

    method LoadOne(id: string, compiles: bool)
      requires id in db && db[id].enabled
      modifies this`db, this`plugins
      ensures var m := Load(old(View()), extract, old(db)[id], compiles);
              match m
              case Err(e) => plugins == old(plugins) && db == old(db)[id := old(db)[id].(enabled := false, lastError := e)]
              case Ok(manifest) => plugins == old(plugins)[id := manifest] && db == old(db)[id := old(db)[id].(lastError := "")]
    {
      var p := db[id];
      var r := LoadPluginWithConfig(id, p, compiles);
      if r.Err? {
        db := db[id := p.(lastError := r.message, enabled := false)];
      } else if p.lastError != "" {
        db := db[id := p.(lastError := "")];
      } else {
        assert db == old(db)[id := p.(lastError := "")];
      }
    }

    // ----- Deleting users and libraries -----

    /** Unloads every plugin whose row is disabled. */
    method UnloadDisabledPlugins()
      modifies this`plugins
      ensures View() == DisabledUnloaded(old(View()))
    {
      ghost var s0 := View();
      var left := set id | id in db && !db[id].enabled;
      while left != {}
        invariant forall id :: id in left ==> id in db && !db[id].enabled
        invariant forall id :: id in plugins <==> id in s0.loaded && (id in db && !db[id].enabled ==> id in left)
        invariant forall id :: id in plugins ==> plugins[id] == s0.loaded[id]
        decreases left
      {
        var id :| id in left;
        if id in plugins {
          var _ := UnloadPlugin(id);
        }
        left := left - {id};
      }
      assert plugins == DisabledUnloaded(s0).loaded;
    }

    /** Two UPDATE statements: drop the user from every list, then disable rows left without a needed user. */
    method CleanupPluginUserReferences(userId: string) returns (ok: bool)
      modifies this`db
      ensures View() == UserCleanup(old(View()), userId)
    {
      if exists id :: id in db && db[id].users.Malformed? {
        return false;
      }
      db := map id | id in db :: db[id].(users := RemoveFrom(db[id].users, userId));
      db := map id | id in db ::
        if db[id].enabled && !db[id].allUsers && db[id].manifest.needsUsers && Empty(db[id].users)
        then db[id].(enabled := false) else db[id];
      assert db == UserCleanup(old(View()), userId).db;
      return true;
    }

    method CleanupPluginLibraryReferences(libraryId: int) returns (ok: bool)
      modifies this`db
      ensures View() == LibraryCleanup(old(View()), libraryId)
    {
      if exists id :: id in db && db[id].libraries.Malformed? {
        return false;
      }
      db := map id | id in db :: db[id].(libraries := RemoveFrom(db[id].libraries, libraryId));
      db := map id | id in db ::
        if db[id].enabled && !db[id].allLibraries && db[id].manifest.needsLibrary && Empty(db[id].libraries)
        then db[id].(enabled := false) else db[id];
      assert db == LibraryCleanup(old(View()), libraryId).db;
      return true;
    }

    method DeleteUser(userId: string)
      modifies this
      ensures View() == Apply(old(View()), extract, Operation.DeleteUser(userId))
      ensures forall id, other :: id in old(db) && RunsFor(old(View()), id, old(db)[id].users, userId, other) ==>
                                    && id in db && db[id].enabled && id in plugins && plugins[id] == old(plugins)[id]
                                    && db[id].users.Listed? && other in db[id].users.items
    {
      forall id, other | id in db && RunsFor(View(), id, db[id].users, userId, other) {
        UsersGoOn(View(), extract, userId, other, id);
      }
      var _ := CleanupPluginUserReferences(userId);
      UnloadDisabledPlugins();
    }

    method DeleteLibrary(libraryId: int)
      modifies this
      ensures View() == Apply(old(View()), extract, Operation.DeleteLibrary(libraryId))
      ensures forall id, other :: id in old(db) && RunsFor(old(View()), id, old(db)[id].libraries, libraryId, other) ==>
                                    && id in db && db[id].enabled && id in plugins && plugins[id] == old(plugins)[id]
                                    && db[id].libraries.Listed? && other in db[id].libraries.items
    {
      forall id, other | id in db && RunsFor(View(), id, db[id].libraries, libraryId, other) {
        LibrariesGoOn(View(), extract, libraryId, other, id);
      }
      var _ := CleanupPluginLibraryReferences(libraryId);
      UnloadDisabledPlugins();
    }

    /** Startup: memory and table agree afterwards, and the gates hold if they held for the rows that are loaded. */
    method Start(files: map<string, string>, compiling: set<string>)
      requires plugins == map[] && Faithful(View(), extract)
      requires forall name :: name in files ==> files[name] in disk
      modifies this`db, this`plugins
      ensures View() == AfterLoadEnabled(AfterSync(ErrorsCleared(old(View())), extract, files), extract, compiling)
      ensures Agree(View()) && Faithful(View(), extract)
      ensures Gated(View()) <==>
              forall id :: LoadsAtStart(old(View()), files, compiling, id) ==> GatesMet(old(db)[id].manifest, old(db)[id])
    {
      db := ErrorsCleared(View()).db;
      ghost var s0 := View();
      SyncPlugins(files);
      LoadEnabledPlugins(compiling);
      StartEstablishes(s0, extract, files, compiling);
      forall id ensures LoadsAtStart(s0, files, compiling, id) <==> LoadsAtStart(old(View()), files, compiling, id) {
      }
    }
  }
}
