/** What the plugin lifecycle keeps, and what a folder synchronisation settles. */
module PluginSafety {
  import opened Wrappers
  import opened PluginLifecycle

  // ----- Memory and table agree -----

  /** Everything but one plugin is as it was. */
  ghost predicate OnlyTouches(s: Store, t: Store, id: string) {
    forall o :: o != id ==>
                  && (o in t.db <==> o in s.db) && (o in t.db ==> t.db[o] == s.db[o])
                  && (o in t.loaded <==> o in s.loaded) && (o in t.loaded ==> t.loaded[o] == s.loaded[o])
  }

  lemma OneAgrees(s: Store, t: Store, id: string)
    requires Agree(s) && OnlyTouches(s, t, id)
    requires id in t.loaded <==> id in t.db && t.db[id].enabled
    ensures Agree(t)
  {
    forall o ensures o in t.loaded <==> o in t.db && t.db[o].enabled {
      assert o in s.loaded <==> o in s.db && s.db[o].enabled;
    }
  }

  lemma EnableOne(s: Store, extract: Extractor, id: string, compiles: bool)
    requires Agree(s)
    ensures Agree(AfterEnable(s, extract, id, compiles)) && OnlyTouches(s, AfterEnable(s, extract, id, compiles), id)
  {
    OneAgrees(s, AfterEnable(s, extract, id, compiles), id);
  }

  lemma DisableOne(s: Store, id: string)
    requires Agree(s)
    ensures Agree(AfterDisable(s, id)) && OnlyTouches(s, AfterDisable(s, id), id)
  {
    OneAgrees(s, AfterDisable(s, id), id);
  }

  lemma UpdateOne(s: Store, extract: Extractor, id: string, u: Settings, compiles: bool)
    requires Agree(s)
    ensures Agree(AfterUpdate(s, extract, id, u, compiles)) && OnlyTouches(s, AfterUpdate(s, extract, id, u, compiles), id)
  {
    if id in s.db {
      SavingOne(s, extract, id, WithSettings(s.db[id], u), compiles);
    }
  }

  lemma SavingOne(s: Store, extract: Extractor, id: string, p: Plugin, compiles: bool)
    requires Agree(s) && id in s.db && p.enabled == s.db[id].enabled
    ensures Agree(AfterSaving(s, extract, id, p, compiles)) && OnlyTouches(s, AfterSaving(s, extract, id, p, compiles), id)
  {
    assert id in s.loaded <==> p.enabled;
    SavingTouches(s, extract, id, p, compiles);
    OneAgrees(s, AfterSaving(s, extract, id, p, compiles), id);
  }

  lemma SavingTouches(s: Store, extract: Extractor, id: string, p: Plugin, compiles: bool)
    requires id in s.loaded <==> p.enabled
    ensures var t := AfterSaving(s, extract, id, p, compiles);
            OnlyTouches(s, t, id) && id in t.db && (id in t.loaded <==> t.db[id].enabled)
  {
  }

  lemma FileEventOne(s: Store, extract: Extractor, name: string, path: string)
    requires Agree(s)
    ensures Agree(AfterFileEvent(s, extract, name, path)) && OnlyTouches(s, AfterFileEvent(s, extract, name, path), name)
  {
    OneAgrees(s, AfterFileEvent(s, extract, name, path), name);
  }

  /** No operation lets memory and table disagree, whatever happens to the files meanwhile. */
  lemma AgreeStep(s: Store, extract: Extractor, op: Operation)
    requires Agree(s)
    ensures Agree(Apply(s, extract, op))
  {
    match op
    case Enable(id, compiles) => EnableOne(s, extract, id, compiles);
    case Disable(id) => DisableOne(s, id);
    case Update(id, u, compiles) => UpdateOne(s, extract, id, u, compiles);
    case FileEvent(name, path) => FileEventOne(s, extract, name, path);
    case _ =>
  }

  lemma SyncFaithful(s: Store, extract: Extractor, files: map<string, string>)
    requires Faithful(s, extract)
    ensures Faithful(AfterSync(s, extract, files), extract)
  {
    var t := AfterSync(s, extract, files);
    forall id | id in t.db ensures extract(t.db[id].sha256) == Ok(t.db[id].manifest) {
      assert t.db[id] == SyncedRow(s, extract, id, files[id]).value;
    }
  }

  lemma FileEventFaithful(s: Store, extract: Extractor, name: string, path: string)
    requires Faithful(s, extract)
    ensures Faithful(AfterFileEvent(s, extract, name, path), extract)
  {
  }

  lemma UpdateFaithful(s: Store, extract: Extractor, id: string, u: Settings, compiles: bool)
    requires Faithful(s, extract)
    ensures Faithful(AfterUpdate(s, extract, id, u, compiles), extract)
  {
    if id in s.db {
      SavingFaithful(s, extract, id, WithSettings(s.db[id], u), compiles);
    }
  }

  lemma SavingFaithful(s: Store, extract: Extractor, id: string, p: Plugin, compiles: bool)
    requires Faithful(s, extract) && id in s.db && p.manifest == s.db[id].manifest && p.sha256 == s.db[id].sha256
    ensures Faithful(AfterSaving(s, extract, id, p, compiles), extract)
  {
  }

  lemma CleanupFaithful(s: Store, extract: Extractor, t: Store)
    requires Faithful(s, extract) && t.db.Keys == s.db.Keys
    requires forall id :: id in t.db ==> t.db[id].manifest == s.db[id].manifest && t.db[id].sha256 == s.db[id].sha256
    ensures Faithful(DisabledUnloaded(t), extract)
  {
  }

  /** Rows keep standing for the package their hash names. */
  lemma FaithfulStep(s: Store, extract: Extractor, op: Operation)
    requires Faithful(s, extract)
    ensures Faithful(Apply(s, extract, op), extract)
  {
    match op
    case Sync(files) => SyncFaithful(s, extract, files);
    case FileEvent(name, path) => FileEventFaithful(s, extract, name, path);
    case Update(id, u, compiles) => UpdateFaithful(s, extract, id, u, compiles);
    case DeleteUser(userId) => CleanupFaithful(s, extract, UserCleanup(s, userId));
    case DeleteLibrary(libraryId) => CleanupFaithful(s, extract, LibraryCleanup(s, libraryId));
    case _ =>
  }

  // ----- Permission gates -----

  lemma OneGated(s: Store, t: Store, id: string)
    requires Gated(s) && OnlyTouches(s, t, id)
    requires id in t.loaded ==> id in t.db && t.loaded[id] == t.db[id].manifest && GatesMet(t.loaded[id], t.db[id])
    ensures Gated(t)
  {
  }

  lemma EnableGated(s: Store, extract: Extractor, id: string, compiles: bool)
    requires Agree(s) && Faithful(s, extract) && Gated(s) && UpToDate(s, id)
    ensures Gated(AfterEnable(s, extract, id, compiles))
  {
    EnableOne(s, extract, id, compiles);
    OneGated(s, AfterEnable(s, extract, id, compiles), id);
  }

  lemma UpdateGated(s: Store, extract: Extractor, id: string, u: Settings, compiles: bool)
    requires Agree(s) && Faithful(s, extract) && Gated(s) && UpToDate(s, id)
    ensures Gated(AfterUpdate(s, extract, id, u, compiles))
  {
    var t := AfterUpdate(s, extract, id, u, compiles);
    UpdateOne(s, extract, id, u, compiles);
    if id in t.loaded {
      RunsWhatItRead(s, extract, id, u, compiles);
    }
    OneGated(s, t, id);
  }

  /** A plugin still loaded after an update was read from its file just then, and passed the gates. */
  lemma RunsWhatItRead(s: Store, extract: Extractor, id: string, u: Settings, compiles: bool)
    requires Agree(s) && Faithful(s, extract) && UpToDate(s, id) && id in AfterUpdate(s, extract, id, u, compiles).loaded
    ensures id in s.db && s.db[id].enabled
    ensures var t := AfterUpdate(s, extract, id, u, compiles); var m := s.db[id].manifest;
            id in t.db && t.loaded[id] == m && t.db[id].manifest == m && GatesMet(m, t.db[id])
  {
    assert id in s.db && s.db[id].enabled;
    var p := WithSettings(s.db[id], u);
    var m := ReadManifest(s, extract, p.path);
    assert p.path == s.db[id].path && p.manifest == s.db[id].manifest;
    assert m.Ok? ==> m.value == p.manifest;
  }

  lemma FileEventGated(s: Store, extract: Extractor, name: string, path: string)
    requires Agree(s) && Gated(s)
    ensures Gated(AfterFileEvent(s, extract, name, path))
  {
    FileEventOne(s, extract, name, path);
    OneGated(s, AfterFileEvent(s, extract, name, path), name);
  }

  lemma SyncGated(s: Store, extract: Extractor, files: map<string, string>)
    requires Agree(s) && Gated(s)
    ensures Gated(AfterSync(s, extract, files))
  {
    var t := AfterSync(s, extract, files);
    forall id | id in t.loaded
      ensures id in t.db && t.loaded[id] == t.db[id].manifest && GatesMet(t.loaded[id], t.db[id])
    {
      assert id in s.db && s.db[id].enabled;
      assert t.db[id] == s.db[id].(path := files[id]);
    }
  }

  /** Every operation that loads only packages the table knows keeps every loaded plugin within its gates. */
  lemma GatedStep(s: Store, extract: Extractor, op: Operation)
    requires Agree(s) && Faithful(s, extract) && Gated(s) && LoadsKnownPackage(s, op)
    ensures Gated(Apply(s, extract, op))
  {
    match op
    case Enable(id, compiles) => EnableGated(s, extract, id, compiles);
    case Disable(id) => DisableOne(s, id); OneGated(s, AfterDisable(s, id), id);
    case Update(id, u, compiles) => UpdateGated(s, extract, id, u, compiles);
    case Sync(files) => SyncGated(s, extract, files);
    case FileEvent(name, path) => FileEventGated(s, extract, name, path);
    case DeleteUser(userId) => UserDeletionGated(s, userId);
    case DeleteLibrary(libraryId) => LibraryDeletionGated(s, libraryId);
    case ChangeDisk(disk) =>
  }

  lemma UserDeletionGated(s: Store, userId: string)
    requires Agree(s) && Gated(s)
    ensures Gated(DisabledUnloaded(UserCleanup(s, userId)))
  {
    CleanupGated(s, UserCleanup(s, userId));
  }

  lemma LibraryDeletionGated(s: Store, libraryId: int)
    requires Agree(s) && Gated(s)
    ensures Gated(DisabledUnloaded(LibraryCleanup(s, libraryId)))
  {
    CleanupGated(s, LibraryCleanup(s, libraryId));
  }

  lemma CleanupGated(s: Store, t: Store)
    requires Agree(s) && Gated(s) && t.loaded == s.loaded && t.db.Keys == s.db.Keys
    requires forall id :: id in t.db && t.db[id].enabled ==> t.db[id].manifest == s.db[id].manifest
                                                             && (GatesMet(s.db[id].manifest, s.db[id]) ==> GatesMet(t.db[id].manifest, t.db[id]))
    ensures Gated(DisabledUnloaded(t))
  {
  }

  // ----- Exactly when the gates stop holding -----

  /** Every loaded plugin's row meets the gates of the manifest it runs with. */
  ghost predicate GatesHold(s: Store) {
    forall id :: id in s.loaded ==> id in s.db && GatesMet(s.loaded[id], s.db[id])
  }

  /** The user is the last one of a plugin that runs needing users, while its row says that it does not. */
  predicate LastUserOf(s: Store, id: string, userId: string) {
    && id in s.loaded && id in s.db && s.loaded[id].needsUsers && !s.db[id].manifest.needsUsers
    && !s.db[id].allUsers && s.db[id].users.Listed? && Remove(s.db[id].users.items, userId) == []
  }

  predicate LastLibraryOf(s: Store, id: string, libraryId: int) {
    && id in s.loaded && id in s.db && s.loaded[id].needsLibrary && !s.db[id].manifest.needsLibrary
    && !s.db[id].allLibraries && s.db[id].libraries.Listed? && Remove(s.db[id].libraries.items, libraryId) == []
  }

  ghost predicate UsersReadable(s: Store) {
    forall id :: id in s.db ==> !s.db[id].users.Malformed?
  }

  ghost predicate LibrariesReadable(s: Store) {
    forall id :: id in s.db ==> !s.db[id].libraries.Malformed?
  }

  /** A deletion that is carried out, of somebody a plugin needs without its row knowing. */
  ghost predicate Escapes(s: Store, op: Operation) {
    || (op.DeleteUser? && UsersReadable(s) && exists id :: LastUserOf(s, id, op.userId))
    || (op.DeleteLibrary? && LibrariesReadable(s) && exists id :: LastLibraryOf(s, id, op.libraryId))
  }

  /** One operation leaves the gates holding exactly when it is no such deletion. */
  lemma GatesHoldExact(s: Store, extract: Extractor, op: Operation)
    requires Agree(s) && GatesHold(s)
    ensures GatesHold(Apply(s, extract, op)) <==> !Escapes(s, op)
  {
    match op
    case Enable(id, compiles) => EnableKeepsGates(s, extract, id, compiles);
    case Disable(id) => DisableKeepsGates(s, id);
    case Update(id, u, compiles) => UpdateKeepsGates(s, extract, id, u, compiles);
    case Sync(files) => SyncKeepsGates(s, extract, files);
    case FileEvent(name, path) => FileEventKeepsGates(s, extract, name, path);
    case DeleteUser(userId) => DeleteUserExact(s, userId);
    case DeleteLibrary(libraryId) => DeleteLibraryExact(s, libraryId);
    case ChangeDisk(disk) =>
  }

  lemma OneKeepsGates(s: Store, t: Store, id: string)
    requires GatesHold(s) && OnlyTouches(s, t, id)
    requires id in t.loaded ==> id in t.db && GatesMet(t.loaded[id], t.db[id])
    ensures GatesHold(t)
  {
  }

  lemma EnableKeepsGates(s: Store, extract: Extractor, id: string, compiles: bool)
    requires Agree(s) && GatesHold(s)
    ensures GatesHold(AfterEnable(s, extract, id, compiles))
  {
    EnableOne(s, extract, id, compiles);
    OneKeepsGates(s, AfterEnable(s, extract, id, compiles), id);
  }

  lemma DisableKeepsGates(s: Store, id: string)
    requires Agree(s) && GatesHold(s)
    ensures GatesHold(AfterDisable(s, id))
  {
    DisableOne(s, id);
    OneKeepsGates(s, AfterDisable(s, id), id);
  }

  lemma UpdateKeepsGates(s: Store, extract: Extractor, id: string, u: Settings, compiles: bool)
    requires Agree(s) && GatesHold(s)
    ensures GatesHold(AfterUpdate(s, extract, id, u, compiles))
  {
    UpdateOne(s, extract, id, u, compiles);
    if id in s.db {
      SavedRowMeetsGates(s, extract, id, WithSettings(s.db[id], u), compiles);
    }
    OneKeepsGates(s, AfterUpdate(s, extract, id, u, compiles), id);
  }

  lemma SavedRowMeetsGates(s: Store, extract: Extractor, id: string, p: Plugin, compiles: bool)
    requires id in s.loaded <==> p.enabled
    ensures var t := AfterSaving(s, extract, id, p, compiles); id in t.loaded ==> GatesMet(t.loaded[id], t.db[id])
  {
  }

  lemma SyncKeepsGates(s: Store, extract: Extractor, files: map<string, string>)
    requires Agree(s) && GatesHold(s)
    ensures GatesHold(AfterSync(s, extract, files))
  {
    var t := AfterSync(s, extract, files);
    forall id | id in t.loaded ensures id in t.db && GatesMet(t.loaded[id], t.db[id]) {
      assert id in s.db && s.db[id].enabled;
      assert t.db[id] == s.db[id].(path := files[id]);
    }
  }

  lemma FileEventKeepsGates(s: Store, extract: Extractor, name: string, path: string)
    requires Agree(s) && GatesHold(s)
    ensures GatesHold(AfterFileEvent(s, extract, name, path))
  {
    FileEventOne(s, extract, name, path);
    OneKeepsGates(s, AfterFileEvent(s, extract, name, path), name);
  }

  lemma DeleteUserExact(s: Store, userId: string)
    requires Agree(s) && GatesHold(s)
    ensures GatesHold(DisabledUnloaded(UserCleanup(s, userId)))
            <==> !(UsersReadable(s) && exists id :: LastUserOf(s, id, userId))
  {
    var t := DisabledUnloaded(UserCleanup(s, userId));
    if UsersReadable(s) {
      forall id | id in s.loaded
        ensures LastUserOf(s, id, userId) <==> id in t.loaded && !GatesMet(t.loaded[id], t.db[id])
      {
        UserCleanupExact(s.db[id], s.loaded[id], userId);
      }
    } else {
      assert t.loaded == s.loaded;
    }
  }

  lemma DeleteLibraryExact(s: Store, libraryId: int)
    requires Agree(s) && GatesHold(s)
    ensures GatesHold(DisabledUnloaded(LibraryCleanup(s, libraryId)))
            <==> !(LibrariesReadable(s) && exists id :: LastLibraryOf(s, id, libraryId))
  {
    var t := DisabledUnloaded(LibraryCleanup(s, libraryId));
    if LibrariesReadable(s) {
      forall id | id in s.loaded
        ensures LastLibraryOf(s, id, libraryId) <==> id in t.loaded && !GatesMet(t.loaded[id], t.db[id])
      {
        LibraryCleanupExact(s.db[id], s.loaded[id], libraryId);
      }
    } else {
      assert t.loaded == s.loaded;
    }
  }

  /** The gates hold before and after every operation of the run. */
  ghost predicate GatesHoldThroughout(s: Store, extract: Extractor, ops: seq<Operation>)
    decreases |ops|
  {
    GatesHold(s) && (ops != [] ==> GatesHoldThroughout(Apply(s, extract, ops[0]), extract, ops[1..]))
  }

  ghost predicate NeverEscapes(s: Store, extract: Extractor, ops: seq<Operation>)
    decreases |ops|
  {
    ops == [] || (!Escapes(s, ops[0]) && NeverEscapes(Apply(s, extract, ops[0]), extract, ops[1..]))
  }

  /** The gates hold throughout a run exactly when no such deletion is in it, whatever is loaded from disk. */
  lemma {:induction false} RunKeepsGatesExact(s: Store, extract: Extractor, ops: seq<Operation>)
    requires Agree(s) && GatesHold(s)
    ensures GatesHoldThroughout(s, extract, ops) <==> NeverEscapes(s, extract, ops)
    decreases |ops|
  {
    if ops != [] {
      var t := Apply(s, extract, ops[0]);
      AgreeStep(s, extract, ops[0]);
      GatesHoldExact(s, extract, ops[0]);
      if GatesHold(t) {
        RunKeepsGatesExact(t, extract, ops[1..]);
      }
    }
  }

  // ----- Runs -----

  lemma {:induction false} RunAgrees(s: Store, extract: Extractor, ops: seq<Operation>)
    requires Agree(s) && Faithful(s, extract)
    ensures Agree(Exec(s, extract, ops)) && Faithful(Exec(s, extract, ops), extract)
    decreases |ops|
  {
    if ops != [] {
      AgreeStep(s, extract, ops[0]);
      FaithfulStep(s, extract, ops[0]);
      RunAgrees(Apply(s, extract, ops[0]), extract, ops[1..]);
    }
  }

  predicate LoadsOnlyKnown(s: Store, extract: Extractor, ops: seq<Operation>)
    decreases |ops|
  {
    ops != [] ==> LoadsKnownPackage(s, ops[0]) && LoadsOnlyKnown(Apply(s, extract, ops[0]), extract, ops[1..])
  }

  lemma {:induction false} RunGated(s: Store, extract: Extractor, ops: seq<Operation>)
    requires Agree(s) && Faithful(s, extract) && Gated(s) && LoadsOnlyKnown(s, extract, ops)
    ensures Gated(Exec(s, extract, ops))
    decreases |ops|
  {
    if ops != [] {
      AgreeStep(s, extract, ops[0]);
      FaithfulStep(s, extract, ops[0]);
      GatedStep(s, extract, ops[0]);
      RunGated(Apply(s, extract, ops[0]), extract, ops[1..]);
    }
  }

  /** The plugin is loaded at startup: enabled, its file unchanged, its lists in order, and it compiles. */
  predicate LoadsAtStart(s: Store, files: map<string, string>, compiling: set<string>, id: string) {
    && id in s.db && s.db[id].enabled && !s.db[id].users.Malformed? && !s.db[id].libraries.Malformed?
    && id in files && files[id] in s.disk && s.disk[files[id]] == Readable(s.db[id].sha256)
    && id in compiling
  }

  /**
   Starting with nothing in memory, whatever the folder contains: memory and table agree, and the gates hold
   exactly when they held for the rows that are loaded.
   */
  lemma StartEstablishes(s: Store, extract: Extractor, files: map<string, string>, compiling: set<string>)
    requires s.loaded == map[] && Faithful(s, extract)
    ensures var t := AfterLoadEnabled(AfterSync(s, extract, files), extract, compiling);
            && Agree(t) && Faithful(t, extract)
            && (Gated(t) <==>
                forall id :: LoadsAtStart(s, files, compiling, id) ==> GatesMet(s.db[id].manifest, s.db[id]))
  {
    var synced := AfterSync(s, extract, files);
    var t := AfterLoadEnabled(synced, extract, compiling);
    SyncFaithful(s, extract, files);
    SyncedEnabledIsKnown(s, extract, files);
    LoadEstablishes(synced, extract, compiling);
    forall id ensures id in t.loaded <==> LoadsAtStart(s, files, compiling, id)
              ensures id in t.loaded ==>
                        && id in s.db && t.loaded[id] == t.db[id].manifest == s.db[id].manifest
                        && (GatesMet(t.loaded[id], t.db[id]) <==> GatesMet(s.db[id].manifest, s.db[id]))
    {
      LoadedAtStart(s, extract, files, compiling, id);
    }
  }

  lemma LoadedAtStart(s: Store, extract: Extractor, files: map<string, string>, compiling: set<string>, id: string)
    requires s.loaded == map[] && Faithful(s, extract)
    ensures var t := AfterLoadEnabled(AfterSync(s, extract, files), extract, compiling);
            && (id in t.loaded <==> LoadsAtStart(s, files, compiling, id))
            && (id in t.loaded ==>
                  && id in t.db && t.loaded[id] == s.db[id].manifest
                  && t.db[id] == s.db[id].(path := files[id], lastError := ""))
  {
    var synced := AfterSync(s, extract, files);
    SyncedEnabledIsKnown(s, extract, files);
    if LoadsNow(synced, extract, id, compiling) {
      assert id in s.db && synced.db[id] == s.db[id].(path := files[id]);
    }
    if LoadsAtStart(s, files, compiling, id) {
      assert id in synced.db && synced.db[id] == s.db[id].(path := files[id]);
    }
  }

  lemma SyncedEnabledIsKnown(s: Store, extract: Extractor, files: map<string, string>)
    requires Faithful(s, extract)
    ensures var t := AfterSync(s, extract, files);
            forall id :: id in t.db && t.db[id].enabled ==>
                           && id in s.db && t.db[id] == s.db[id].(path := files[id])
                           && ReadManifest(t, extract, t.db[id].path) == Ok(t.db[id].manifest)
  {
    var t := AfterSync(s, extract, files);
    forall id | id in t.db && t.db[id].enabled
      ensures id in s.db && t.db[id] == s.db[id].(path := files[id])
      ensures ReadManifest(t, extract, t.db[id].path) == Ok(t.db[id].manifest)
    {
      assert id in s.db && t.db[id] == s.db[id].(path := files[id]);
    }
  }

  lemma LoadEstablishes(s: Store, extract: Extractor, compiling: set<string>)
    requires s.loaded == map[] && Faithful(s, extract)
    ensures var t := AfterLoadEnabled(s, extract, compiling); Agree(t) && Faithful(t, extract)
  {
  }

  // ----- Why loading an unknown package matters -----

  /** Exactly when deleting a user leaves a plugin running that needs users and has none. */
  lemma UserCleanupExact(p: Plugin, running: Manifest, userId: string)
    requires p.enabled && GatesMet(running, p) && !p.users.Malformed?
    ensures var q := UserDropped(p, userId);
            (q.enabled ==> GatesMet(running, q))
            <==> !(running.needsUsers && !p.manifest.needsUsers && !p.allUsers && Remove(p.users.items, userId) == [])
  {
    if p.users.Listed? && userId !in p.users.items {
      RemoveAbsent(p.users.items, userId);
    }
  }

  /** The same for a library. */
  lemma LibraryCleanupExact(p: Plugin, running: Manifest, libraryId: int)
    requires p.enabled && GatesMet(running, p) && !p.libraries.Malformed?
    ensures var q := LibraryDropped(p, libraryId);
            (q.enabled ==> GatesMet(running, q))
            <==> !(running.needsLibrary && !p.manifest.needsLibrary && !p.allLibraries && Remove(p.libraries.items, libraryId) == [])
  {
    if p.libraries.Listed? && libraryId !in p.libraries.items {
      RemoveAbsent(p.libraries.items, libraryId);
    }
  }

  lemma {:induction false} RemoveAbsent<T>(items: seq<T>, x: T)
    requires x !in items
    ensures Remove(items, x) == items
  {
    if items != [] {
      RemoveAbsent(items[1..], x);
    }
  }

  /** A package replaced on disk and enabled before the next rescan escapes the gate. */
  lemma EnablingUnknownPackageEscapes()
    ensures exists s: Store, extract: Extractor ::
              && Agree(s) && Faithful(s, extract) && Gated(s)
              && var t := Exec(s, extract, [Enable("plugin", true), DeleteUser("bob")]);
                 "plugin" in t.loaded && "plugin" in t.db && !GatesMet(t.loaded["plugin"], t.db["plugin"])
  {
    var known, replaced := Manifest("plugin", false, false), Manifest("plugin", true, false);
    var extract: Extractor := h => if h == "old" then Ok(known) else Ok(replaced);
    var row := Plugin("p.ndp", known, "", Listed(["bob"]), false, Blank, false, false, false, "", "old");
    var s := Store(map["plugin" := row], map[], map["p.ndp" := Readable("new")]);
    var ops := [Enable("plugin", true), DeleteUser("bob")];
    var enabled := Apply(s, extract, ops[0]);
    assert enabled.db["plugin"] == row.(enabled := true) && enabled.loaded["plugin"] == replaced;
    var t := Apply(enabled, extract, ops[1]);
    assert Remove(["bob"], "bob") == [];
    assert t.db["plugin"] == row.(enabled := true, users := Listed([]));
    assert Exec(s, extract, ops) == t by {
      assert ops[1..] == [ops[1]] && ops[1..][1..] == [];
      assert Exec(enabled, extract, [ops[1]]) == Exec(t, extract, []);
    }
  }

  // ----- What a sync settles -----

  /** Exactly which plugins have a row afterwards. */
  lemma SyncKeepsExactly(s: Store, extract: Extractor, files: map<string, string>, id: string)
    ensures id in AfterSync(s, extract, files).db <==>
              && id in files && files[id] in s.disk && s.disk[files[id]].Readable?
              && (id in s.db || extract(s.disk[files[id]].sha256).Ok?)
  {
  }

  /** Unchanged plugins keep their row and stay as loaded as they were; all others end disabled and unloaded. */
  lemma SyncTouchesOnlyChanged(s: Store, extract: Extractor, files: map<string, string>, id: string)
    requires Agree(s) && id in AfterSync(s, extract, files).db
    ensures var t := AfterSync(s, extract, files);
            if id in s.db && s.db[id].sha256 == s.disk[files[id]].sha256 then
              && t.db[id] == s.db[id].(path := files[id])
              && (id in t.loaded <==> id in s.loaded) && (id in t.loaded ==> t.loaded[id] == s.loaded[id])
            else !t.db[id].enabled && id !in t.loaded
    ensures var t := AfterSync(s, extract, files);
            id in s.db ==> t.db[id].users == s.db[id].users && t.db[id].libraries == s.db[id].libraries
                           && t.db[id].config == s.db[id].config && t.db[id].allUsers == s.db[id].allUsers
                           && t.db[id].allLibraries == s.db[id].allLibraries
  {
  }

  /** Synchronising again changes nothing. */
  lemma SyncIsIdempotent(s: Store, extract: Extractor, files: map<string, string>)
    ensures AfterSync(AfterSync(s, extract, files), extract, files) == AfterSync(s, extract, files)
  {
    var t := AfterSync(s, extract, files);
    var u := AfterSync(t, extract, files);
    forall id ensures id in u.db <==> id in t.db
              ensures id in t.db ==> u.db[id] == t.db[id] {
      if id in t.db {
        assert SyncedRow(t, extract, id, files[id]) == Ok(t.db[id]);
      }
    }
    assert u.db == t.db;
    forall id | id in t.loaded ensures KeepsLoaded(t, files, id) {
      assert KeepsLoaded(s, files, id);
    }
    assert u.loaded == t.loaded;
  }

  /** The event for one name whose file can be hashed does to that name what the sync does, and nothing to others. */
  lemma FileEventIsSyncOfOne(s: Store, extract: Extractor, files: map<string, string>, name: string)
    requires Agree(s) && name in files && files[name] in s.disk && s.disk[files[name]].Readable?
    ensures var t, u := AfterFileEvent(s, extract, name, files[name]), AfterSync(s, extract, files);
            && (name in t.db <==> name in u.db) && (name in t.loaded <==> name in u.loaded)
            && (name in t.db ==> u.db[name] == t.db[name].(path := u.db[name].path))
            && OnlyTouches(s, t, name)
  {
  }
}
