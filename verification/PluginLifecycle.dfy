/**
 The plugin table and the map of loaded plugins, and what each lifecycle operation makes of them.
 Reading a package is a function of its contents, which are known by their SHA-256; compiling a package
 succeeds or fails arbitrarily.
 */
module PluginLifecycle {
  import opened Wrappers

  /** A text column that should hold a JSON array. */
  datatype JsonList<T> = Blank | Malformed | Listed(items: seq<T>)

  datatype Manifest = Manifest(name: string, needsUsers: bool, needsLibrary: bool)

  datatype Plugin = Plugin(
    path: string, manifest: Manifest, config: string,
    users: JsonList<string>, allUsers: bool,
    libraries: JsonList<int>, allLibraries: bool, allowWriteAccess: bool,
    enabled: bool, lastError: string, sha256: string)

  /** A file in the plugins folder: readable, with its hash, or not. */
  datatype File = Readable(sha256: string) | Unreadable

  /** What reading the manifest out of a package with a given hash yields. */
  type Extractor = string -> Result<Manifest>

  /** `loaded` maps a plugin in memory to the manifest it was loaded with. */
  datatype Store = Store(db: map<string, Plugin>, loaded: map<string, Manifest>, disk: map<string, File>)

  datatype Settings =
    | SetConfig(config: string)
    | SetUsers(users: JsonList<string>, allUsers: bool)
    | SetLibraries(libraries: JsonList<int>, allLibraries: bool, allowWriteAccess: bool)

  datatype Operation =
    | Enable(id: string, compiles: bool)
    | Disable(id: string)
    | Update(id: string, settings: Settings, compiles: bool)
    | Sync(files: map<string, string>)
    | FileEvent(name: string, path: string)
    | DeleteUser(userId: string)
    | DeleteLibrary(libraryId: int)
      // Somebody else writes the plugins folder
    | ChangeDisk(disk: map<string, File>)

  // ----- Permission gates -----

  predicate HasValidUsers(p: Plugin) {
    p.allUsers || (p.users.Listed? && |p.users.items| > 0)
  }

  predicate HasValidLibraries(p: Plugin) {
    p.allLibraries || (p.libraries.Listed? && |p.libraries.items| > 0)
  }

  predicate GatesMet(m: Manifest, p: Plugin) {
    (m.needsUsers ==> HasValidUsers(p)) && (m.needsLibrary ==> HasValidLibraries(p))
  }

  // ----- Reading and loading packages -----

  function ReadManifest(s: Store, extract: Extractor, path: string): Result<Manifest> {
    if path in s.disk && s.disk[path].Readable? then extract(s.disk[path].sha256)
    else Err("opening package")
  }

  /** Loading a plugin: the manifest it runs with, or what went wrong on the way into memory. */
  function Load(s: Store, extract: Extractor, p: Plugin, compiles: bool): Result<Manifest> {
    if p.users.Malformed? then Err("parsing plugin users")
    else if p.libraries.Malformed? then Err("parsing plugin libraries")
    else if ReadManifest(s, extract, p.path).Ok? && !compiles then Err("compiling plugin")
    else ReadManifest(s, extract, p.path)
  }

  function Unload(s: Store, id: string): Store {
    s.(loaded := s.loaded - {id})
  }

  function Put(s: Store, id: string, p: Plugin): Store {
    s.(db := s.db[id := p])
  }

  // ----- Enable, disable, settings -----

  function AfterEnable(s: Store, extract: Extractor, id: string, compiles: bool): Store {
    if id !in s.db || s.db[id].enabled then s
    else
      var p := s.db[id];
      var m := ReadManifest(s, extract, p.path);
      if m.Err? || !GatesMet(m.value, p) then s
      else
        match Load(s, extract, p, compiles)
        case Err(e) => Put(s, id, p.(lastError := e))
        case Ok(running) => Put(s, id, p.(enabled := true, lastError := "")).(loaded := s.loaded[id := running])
  }

  function AfterDisable(s: Store, id: string): Store {
    if id !in s.db || !s.db[id].enabled then s
    else Put(Unload(s, id), id, s.db[id].(enabled := false))
  }

  function WithSettings(p: Plugin, u: Settings): Plugin {
    match u
    case SetConfig(c) => p.(config := c)
    case SetUsers(users, all) => p.(users := users, allUsers := all)
    case SetLibraries(libraries, all, write) => p.(libraries := libraries, allLibraries := all, allowWriteAccess := write)
  }

  function AfterUpdate(s: Store, extract: Extractor, id: string, u: Settings, compiles: bool): Store {
    if id !in s.db then s else AfterSaving(s, extract, id, WithSettings(s.db[id], u), compiles)
  }

  /** Stores the row with its new settings; an enabled plugin is loaded again, or disabled. */
  function AfterSaving(s: Store, extract: Extractor, id: string, p: Plugin, compiles: bool): Store {
    if !p.enabled then Put(s, id, p)
    else if MustDisable(s, extract, p) then Put(Unload(s, id), id, p.(enabled := false))
    else
      match Load(s, extract, p, compiles)
      case Err(e) => Put(Unload(s, id), id, p.(enabled := false, lastError := e))
      case Ok(running) => Put(s, id, p).(loaded := s.loaded[id := running])
  }

  /** The settings no longer meet the gates of the package, as far as it can be read. */
  predicate MustDisable(s: Store, extract: Extractor, p: Plugin) {
    var m := ReadManifest(s, extract, p.path);
    p.enabled && m.Ok? && !GatesMet(m.value, p)
  }

  // ----- Folder synchronisation, one name at a time -----

  /** A new row is disabled and has no settings. */
  function NewRow(path: string, m: Manifest, sha256: string): Plugin {
    Plugin(path, m, "", Blank, false, Blank, false, false, false, "", sha256)
  }

  /** What becomes of a row whose file is present; None: no row. A file that cannot be hashed loses its row. */
  function SyncedRow(s: Store, extract: Extractor, name: string, path: string): (r: Result<Plugin>) {
    if path !in s.disk || s.disk[path].Unreadable? then Err("no row")
    else
      var sha := s.disk[path].sha256;
      if name in s.db && s.db[name].sha256 == sha then Ok(s.db[name].(path := path))
      else
        match extract(sha)
        case Err(e) =>
          if name in s.db then Ok(s.db[name].(lastError := e, enabled := false)) else Err("no row")
        case Ok(m) =>
          if name in s.db then
            Ok(s.db[name].(path := path, manifest := m, sha256 := sha, enabled := false, lastError := ""))
          else Ok(NewRow(path, m, sha))
  }

  /** Whether synchronising leaves the loaded plugin alone. */
  predicate StaysLoaded(s: Store, name: string, path: string) {
    || name !in s.db || !s.db[name].enabled
    || (path in s.disk && s.disk[path].Readable? && s.db[name].sha256 == s.disk[path].sha256)
  }

  predicate KeepsLoaded(s: Store, files: map<string, string>, id: string) {
    if id in files then StaysLoaded(s, id, files[id]) else id !in s.db || !s.db[id].enabled
  }

  predicate HasRowAfterSync(s: Store, extract: Extractor, files: map<string, string>, id: string) {
    id in files && SyncedRow(s, extract, id, files[id]).Ok?
  }

  function AfterSync(s: Store, extract: Extractor, files: map<string, string>): Store {
    s.(db := map id | id in files && HasRowAfterSync(s, extract, files, id) :: SyncedRow(s, extract, id, files[id]).value,
       loaded := map id | id in s.loaded && KeepsLoaded(s, files, id) :: s.loaded[id])
  }

  /** One debounced watcher event; unlike a sync, a file that cannot be hashed changes nothing. */
  function AfterFileEvent(s: Store, extract: Extractor, name: string, path: string): Store {
    if path !in s.disk then
      if name !in s.db then s
      else
        var t := s.(db := s.db - {name});
        if s.db[name].enabled then Unload(t, name) else t
    else if s.disk[path].Unreadable? then s
    else if name in s.db && s.db[name].sha256 == s.disk[path].sha256 then s
    else
      var row := SyncedRow(s, extract, name, path);
      if row.Err? then s
      else
        var t := Put(s, name, row.value);
        if name in s.db && s.db[name].enabled then Unload(t, name) else t
  }

  // ----- Deleting users and libraries -----

  function Remove<T(==)>(items: seq<T>, x: T): seq<T> {
    if items == [] then [] else (if items[0] == x then [] else [items[0]]) + Remove(items[1..], x)
  }

  function RemoveFrom<T(==)>(l: JsonList<T>, x: T): JsonList<T> {
    if l.Listed? && x in l.items then Listed(Remove(l.items, x)) else l
  }

  predicate Empty<T>(l: JsonList<T>) {
    l.Blank? || (l.Listed? && |l.items| == 0)
  }

  /** Drops the user from the row, then disables the row if its stored manifest needs users and none are left. */
  function UserDropped(p: Plugin, userId: string): Plugin {
    var q := p.(users := RemoveFrom(p.users, userId));
    if q.enabled && !q.allUsers && q.manifest.needsUsers && Empty(q.users) then q.(enabled := false) else q
  }

  function LibraryDropped(p: Plugin, libraryId: int): Plugin {
    var q := p.(libraries := RemoveFrom(p.libraries, libraryId));
    if q.enabled && !q.allLibraries && q.manifest.needsLibrary && Empty(q.libraries) then q.(enabled := false) else q
  }

  /** SQLite rejects the whole statement when a column is not JSON; the error is only logged. */
  function UserCleanup(s: Store, userId: string): Store {
    if exists id :: id in s.db && s.db[id].users.Malformed? then s
    else s.(db := map id | id in s.db :: UserDropped(s.db[id], userId))
  }

  function LibraryCleanup(s: Store, libraryId: int): Store {
    if exists id :: id in s.db && s.db[id].libraries.Malformed? then s
    else s.(db := map id | id in s.db :: LibraryDropped(s.db[id], libraryId))
  }

  function DisabledUnloaded(s: Store): Store {
    s.(loaded := map id | id in s.loaded && !(id in s.db && !s.db[id].enabled) :: s.loaded[id])
  }

  // ----- Starting up -----

  /** Errors from the last run are forgotten, so that plugins are tried again. */
  function ErrorsCleared(s: Store): Store {
    s.(db := map id | id in s.db :: s.db[id].(lastError := ""))
  }

  /** Loads every enabled plugin; those that cannot be loaded are disabled with the error. */
  function AfterLoadEnabled(s: Store, extract: Extractor, compiling: set<string>): Store {
    s.(db := map id | id in s.db :: LoadedRow(s, extract, id, compiling),
       loaded := map id | id in s.loaded.Keys + s.db.Keys && (LoadsNow(s, extract, id, compiling) || id in s.loaded) ::
         RunningManifest(s, extract, id, compiling))
  }

  function RunningManifest(s: Store, extract: Extractor, id: string, compiling: set<string>): Manifest
    requires LoadsNow(s, extract, id, compiling) || id in s.loaded
  {
    if LoadsNow(s, extract, id, compiling) then Load(s, extract, s.db[id], id in compiling).value else s.loaded[id]
  }

  function LoadedRow(s: Store, extract: Extractor, id: string, compiling: set<string>): Plugin
    requires id in s.db
  {
    var p := s.db[id];
    if !p.enabled then p
    else
      match Load(s, extract, p, id in compiling)
      case Err(e) => p.(enabled := false, lastError := e)
      case Ok(_) => p.(lastError := "")
  }

  predicate LoadsNow(s: Store, extract: Extractor, id: string, compiling: set<string>) {
    id in s.db && s.db[id].enabled && Load(s, extract, s.db[id], id in compiling).Ok?
  }

  // ----- The transition system -----

  function Apply(s: Store, extract: Extractor, op: Operation): Store {
    match op
    case Enable(id, compiles) => AfterEnable(s, extract, id, compiles)
    case Disable(id) => AfterDisable(s, id)
    case Update(id, u, compiles) => AfterUpdate(s, extract, id, u, compiles)
    case Sync(files) => AfterSync(s, extract, files)
    case FileEvent(name, path) => AfterFileEvent(s, extract, name, path)
    case DeleteUser(userId) => DisabledUnloaded(UserCleanup(s, userId))
    case DeleteLibrary(libraryId) => DisabledUnloaded(LibraryCleanup(s, libraryId))
    case ChangeDisk(disk) => s.(disk := disk)
  }

  function Exec(s: Store, extract: Extractor, ops: seq<Operation>): Store
    decreases |ops|
  {
    if ops == [] then s else Exec(Apply(s, extract, ops[0]), extract, ops[1..])
  }

  // ----- What must hold -----

  /** A plugin is in memory exactly when its row says enabled. */
  ghost predicate Agree(s: Store) {
    forall id :: id in s.loaded <==> id in s.db && s.db[id].enabled
  }

  /** Every row's manifest is the one its hash stands for. */
  ghost predicate Faithful(s: Store, extract: Extractor) {
    forall id :: id in s.db ==> extract(s.db[id].sha256) == Ok(s.db[id].manifest)
  }

  /** Every plugin in memory runs the manifest in its row, and the row meets that manifest's permission gates. */
  ghost predicate Gated(s: Store) {
    forall id :: id in s.loaded ==> id in s.db && s.loaded[id] == s.db[id].manifest && GatesMet(s.loaded[id], s.db[id])
  }

  /** The row's stored hash is that of the file at its path, if that file can be read at all. */
  predicate UpToDate(s: Store, id: string) {
    id in s.db && s.db[id].path in s.disk && s.disk[s.db[id].path].Readable?
    ==> s.disk[s.db[id].path].sha256 == s.db[id].sha256
  }

  /** Loading must not pick up a package the table does not know yet. */
  predicate LoadsKnownPackage(s: Store, op: Operation) {
    op.Enable? || op.Update? ==> UpToDate(s, op.id)
  }
}
