/** The cloud sync service: it mirrors the four persisted stores between the
    browser's local storage and one JSON file in a user-chosen cloud folder,
    keeps a `SyncStatus` record and tells every subscribed listener each
    time that record changes.

    The folder, the permission answers, the clock and the file write are the
    environment: a sync receives them as an `Env`. The remote file itself is
    part of the state, so that a push followed by a pull can be followed
    through. Each callback invocation is recorded in a notification log. */
module CloudSync {
  import opened Strings
  import opened Types

  // ---------------------------------------------------------------------
  // Constants
  // ---------------------------------------------------------------------

  const UsersKey := "education-app-users"
  const ChildrenKey := "education-app-children"
  const ProgressKey := "education-app-progress"
  const AssignmentsKey := "education-app-assignments"
  const DeviceIdKey := "deviceId"

  /** What `gatherData` sends for a store that local storage does not hold. */
  const DefaultDomain := "{\"state\":{}}"

  const NotSetupError := "Cloud sync not setup"
  const SyncFailedPrefix := "Sync failed: "
  const PermissionDenied := "Permission denied"
  /** What `JSON.parse` throws on an empty text (V8's wording). */
  const EmptyFileError := "Unexpected end of JSON input"
  const NotSupportedError := "File System Access API not supported in this browser. Please use Chrome or Edge."
  const SetupFailedPrefix := "Failed to setup cloud sync: "

  // ---------------------------------------------------------------------
  // Data
  // ---------------------------------------------------------------------

  /** The text of a JSON value. */
  type Json = string

  /** The identity of a subscribed callback. */
  type ListenerId = nat

  datatype FolderHandle = FolderHandle(name: string)

  datatype SyncStatus = SyncStatus(
    isSetup: bool,
    lastSync: Option<Timestamp>,
    isSyncing: bool,
    error: Option<string>)

  const InitialStatus := SyncStatus(false, None, false, None)

  /** A `Partial<SyncStatus>`: `None` leaves the field alone; `Some(v)`
      writes `v` (which for `lastSync` and `error` may be null). */
  datatype StatusUpdate = StatusUpdate(
    isSetup: Option<bool>,
    lastSync: Option<Option<Timestamp>>,
    isSyncing: Option<bool>,
    error: Option<Option<string>>)

  const NoChange := StatusUpdate(None, None, None, None)

  /** The sync file's contents (`SyncData`). A domain is `None` when it is
      missing or falsy in the file. */
  datatype Snapshot = Snapshot(
    users: Option<Json>,
    children: Option<Json>,
    progress: Option<Json>,
    assignments: Option<Json>,
    lastSyncTime: Timestamp,
    deviceId: string)

  /** The sync file in the folder: not there yet, there but unreadable or
      not JSON (with the error's message), or there. */
  datatype RemoteFile = Missing | Unreadable(message: string) | Present(data: Snapshot)

  datatype Notification = Notification(listener: ListenerId, status: SyncStatus)

  /** The browser's answers to `queryPermission` and, when that is not
      granted, to `requestPermission`. */
  datatype Access = Access(queryGranted: bool, requestGranted: bool)

  predicate Granted(a: Access) {
    a.queryGranted || a.requestGranted
  }

  /** How writing the sync file ends: it is written; `getFileHandle` fails
      before any file is created; or the handle was obtained (creating an
      empty file when there was none) and `createWritable`, `write` or
      `close` fails. A failed write leaves an existing file as it was. */
  datatype WriteOutcome = Written | HandleFailed(message: string) | WriteFailed(message: string)

  /** What one sync sees of the outside world: the permission answers, the
      clock, and how writing the file ends. */
  datatype Env = Env(access: Access, now: Timestamp, write: WriteOutcome)

  /** The outcome of `showDirectoryPicker`. */
  datatype PickResult = Picked(handle: FolderHandle) | Aborted | PickFailed(message: string)

  /** Everything the service changes: its fields, the local storage, the
      remote file, the notification log and whether a page reload was
      requested. */
  datatype SyncState = SyncState(
    folder: Option<FolderHandle>,
    autoSync: bool,
    listeners: seq<ListenerId>,
    status: SyncStatus,
    notifications: seq<Notification>,
    storage: map<string, string>,
    remote: RemoteFile,
    reloadRequested: bool)

  // ---------------------------------------------------------------------
  // Device id
  // ---------------------------------------------------------------------

  /** `getOrCreateDeviceId`: the stored id when there is a non-empty one;
      otherwise `device-<now>-<random>`, which is then stored. */
  function GetOrCreateDeviceId(storage: map<string, string>, now: Timestamp, random: string)
    : (r: (string, map<string, string>))
    ensures r.0 != [] && DeviceIdKey in r.1 && r.1[DeviceIdKey] == r.0
    ensures DeviceIdKey in storage && storage[DeviceIdKey] != [] ==>
              r.0 == storage[DeviceIdKey] && r.1 == storage
    ensures !(DeviceIdKey in storage && storage[DeviceIdKey] != []) ==>
              r.0 == "device-" + NatToString(now) + "-" + random
    ensures forall k :: k != DeviceIdKey ==>
              (k in r.1 <==> k in storage) && (k in storage ==> r.1[k] == storage[k])
  {
    if DeviceIdKey in storage && storage[DeviceIdKey] != [] then (storage[DeviceIdKey], storage)
    else
      var id := "device-" + NatToString(now) + "-" + random;
      (id, storage[DeviceIdKey := id])
  }

  /** Once created, the device id is stable: a later start reads it back. */
  lemma DeviceIdStable(storage: map<string, string>, now: Timestamp, random: string, later: Timestamp, random2: string)
    ensures var (id, stored) := GetOrCreateDeviceId(storage, now, random);
            GetOrCreateDeviceId(stored, later, random2) == (id, stored)
  {
  }

  // ---------------------------------------------------------------------
  // Status and listeners
  // ---------------------------------------------------------------------

  /** `{ ...status, ...updates }`. */
  function Merge(s: SyncStatus, u: StatusUpdate): (r: SyncStatus)
    ensures r.isSetup == (if u.isSetup.Some? then u.isSetup.value else s.isSetup)
    ensures r.lastSync == (if u.lastSync.Some? then u.lastSync.value else s.lastSync)
    ensures r.isSyncing == (if u.isSyncing.Some? then u.isSyncing.value else s.isSyncing)
    ensures r.error == (if u.error.Some? then u.error.value else s.error)
  {
    SyncStatus(
      if u.isSetup.Some? then u.isSetup.value else s.isSetup,
      if u.lastSync.Some? then u.lastSync.value else s.lastSync,
      if u.isSyncing.Some? then u.isSyncing.value else s.isSyncing,
      if u.error.Some? then u.error.value else s.error)
  }

  /** Applying `u` and then `v` is applying their spread `{ ...u, ...v }`. */
  function Then(u: StatusUpdate, v: StatusUpdate): StatusUpdate {
    StatusUpdate(
      if v.isSetup.Some? then v.isSetup else u.isSetup,
      if v.lastSync.Some? then v.lastSync else u.lastSync,
      if v.isSyncing.Some? then v.isSyncing else u.isSyncing,
      if v.error.Some? then v.error else u.error)
  }

  /** The empty update changes nothing, updates compose by spreading, and
      applying the same update twice is applying it once. */
  lemma MergeLaws(s: SyncStatus, u: StatusUpdate, v: StatusUpdate)
    ensures Merge(s, NoChange) == s
    ensures Merge(Merge(s, u), v) == Merge(s, Then(u, v))
    ensures Merge(Merge(s, u), u) == Merge(s, u)
  {
  }

  /** One call of every listener, in subscription order, with `st`. */
  function Broadcast(ls: seq<ListenerId>, st: SyncStatus): (r: seq<Notification>)
    ensures |r| == |ls|
    ensures forall i :: 0 <= i < |r| ==> r[i] == Notification(ls[i], st)
  {
    seq(|ls|, i requires 0 <= i < |ls| => Notification(ls[i], st))
  }

  /** `updateStatus`: merge the update, then notify every listener. */
  function Update(st: SyncState, u: StatusUpdate): SyncState {
    var s := Merge(st.status, u);
    st.(status := s, notifications := st.notifications + Broadcast(st.listeners, s))
  }

  /** `subscribe`: append the callback and call it once with the current
      status. */
  function Subscribed(st: SyncState, cb: ListenerId): SyncState {
    st.(listeners := st.listeners + [cb],
        notifications := st.notifications + [Notification(cb, st.status)])
  }

  /** `listeners.filter(l => l !== cb)`. */
  function Remove(ls: seq<ListenerId>, cb: ListenerId): (r: seq<ListenerId>)
    ensures forall x :: x in r <==> x in ls && x != cb
    ensures cb !in ls ==> r == ls
  {
    if ls == [] then []
    else if ls[0] == cb then Remove(ls[1..], cb)
    else [ls[0]] + Remove(ls[1..], cb)
  }

  /** The function `subscribe` returns. */
  function Unsubscribed(st: SyncState, cb: ListenerId): SyncState {
    st.(listeners := Remove(st.listeners, cb))
  }

  lemma {:induction false} RemoveAppend(ls: seq<ListenerId>, x: ListenerId, cb: ListenerId)
    ensures Remove(ls + [x], cb) == Remove(ls, cb) + (if x == cb then [] else [x])
  {
    if ls != [] {
      RemoveAppend(ls[1..], x, cb);
      assert (ls + [x])[1..] == ls[1..] + [x];
    }
  }

  /** Subscribing tells the new listener the current status once; calling
      the returned unsubscribe function removes that callback and keeps
      every other listener, in order. */
  lemma SubscribeThenUnsubscribe(st: SyncState, cb: ListenerId)
    ensures Subscribed(st, cb).listeners == st.listeners + [cb]
    ensures Subscribed(st, cb).notifications == st.notifications + [Notification(cb, st.status)]
    ensures Unsubscribed(Subscribed(st, cb), cb).listeners == Remove(st.listeners, cb)
    ensures cb !in st.listeners ==> Unsubscribed(Subscribed(st, cb), cb) == st.(notifications := Subscribed(st, cb).notifications)
  {
    RemoveAppend(st.listeners, cb, cb);
  }

  // ---------------------------------------------------------------------
  // Local storage
  // ---------------------------------------------------------------------

  /** `JSON.parse(localStorage.getItem(key) || '{"state":{}}')`. */
  function ReadDomain(storage: map<string, string>, key: string): (r: Json)
    ensures r != []
    ensures key in storage && storage[key] != [] ==> r == storage[key]
    ensures !(key in storage && storage[key] != []) ==> r == DefaultDomain
  {
    if key in storage && storage[key] != [] then storage[key] else DefaultDomain
  }

  /** `gatherData`: every domain, defaulted when absent, stamped with the
      time and this device's id. */
  function Gather(storage: map<string, string>, deviceId: string, now: Timestamp): (r: Snapshot)
    ensures r.users == Some(ReadDomain(storage, UsersKey))
    ensures r.children == Some(ReadDomain(storage, ChildrenKey))
    ensures r.progress == Some(ReadDomain(storage, ProgressKey))
    ensures r.assignments == Some(ReadDomain(storage, AssignmentsKey))
    ensures r.lastSyncTime == now && r.deviceId == deviceId
  {
    Snapshot(
      Some(ReadDomain(storage, UsersKey)),
      Some(ReadDomain(storage, ChildrenKey)),
      Some(ReadDomain(storage, ProgressKey)),
      Some(ReadDomain(storage, AssignmentsKey)),
      now, deviceId)
  }

  function Put(storage: map<string, string>, key: string, v: Option<Json>): map<string, string> {
    if v.Some? then storage[key := v.value] else storage
  }

  /** `key` holds `v` when it is present, and keeps its old entry (or
      absence) otherwise. */
  predicate Written(old_: map<string, string>, r: map<string, string>, key: string, v: Option<Json>) {
    if v.Some? then key in r && r[key] == v.value
    else (key in r <==> key in old_) && (key in old_ ==> r[key] == old_[key])
  }

  predicate IsDomainKey(k: string) {
    k == UsersKey || k == ChildrenKey || k == ProgressKey || k == AssignmentsKey
  }

  /** `applyData`: overwrite the domains present in the snapshot; every
      other key keeps its value. */
  function Apply(storage: map<string, string>, snap: Snapshot): (r: map<string, string>)
    ensures Written(storage, r, UsersKey, snap.users)
    ensures Written(storage, r, ChildrenKey, snap.children)
    ensures Written(storage, r, ProgressKey, snap.progress)
    ensures Written(storage, r, AssignmentsKey, snap.assignments)
    ensures forall k :: !IsDomainKey(k) ==>
              (k in r <==> k in storage) && (k in storage ==> r[k] == storage[k])
  {
    Put(Put(Put(Put(storage, UsersKey, snap.users), ChildrenKey, snap.children),
            ProgressKey, snap.progress), AssignmentsKey, snap.assignments)
  }

  /** Applying what this storage gathers changes nothing but filling in
      the default for a store it did not hold. */
  lemma GatherThenApply(storage: map<string, string>, deviceId: string, now: Timestamp)
    ensures var r := Apply(storage, Gather(storage, deviceId, now));
            && (forall k :: IsDomainKey(k) ==> k in r && r[k] == ReadDomain(storage, k))
            && (forall k :: !IsDomainKey(k) ==> (k in r <==> k in storage) && (k in storage ==> r[k] == storage[k]))
    ensures (forall k :: IsDomainKey(k) ==> k in storage && storage[k] != []) ==>
              Apply(storage, Gather(storage, deviceId, now)) == storage
  {
    var r := Apply(storage, Gather(storage, deviceId, now));
    if forall k :: IsDomainKey(k) ==> k in storage && storage[k] != [] {
      assert IsDomainKey(UsersKey) && IsDomainKey(ChildrenKey);
      assert IsDomainKey(ProgressKey) && IsDomainKey(AssignmentsKey);
      assert r.Keys == storage.Keys;
    }
  }

  // ---------------------------------------------------------------------
  // Push, pull and sync
  // ---------------------------------------------------------------------

  function Busy(st: SyncState): SyncState {
    Update(st, NoChange.(isSyncing := Some(true), error := Some(None)))
  }

  function Failed(st: SyncState, message: string): SyncState {
    Update(st, NoChange.(isSyncing := Some(false), error := Some(Some(SyncFailedPrefix + message))))
  }

  function NotSetup(st: SyncState): SyncState {
    Update(st, NoChange.(error := Some(Some(NotSetupError))))
  }

  /** The file after `getFileHandle(SYNC_FILE_NAME, { create: true })`: a
      missing file now exists and is empty, so parsing it fails. */
  function Created(f: RemoteFile): (r: RemoteFile)
    ensures f.Missing? ==> r == Unreadable(EmptyFileError)
    ensures !f.Missing? ==> r == f
  {
    if f.Missing? then Unreadable(EmptyFileError) else f
  }

  /** `syncToCloud`. */
  function Push(st: SyncState, deviceId: string, env: Env): (bool, SyncState) {
    if st.folder.None? then (false, NotSetup(st))
    else
      var busy := Busy(st);
      if !Granted(env.access) then (false, Failed(busy, PermissionDenied))
      else
        match env.write
        case HandleFailed(message) => (false, Failed(busy, message))
        case WriteFailed(message) => (false, Failed(busy.(remote := Created(busy.remote)), message))
        case Written =>
        var written := busy.(remote := Present(Gather(busy.storage, deviceId, env.now)));
        (true, Update(written, NoChange.(isSyncing := Some(false), lastSync := Some(Some(env.now)), error := Some(None))))
  }

  /** The decision rule: the remote data is newer than the last sync (0
      when there was none) or comes from another device. */
  predicate ShouldApply(snap: Snapshot, lastSync: Option<Timestamp>, deviceId: string) {
    snap.lastSyncTime > (if lastSync.Some? then lastSync.value else 0) || snap.deviceId != deviceId
  }

  /** `syncFromCloud`. */
  function Pull(st: SyncState, deviceId: string, env: Env): (bool, SyncState) {
    if st.folder.None? then (false, NotSetup(st))
    else
      var busy := Busy(st);
      if !Granted(env.access) then (false, Failed(busy, PermissionDenied))
      else
        match busy.remote
        case Missing => Push(busy, deviceId, env)
        case Unreadable(message) => (false, Failed(busy, message))
        case Present(snap) =>
          if ShouldApply(snap, busy.status.lastSync, deviceId) then
            var applied := busy.(storage := Apply(busy.storage, snap));
            var done := Update(applied, NoChange.(isSyncing := Some(false), lastSync := Some(Some(snap.lastSyncTime)), error := Some(None)));
            (true, done.(reloadRequested := true))
          else
            (true, Update(busy, NoChange.(isSyncing := Some(false), error := Some(None))))
  }

  /** `sync`: pull, then push if the pull succeeded and left no error. */
  function Synced(st: SyncState, deviceId: string, env: Env): (bool, SyncState) {
    var (loaded, pulled) := Pull(st, deviceId, env);
    if loaded && pulled.status.error.None? then Push(pulled, deviceId, env) else (loaded, pulled)
  }

  /** The auto-sync interval callback, while the interval is running. */
  function Tick(st: SyncState, deviceId: string, env: Env): SyncState {
    if st.autoSync && st.folder.Some? && !st.status.isSyncing then Synced(st, deviceId, env).1 else st
  }

  /** `setupCloudSync`. Saving the handle to IndexedDB is not modelled; its
      failures are swallowed by the source anyway. */
  function Setup(st: SyncState, deviceId: string, supported: bool, pick: PickResult, env: Env): (bool, SyncState) {
    if !supported then (false, Update(st, NoChange.(error := Some(Some(NotSupportedError)))))
    else
      match pick
      case Aborted => (false, Update(st, NoChange.(error := Some(None))))
      case PickFailed(message) => (false, Update(st, NoChange.(error := Some(Some(SetupFailedPrefix + message)))))
      case Picked(h) =>
        var ready := Update(st.(folder := Some(h)), NoChange.(isSetup := Some(true), error := Some(None)));
        (true, Push(ready, deviceId, env).1.(autoSync := true))
  }

  /** `disconnect`. */
  function Disconnected(st: SyncState): SyncState {
    Update(st.(autoSync := false, folder := None),
           NoChange.(isSetup := Some(false), lastSync := Some(None), error := Some(None)))
  }

  // ---------------------------------------------------------------------
  // Properties
  // ---------------------------------------------------------------------

  /** Without a folder, push and pull report 'Cloud sync not setup', return
      false and change no other status field, the storage or the file. */
  lemma WithoutFolder(st: SyncState, deviceId: string, env: Env)
    requires st.folder.None?
    ensures !Push(st, deviceId, env).0 && !Pull(st, deviceId, env).0
    ensures Push(st, deviceId, env).1.status == st.status.(error := Some("Cloud sync not setup"))
    ensures Pull(st, deviceId, env).1.status == st.status.(error := Some("Cloud sync not setup"))
    ensures Pull(st, deviceId, env).1.storage == st.storage && Push(st, deviceId, env).1.remote == st.remote
  {
  }

  /** When permission is refused on query and on request, both directions
      fail with 'Sync failed: Permission denied', stop syncing, and touch
      neither the storage nor the file. */
  lemma PermissionRefused(st: SyncState, deviceId: string, env: Env)
    requires st.folder.Some? && !env.access.queryGranted && !env.access.requestGranted
    ensures var (ok, r) := Push(st, deviceId, env);
            !ok && r.status.error == Some("Sync failed: Permission denied") && !r.status.isSyncing
            && r.storage == st.storage && r.remote == st.remote
    ensures var (ok, r) := Pull(st, deviceId, env);
            !ok && r.status.error == Some("Sync failed: Permission denied") && !r.status.isSyncing
            && r.storage == st.storage && r.remote == st.remote
  {
    assert SyncFailedPrefix + PermissionDenied == "Sync failed: Permission denied";
  }

  /** A successful push writes this storage's snapshot, stamped now with
      this device's id, records `now` as the last sync and clears the error;
      the local storage does not change. */
  lemma PushWrites(st: SyncState, deviceId: string, env: Env)
    requires st.folder.Some? && Granted(env.access) && env.write.Written?
    ensures var (ok, r) := Push(st, deviceId, env);
            && ok && r.remote == Present(Gather(st.storage, deviceId, env.now))
            && r.storage == st.storage
            && r.status == st.status.(lastSync := Some(env.now), isSyncing := false, error := None)
  {
  }

  /** With a readable file, the pull succeeds, and it applies the file iff
      the decision rule holds: the storage then takes the file's domains and
      the last sync becomes the file's time; otherwise storage and last sync
      stay. */
  lemma PullDecides(st: SyncState, deviceId: string, env: Env)
    requires st.folder.Some? && Granted(env.access) && st.remote.Present?
    ensures var (ok, r) := Pull(st, deviceId, env);
            var snap := st.remote.data;
            && ok && r.status.error.None? && !r.status.isSyncing && r.remote == st.remote
            && (ShouldApply(snap, st.status.lastSync, deviceId) ==>
                  r.storage == Apply(st.storage, snap) && r.status.lastSync == Some(snap.lastSyncTime))
            && (!ShouldApply(snap, st.status.lastSync, deviceId) ==>
                  r.storage == st.storage && r.status.lastSync == st.status.lastSync)
  {
  }

  /** A missing file makes the pull a push (after it has marked itself
      busy); an unreadable one fails with its message. */
  lemma PullFallsBack(st: SyncState, deviceId: string, env: Env)
    requires st.folder.Some? && Granted(env.access)
    ensures st.remote.Missing? ==> Pull(st, deviceId, env) == Push(Busy(st), deviceId, env)
    ensures st.remote.Unreadable? ==>
              var (ok, r) := Pull(st, deviceId, env);
              !ok && r.status.error == Some(SyncFailedPrefix + st.remote.message) && r.storage == st.storage
  {
  }

  /** A failed write reports its message and keeps the storage. A handle
      that cannot be obtained leaves the file as it was; a write that fails
      after the handle was obtained leaves an existing file as it was but
      turns a missing one into an empty file. */
  lemma PushFailureLeavesFile(st: SyncState, deviceId: string, env: Env)
    requires st.folder.Some? && Granted(env.access) && !env.write.Written?
    ensures var (ok, r) := Push(st, deviceId, env);
            && !ok && !r.status.isSyncing && r.storage == st.storage && r.folder == st.folder
            && r.status.error == Some(SyncFailedPrefix + env.write.message)
            && (env.write.HandleFailed? || !st.remote.Missing? ==> r.remote == st.remote)
            && (env.write.WriteFailed? && st.remote.Missing? ==> r.remote == Unreadable(EmptyFileError))
  {
  }

  /** An unreadable file makes `sync` fail with its message without
      writing: the pull fails, so no push follows. */
  lemma UnreadableBlocksSync(st: SyncState, deviceId: string, env: Env)
    requires st.folder.Some? && st.remote.Unreadable? && Granted(env.access)
    ensures var (loaded, r) := Synced(st, deviceId, env);
            && !loaded && r.remote == st.remote && r.storage == st.storage
            && r.status.error == Some(SyncFailedPrefix + st.remote.message)
  {
    assert Pull(st, deviceId, env) == (false, Failed(Busy(st), st.remote.message));
  }

  /** Once a first write has failed after creating the file, every later
      sync fails on the empty file ('Sync failed: Unexpected end of JSON
      input') instead of falling back to a push, and so never writes it. */
  lemma EmptyFileBlocksSync(st: SyncState, deviceId: string, env: Env, later: Env)
    requires st.folder.Some? && st.remote.Missing? && Granted(env.access) && env.write.WriteFailed?
    requires Granted(later.access)
    ensures var r := Push(st, deviceId, env).1;
            var (loaded, s) := Synced(r, deviceId, later);
            && !loaded && s.remote == r.remote == Unreadable(EmptyFileError)
            && s.status.error == Some(SyncFailedPrefix + EmptyFileError)
  {
    PushFailureLeavesFile(st, deviceId, env);
    var r := Push(st, deviceId, env).1;
    UnreadableBlocksSync(r, deviceId, later);
  }

  /** A pull that returns true always leaves the error cleared. */
  lemma PullSuccessClearsError(st: SyncState, deviceId: string, env: Env)
    ensures Pull(st, deviceId, env).0 ==> Pull(st, deviceId, env).1.status.error.None?
  {
  }

  /** Hence `sync` pushes exactly when its pull succeeded. */
  lemma SyncPushesAfterPull(st: SyncState, deviceId: string, env: Env)
    ensures var (loaded, pulled) := Pull(st, deviceId, env);
            Synced(st, deviceId, env) == if loaded then Push(pulled, deviceId, env) else (loaded, pulled)
  {
    PullSuccessClearsError(st, deviceId, env);
  }

  /** After this device pushes, pulling the file back applies nothing: its
      time equals the recorded last sync and its device id is ours. */
  lemma PushThenPullKeepsLocal(st: SyncState, deviceId: string, env: Env)
    requires st.folder.Some? && Granted(env.access) && env.write.Written?
    ensures var pushed := Push(st, deviceId, env).1;
            var (ok, r) := Pull(pushed, deviceId, env);
            && ok && r.storage == st.storage && r.status.lastSync == Some(env.now)
            && r.reloadRequested == st.reloadRequested
  {
    PushWrites(st, deviceId, env);
    var pushed := Push(st, deviceId, env).1;
    assert !ShouldApply(pushed.remote.data, pushed.status.lastSync, deviceId);
  }

  /** A file pushed by another device is always applied, whatever the
      times. */
  lemma OtherDeviceApplied(st: SyncState, deviceId: string, env: Env)
    requires st.folder.Some? && Granted(env.access)
    requires st.remote.Present? && st.remote.data.deviceId != deviceId
    ensures var (ok, r) := Pull(st, deviceId, env);
            ok && r.storage == Apply(st.storage, st.remote.data) && r.reloadRequested
  {
  }

  /** Every operation that starts idle ends idle: `isSyncing` is never left
      set once a push, pull, sync or setup has returned. */
  lemma EndsIdle(st: SyncState, deviceId: string, env: Env, supported: bool, pick: PickResult)
    requires !st.status.isSyncing
    ensures !Push(st, deviceId, env).1.status.isSyncing
    ensures !Pull(st, deviceId, env).1.status.isSyncing
    ensures !Synced(st, deviceId, env).1.status.isSyncing
    ensures !Setup(st, deviceId, supported, pick, env).1.status.isSyncing
    ensures !Disconnected(st).status.isSyncing
  {
    PushEndsIdle(st, deviceId, env);
    PullEndsIdle(st, deviceId, env);
    var pulled := Pull(st, deviceId, env).1;
    PushEndsIdle(pulled, deviceId, env);
    if supported && pick.Picked? {
      var ready := Update(st.(folder := Some(pick.handle)), NoChange.(isSetup := Some(true), error := Some(None)));
      PushEndsIdle(ready, deviceId, env);
    }
  }

  lemma PushEndsIdle(st: SyncState, deviceId: string, env: Env)
    requires !st.status.isSyncing || st.folder.Some?
    ensures !Push(st, deviceId, env).1.status.isSyncing
  {
  }

  lemma PullEndsIdle(st: SyncState, deviceId: string, env: Env)
    requires !st.status.isSyncing || st.folder.Some?
    ensures !Pull(st, deviceId, env).1.status.isSyncing
  {
    if st.folder.Some? {
      PushEndsIdle(Busy(st), deviceId, env);
    }
  }

  /** The interval callback does nothing while there is no folder or a
      sync is running, and nothing once auto-sync is stopped. */
  lemma TickGuard(st: SyncState, deviceId: string, env: Env)
    ensures st.folder.None? || st.status.isSyncing || !st.autoSync ==> Tick(st, deviceId, env) == st
    ensures st.folder.Some? && !st.status.isSyncing && st.autoSync ==>
              Tick(st, deviceId, env) == Synced(st, deviceId, env).1
  {
  }

  /** `disconnect` drops the folder, stops auto-sync, resets isSetup,
      lastSync and error, and keeps everything else; afterwards every push
      and pull reports that sync is not set up. */
  lemma DisconnectResets(st: SyncState, deviceId: string, env: Env)
    ensures var r := Disconnected(st);
            && r.folder.None? && !r.autoSync
            && r.status == st.status.(isSetup := false, lastSync := None, error := None)
            && r.listeners == st.listeners && r.storage == st.storage && r.remote == st.remote
    ensures !Push(Disconnected(st), deviceId, env).0 && !Pull(Disconnected(st), deviceId, env).0
    ensures Synced(Disconnected(st), deviceId, env).1.status.error == Some(NotSetupError)
  {
  }

  /** A granted setup picks the folder, pushes this storage, and starts
      auto-sync; an aborted picker only clears the error. */
  lemma SetupPushes(st: SyncState, deviceId: string, h: FolderHandle, env: Env)
    requires Granted(env.access) && env.write.Written?
    ensures var (ok, r) := Setup(st, deviceId, true, Picked(h), env);
            && ok && r.folder == Some(h) && r.autoSync && r.status.isSetup
            && r.remote == Present(Gather(st.storage, deviceId, env.now))
            && r.status.lastSync == Some(env.now) && r.status.error.None?
    ensures var (ok, r) := Setup(st, deviceId, true, Aborted, env);
            !ok && r.status == st.status.(error := None) && r.folder == st.folder
  {
  }

  // ---------------------------------------------------------------------
  // The service object
  // ---------------------------------------------------------------------

  class CloudSyncService {
    var folderHandle: Option<FolderHandle>
    /** Whether the auto-sync interval is running. */
    var autoSync: bool
    const deviceId: string
    var listeners: seq<ListenerId>
    var currentStatus: SyncStatus
    /** Every listener call made so far, in order. */
    var notifications: seq<Notification>
    /** The browser's local storage. */
    var storage: map<string, string>
    /** The sync file in the chosen folder. */
    var remote: RemoteFile
    var reloadRequested: bool

    function Abs(): SyncState
      reads this
    {
      SyncState(folderHandle, autoSync, listeners, currentStatus, notifications, storage, remote, reloadRequested)
    }

    /** The service starts with no folder, no listeners and the initial
        status, after making sure local storage holds a device id. */
    constructor (initialStorage: map<string, string>, file: RemoteFile, now: Timestamp, random: string)
      ensures deviceId == GetOrCreateDeviceId(initialStorage, now, random).0
      ensures Abs() == SyncState(None, false, [], InitialStatus, [],
                                 GetOrCreateDeviceId(initialStorage, now, random).1, file, false)
    {
      var (id, stored) := GetOrCreateDeviceId(initialStorage, now, random);
      deviceId := id;
      folderHandle := None;
      autoSync := false;
      listeners := [];
      currentStatus := InitialStatus;
      notifications := [];
      storage := stored;
      remote := file;
      reloadRequested := false;
    }

    method Subscribe(cb: ListenerId)
      modifies this
      ensures Abs() == Subscribed(old(Abs()), cb)
    {
      listeners := listeners + [cb];
      notifications := notifications + [Notification(cb, currentStatus)];
    }

    method Unsubscribe(cb: ListenerId)
      modifies this
      ensures Abs() == Unsubscribed(old(Abs()), cb)
    {
      listeners := Remove(listeners, cb);
    }

    /** `notifyListeners`: call every listener, in order, with the current
        status. */
    method NotifyListeners()
      modifies this`notifications
      ensures notifications == old(notifications) + Broadcast(listeners, currentStatus)
    {
      var i := 0;
      while i < |listeners|
        invariant 0 <= i <= |listeners|
        invariant notifications == old(notifications) + Broadcast(listeners[..i], currentStatus)
      {
        assert Broadcast(listeners[..i + 1], currentStatus)
            == Broadcast(listeners[..i], currentStatus) + [Notification(listeners[i], currentStatus)];
        notifications := notifications + [Notification(listeners[i], currentStatus)];
        i := i + 1;
      }
      assert listeners[..i] == listeners;
    }

    method UpdateStatus(u: StatusUpdate)
      modifies this
      ensures Abs() == Update(old(Abs()), u)
    {
      currentStatus := Merge(currentStatus, u);
      NotifyListeners();
    }

    /** `applyData`: one write per domain present in the snapshot. */
    method ApplyData(snap: Snapshot)
      modifies this
      ensures Abs() == old(Abs()).(storage := Apply(old(storage), snap))
    {
      if snap.users.Some? {
        storage := storage[UsersKey := snap.users.value];
      }
      if snap.children.Some? {
        storage := storage[ChildrenKey := snap.children.value];
      }
      if snap.progress.Some? {
        storage := storage[ProgressKey := snap.progress.value];
      }
      if snap.assignments.Some? {
        storage := storage[AssignmentsKey := snap.assignments.value];
      }
    }

    method SyncToCloud(env: Env) returns (ok: bool)
      modifies this
      ensures (ok, Abs()) == Push(old(Abs()), deviceId, env)
    {
      if folderHandle.None? {
        UpdateStatus(NoChange.(error := Some(Some(NotSetupError))));
        return false;
      }
      UpdateStatus(NoChange.(isSyncing := Some(true), error := Some(None)));
      if !env.access.queryGranted && !env.access.requestGranted {
        UpdateStatus(NoChange.(isSyncing := Some(false), error := Some(Some(SyncFailedPrefix + PermissionDenied))));
        return false;
      }
      var data := Gather(storage, deviceId, env.now);
      match env.write {
        case HandleFailed(message) =>
          UpdateStatus(NoChange.(isSyncing := Some(false), error := Some(Some(SyncFailedPrefix + message))));
          return false;
        case WriteFailed(message) =>
          if remote.Missing? {
            remote := Unreadable(EmptyFileError);
          }
          UpdateStatus(NoChange.(isSyncing := Some(false), error := Some(Some(SyncFailedPrefix + message))));
          return false;
        case Written =>
      }
      remote := Present(data);
      UpdateStatus(NoChange.(isSyncing := Some(false), lastSync := Some(Some(env.now)), error := Some(None)));
      return true;
    }

    method SyncFromCloud(env: Env) returns (ok: bool)
      modifies this
      ensures (ok, Abs()) == Pull(old(Abs()), deviceId, env)
    {
      if folderHandle.None? {
        UpdateStatus(NoChange.(error := Some(Some(NotSetupError))));
        return false;
      }
      UpdateStatus(NoChange.(isSyncing := Some(true), error := Some(None)));
      if !env.access.queryGranted && !env.access.requestGranted {
        UpdateStatus(NoChange.(isSyncing := Some(false), error := Some(Some(SyncFailedPrefix + PermissionDenied))));
        return false;
      }
      match remote
      case Missing =>
        ok := SyncToCloud(env);
      case Unreadable(message) =>
        UpdateStatus(NoChange.(isSyncing := Some(false), error := Some(Some(SyncFailedPrefix + message))));
        ok := false;
      case Present(data) =>
        var localLastSync := if currentStatus.lastSync.Some? then currentStatus.lastSync.value else 0;
        if data.lastSyncTime > localLastSync || data.deviceId != deviceId {
          ApplyData(data);
          UpdateStatus(NoChange.(isSyncing := Some(false), lastSync := Some(Some(data.lastSyncTime)), error := Some(None)));
          reloadRequested := true;
        } else {
          UpdateStatus(NoChange.(isSyncing := Some(false), error := Some(None)));
        }
        ok := true;
    }

    method Sync(env: Env) returns (ok: bool)
      modifies this
      ensures (ok, Abs()) == Synced(old(Abs()), deviceId, env)
    {
      var loaded := SyncFromCloud(env);
      if loaded && currentStatus.error.None? {
        ok := SyncToCloud(env);
      } else {
        ok := loaded;
      }
    }

    method StartAutoSync()
      modifies this
      ensures Abs() == old(Abs()).(autoSync := true)
    {
      autoSync := true;
    }

    method StopAutoSync()
      modifies this
      ensures Abs() == old(Abs()).(autoSync := false)
    {
      autoSync := false;
    }

    /** One firing of the auto-sync interval. */
    method AutoSyncTick(env: Env)
      modifies this
      ensures Abs() == Tick(old(Abs()), deviceId, env)
    {
      if autoSync && folderHandle.Some? && !currentStatus.isSyncing {
        var _ := Sync(env);
      }
    }

    method SetupCloudSync(supported: bool, pick: PickResult, env: Env) returns (ok: bool)
      modifies this
      ensures (ok, Abs()) == Setup(old(Abs()), deviceId, supported, pick, env)
    {
      if !supported {
        UpdateStatus(NoChange.(error := Some(Some(NotSupportedError))));
        return false;
      }
      match pick
      case Aborted =>
        UpdateStatus(NoChange.(error := Some(None)));
        ok := false;
      case PickFailed(message) =>
        UpdateStatus(NoChange.(error := Some(Some(SetupFailedPrefix + message))));
        ok := false;
      case Picked(h) =>
        folderHandle := Some(h);
        UpdateStatus(NoChange.(isSetup := Some(true), error := Some(None)));
        var _ := SyncToCloud(env);
        StartAutoSync();
        ok := true;
    }

    method Disconnect()
      modifies this
      ensures Abs() == Disconnected(old(Abs()))
    {
      StopAutoSync();
      folderHandle := None;
      UpdateStatus(NoChange.(isSetup := Some(false), lastSync := Some(None), error := Some(None)));
    }
  }
}
