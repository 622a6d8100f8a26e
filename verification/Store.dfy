/**
 The agent's tables, keyed as the schema keys them, and what each statement does to them
 (agent/crates/sr-agent/src/ingest.rs, server.rs, store/keys.rs, store/snapshot.rs,
 restore/mod.rs). Clocks, fresh keys and nonces are parameters. Id 0 is the live state.
 */
module Store {
  import opened Options
  import opened Protocol
  import opened LiveTables
  import opened Crypto

  const LIVE := 0
  const ROTATE_AFTER_MS := 30 * 24 * 60 * 60 * 1000
  const UNDO_EPISODE_MILLIS := 5 * 60 * 1000

  /** The primary key of every session table. */
  datatype Slot = Slot(snapshot: int, key: string)

  datatype SealedRow = SealedRow(
    windowId: string, index: int, nonce: seq<bv8>, ciphertext: Ciphertext<PrivatePayload>, keyId: int, expiresAt: int)

  datatype KeyRow = KeyRow(dek: Dek, createdAt: int, retiredAt: Option<int>)

  datatype Kind = Current | Shutdown | Periodic | Manual | PreRestore

  datatype SnapshotRow = SnapshotRow(capturedAt: int, kind: Kind, pinned: bool, appCount: nat, tabCount: nat)

  datatype RunRow = RunRow(snapshotId: int, startedAt: int, mode: string, undo: Option<int>)

  datatype Tables = Tables(
    windows: map<Slot, WindowRow>, tabs: map<Slot, TabRow>, secrets: map<Slot, SealedRow>,
    groups: map<Slot, GroupRow>, apps: map<Slot, AppRow>,
    snapshots: map<int, SnapshotRow>, keys: map<int, KeyRow>, runs: map<int, RunRow>)

  // ----- Reading -----

  function Get<V>(m: map<Slot, V>, s: Slot): Option<V> {
    if s in m then Some(m[s]) else None
  }

  /** The rows of one snapshot. */
  function At<V>(m: map<Slot, V>, id: int): (r: map<string, V>)
    ensures forall k :: k in r <==> Slot(id, k) in m
    ensures forall k :: k in r ==> r[k] == m[Slot(id, k)]
  {
    map s | s in m && s.snapshot == id :: s.key := m[s]
  }

  /** `dek_by_id`, then `open` under the associated data of this tab and key. */
  function OpenRow(keys: map<int, KeyRow>, tabKey: string, r: SealedRow): PrivateTab {
    PrivateTab(r.windowId, r.index,
               if r.keyId in keys then Open(keys[r.keyId].dek, Aad(tabKey, r.keyId), r.nonce, r.ciphertext) else None,
               r.expiresAt)
  }

  function OpenAll(keys: map<int, KeyRow>, rows: map<string, SealedRow>): map<string, PrivateTab> {
    map k | k in rows :: OpenRow(keys, k, rows[k])
  }

  /** One snapshot in plain text. */
  function Session(t: Tables, id: int): Live {
    Live(At(t.windows, id), At(t.tabs, id), OpenAll(t.keys, At(t.secrets, id)), At(t.groups, id), At(t.apps, id))
  }

  ghost function Max(ids: set<int>): (m: int)
    requires ids != {}
    ensures m in ids && forall i :: i in ids ==> i <= m
  {
    assert exists i :: i in ids by { if forall i :: i !in ids { assert false; } }
    var i :| i in ids;
    if ids - {i} == {} then assert forall j :: j in ids ==> j in ids - {i} || j == i; i
    else
      var rest := Max(ids - {i});
      assert forall j :: j in ids ==> j in ids - {i} || j == i;
      if rest < i then i else rest
  }

  /** SQLite's next rowid: an INTEGER PRIMARY KEY without AUTOINCREMENT takes one more than the largest. */
  ghost function NextId(ids: set<int>): (n: int)
    ensures n !in ids && forall i :: i in ids ==> i < n
  {
    if ids == {} then 1 else Max(ids) + 1
  }

  // ----- Keys (store/keys.rs) -----

  function Unretired(t: Tables): set<int> {
    set k | k in t.keys && t.keys[k].retiredAt.None?
  }

  function Retire(t: Tables, id: int, now: int): Tables
    requires id in t.keys
  {
    t.(keys := t.keys[id := t.keys[id].(retiredAt := Some(now))])
  }

  ghost function CreateKey(t: Tables, now: int, newDek: Dek): (Tables, int, Dek) {
    var id := NextId(t.keys.Keys);
    (t.(keys := t.keys[id := KeyRow(newDek, now, None)]), id, newDek)
  }

  /** The newest unretired key while it is young enough; otherwise it is retired and a new one made. */
  ghost function ActiveDek(t: Tables, now: int, newDek: Dek): (Tables, int, Dek) {
    if Unretired(t) == {} then CreateKey(t, now, newDek)
    else
      var id := Max(Unretired(t));
      if now - t.keys[id].createdAt < ROTATE_AFTER_MS then (t, id, t.keys[id].dek)
      else CreateKey(Retire(t, id, now), now, newDek)
  }

  function Referenced(t: Tables): set<int> {
    set s | s in t.secrets :: t.secrets[s].keyId
  }

  /** Drops retired keys that no row of any snapshot refers to. */
  function Gc(t: Tables): Tables {
    t.(keys := map k | k in t.keys && (t.keys[k].retiredAt.None? || k in Referenced(t)) :: t.keys[k])
  }

  // ----- Ingest (ingest.rs, server.rs) -----

  /** What one private upsert draws from outside: two clock readings, a nonce and, if needed, a new key. */
  datatype Env = Env(now: int, newDek: Dek, nonce: seq<bv8>, stamp: int, ttlHours: int)

  function ExpiresAt(env: Env): int { env.stamp + env.ttlHours * 3600 * 1000 }

  predicate GoodEnv(env: Env) { |env.nonce| == NONCE_LEN }

  function SealedRowOf(d: TabDelta, dek: Dek, keyId: int, env: Env): SealedRow
    requires GoodEnv(env)
  {
    var s := Seal(dek, Aad(d.tabKey, keyId), PayloadOf(d), env.nonce);
    SealedRow(d.windowId, IntOr(d.index), s.nonce, s.ciphertext, keyId, ExpiresAt(env))
  }

  ghost function StorePrivate(t: Tables, d: TabDelta, env: Env): Tables
    requires GoodEnv(env)
  {
    var (t', keyId, dek) := ActiveDek(t, env.now, env.newDek);
    t'.(secrets := t'.secrets[Slot(LIVE, d.tabKey) := SealedRowOf(d, dek, keyId, env)])
  }

  function RemoveTab(t: Tables, tabKey: string): Tables {
    t.(tabs := t.tabs - {Slot(LIVE, tabKey)}, secrets := t.secrets - {Slot(LIVE, tabKey)})
  }

  ghost function IngestTab(t: Tables, d: TabDelta, env: Env, src: Source): Tables
    requires GoodEnv(env)
  {
    if d.op == Remove then RemoveTab(t, d.tabKey)
    else if d.isPrivate then if src.capturePrivate then StorePrivate(t, d, env) else t
    else match NormalTabOf(d)
      case Some(row) => t.(tabs := t.tabs[Slot(LIVE, d.tabKey) := row])
      case None => t
  }

  function IngestWindow(t: Tables, d: WindowDelta, src: Source): Tables {
    var s := Slot(LIVE, d.windowId);
    match d.op
    case Remove => t.(windows := t.windows - {s})
    case Upsert => t.(windows := t.windows[s := WindowRowOf(d, src, Get(t.windows, s))])
  }

  function IngestGroup(t: Tables, d: GroupDelta): Tables {
    var s := Slot(LIVE, d.groupKey);
    match d.op
    case Remove => t.(groups := t.groups - {s})
    case Upsert => t.(groups := t.groups[s := GroupRow(d.windowId, d.title, d.color, d.collapsed)])
  }

  function IngestWindows(t: Tables, ws: seq<WindowDelta>, src: Source): Tables {
    if ws == [] then t else IngestWindow(IngestWindows(t, ws[..|ws|-1], src), ws[|ws|-1], src)
  }

  ghost function IngestTabs(t: Tables, ts: seq<TabDelta>, envs: seq<Env>, src: Source): Tables
    requires |envs| == |ts| && forall e :: e in envs ==> GoodEnv(e)
  {
    if ts == [] then t
    else
      var n := |ts| - 1;
      assert envs[n] in envs;
      IngestTab(IngestTabs(t, ts[..n], envs[..n], src), ts[n], envs[n], src)
  }

  function IngestGroups(t: Tables, gs: seq<GroupDelta>): Tables {
    if gs == [] then t else IngestGroup(IngestGroups(t, gs[..|gs|-1]), gs[|gs|-1])
  }

  ghost function Ingest(t: Tables, body: StateBody, envs: seq<Env>, src: Source): Tables
    requires |envs| == |body.tabs| && forall e :: e in envs ==> GoodEnv(e)
  {
    IngestGroups(IngestTabs(IngestWindows(t, body.windows, src), body.tabs, envs, src), body.groups)
  }

  function SparedWindows(m: map<Slot, WindowRow>, body: StateBody, owned: set<string>): map<Slot, WindowRow> {
    map s | s in m && (s.snapshot == LIVE && s.key in owned ==> s.key in LiveWindows(body)) :: m[s]
  }

  function SparedTabs(m: map<Slot, TabRow>, body: StateBody, owned: set<string>): map<Slot, TabRow> {
    map s | s in m && (s.snapshot == LIVE ==> KeepsTab(owned, body, m[s].windowId, s.key)) :: m[s]
  }

  function SparedSecrets(m: map<Slot, SealedRow>, body: StateBody, owned: set<string>): map<Slot, SealedRow> {
    map s | s in m && (s.snapshot == LIVE ==> KeepsTab(owned, body, m[s].windowId, s.key)) :: m[s]
  }

  function SparedGroups(m: map<Slot, GroupRow>, body: StateBody, owned: set<string>): map<Slot, GroupRow> {
    map s | s in m && (s.snapshot == LIVE ==> KeepsGroup(owned, body, m[s].windowId)) :: m[s]
  }

  /** The rows the reap of these windows spares: it only ever deletes live ones. */
  function ReapRows(t: Tables, body: StateBody, owned: set<string>): Tables {
    t.(windows := SparedWindows(t.windows, body, owned), tabs := SparedTabs(t.tabs, body, owned),
       secrets := SparedSecrets(t.secrets, body, owned), groups := SparedGroups(t.groups, body, owned))
  }

  function OwnedWindows(t: Tables, browser: string, profile: string): set<string> {
    set s | s in t.windows && s.snapshot == LIVE && t.windows[s].browser == browser
                && t.windows[s].profile == profile :: s.key
  }

  ghost function ApplyMessage(t: Tables, body: StateBody, envs: seq<Env>, authoritative: bool, src: Source): Tables
    requires |envs| == |body.tabs| && forall e :: e in envs ==> GoodEnv(e)
  {
    var folded := Ingest(t, body, envs, src);
    if authoritative then ReapRows(folded, body, OwnedWindows(folded, src.browser, src.profile)) else folded
  }

  function Unswept(m: map<Slot, SealedRow>, now: int): map<Slot, SealedRow> {
    map s | s in m && !(m[s].expiresAt < now) :: m[s]
  }

  function Sweep(t: Tables, now: int): Tables { t.(secrets := Unswept(t.secrets, now)) }

  function Purge(t: Tables): Tables { t.(secrets := map[]) }

  // ----- Snapshots (store/snapshot.rs) -----

  function Placed<V>(m: map<string, V>, id: int): (r: map<Slot, V>)
    ensures forall s :: s in r <==> s.snapshot == id && s.key in m
    ensures forall s :: s in r ==> r[s] == m[s.key]
  {
    map k | k in m :: Slot(id, k) := m[k]
  }

  function Copied<V>(m: map<Slot, V>, from: int, to: int): map<Slot, V> {
    m + Placed(At(m, from), to)
  }

  function Dropped<V>(m: map<Slot, V>, id: int): map<Slot, V> {
    map s | s in m && s.snapshot != id :: m[s]
  }

  function CopyRows(t: Tables, to: int): Tables {
    t.(windows := Copied(t.windows, LIVE, to), tabs := Copied(t.tabs, LIVE, to), secrets := Copied(t.secrets, LIVE, to),
       groups := Copied(t.groups, LIVE, to), apps := Copied(t.apps, LIVE, to))
  }

  function DropRows(t: Tables, id: int): Tables {
    t.(windows := Dropped(t.windows, id), tabs := Dropped(t.tabs, id), secrets := Dropped(t.secrets, id),
       groups := Dropped(t.groups, id), apps := Dropped(t.apps, id))
  }

  predicate NoneOpen(live: Live) { |live.tabs| + |live.secrets| == 0 && |live.apps| == 0 }

  function RowOf(live: Live, kind: Kind, now: int): SnapshotRow {
    SnapshotRow(now, kind, false, |live.apps|, |live.tabs| + |live.secrets|)
  }

  function Copy(t: Tables, to: int, row: SnapshotRow): Tables {
    CopyRows(t.(snapshots := t.snapshots[to := row]), to)
  }

  /** The copy, and its id; nothing when neither a tab nor an application is live. */
  ghost function CreateFromLive(t: Tables, kind: Kind, now: int): (Tables, Option<int>) {
    var live := Session(t, LIVE);
    if NoneOpen(live) then (t, None)
    else
      var id := NextId(t.snapshots.Keys);
      (Copy(t, id, RowOf(live, kind, now)), Some(id))
  }

  /** None is the refusal to delete the live state. */
  function Delete(t: Tables, id: int): Option<Tables> {
    if id == LIVE then None else Some(DropRows(t, id).(snapshots := t.snapshots - {id}))
  }

  function Without<V>(m: map<Slot, V>, ids: set<int>): map<Slot, V> {
    map s | s in m && s.snapshot !in ids :: m[s]
  }

  function DeleteAll(t: Tables, ids: set<int>): Tables {
    t.(windows := Without(t.windows, ids), tabs := Without(t.tabs, ids), secrets := Without(t.secrets, ids),
       groups := Without(t.groups, ids), apps := Without(t.apps, ids), snapshots := t.snapshots - ids)
  }

  function Prunable(snapshots: map<int, SnapshotRow>): set<int> {
    set id | id in snapshots && id != LIVE && !snapshots[id].pinned
  }

  /** A negative OFFSET counts as none. */
  function Keep(keep: int): nat { if keep < 0 then 0 else keep }

  /** Everything past the first `keep` by capture time, newest first; equal times may fall either way. */
  predicate Doomed(snapshots: map<int, SnapshotRow>, keep: int, doomed: set<int>) {
    var all := Prunable(snapshots);
    && doomed <= all
    && (|all - doomed| == Keep(keep) || (doomed == {} && |all| < Keep(keep)))
    && forall d, k :: d in doomed && k in all - doomed ==> snapshots[d].capturedAt <= snapshots[k].capturedAt
  }

  function Restorable(snapshots: map<int, SnapshotRow>): set<int> {
    set id | id in snapshots && id != LIVE && snapshots[id].kind in {Shutdown, Periodic, Manual}
  }

  /** The newest restore candidate; equal times may fall either way. */
  predicate NewestRestorable(snapshots: map<int, SnapshotRow>, id: Option<int>) {
    match id
    case None => Restorable(snapshots) == {}
    case Some(i) =>
      && i in Restorable(snapshots)
      && forall j :: j in Restorable(snapshots) ==> snapshots[j].capturedAt <= snapshots[i].capturedAt
  }

  /** The watcher keeps the live applications up to date. */
  function Watch(t: Tables, apps: map<string, AppRow>): Tables {
    t.(apps := Dropped(t.apps, LIVE) + Placed(apps, LIVE))
  }

  // ----- Runs (restore/mod.rs) -----

  /** Runs of the same restore episode that have an undo point to share. */
  function Recent(runs: map<int, RunRow>, snapshotId: int, now: int): set<int> {
    set r | r in runs && runs[r].snapshotId == snapshotId && runs[r].undo.Some?
            && runs[r].startedAt >= now - UNDO_EPISODE_MILLIS
  }

  /** The run whose undo point is shared: the latest recent one, if any. */
  predicate Shares(runs: map<int, RunRow>, snapshotId: int, now: int, pick: Option<int>) {
    match pick
    case None => Recent(runs, snapshotId, now) == {}
    case Some(r) =>
      && r in Recent(runs, snapshotId, now)
      && forall q :: q in Recent(runs, snapshotId, now) ==> runs[q].startedAt <= runs[r].startedAt
  }

  /** The clock is read when looking back, when copying and when recording. */
  datatype Times = Times(looked: int, copied: int, started: int)

  ghost function BeginRun(t: Tables, snapshotId: int, mode: string, at: Times, pick: Option<int>): (Tables, int)
    requires Shares(t.runs, snapshotId, at.looked, pick)
  {
    var (t', undo) := if pick.Some? then (t, t.runs[pick.value].undo) else CreateFromLive(t, PreRestore, at.copied);
    var id := NextId(t'.runs.Keys);
    (t'.(runs := t'.runs[id := RunRow(snapshotId, at.started, mode, undo)]), id)
  }
}
