/**
 The agent's database as its methods change it, statement by statement
 (agent/crates/sr-agent/src/ingest.rs, server.rs, store/keys.rs, store/snapshot.rs,
 restore/mod.rs). Each method's whole effect is the operation of Store.dfy it names, whose
 meaning over single calls and whole runs Sessions.dfy to Undo.dfy establish.
 */
module Database {
  import opened Options
  import opened Protocol
  import opened LiveTables
  import opened Crypto
  import opened Store
  import opened Sessions
  import opened StoreSafety

  // ----- Reap, one window at a time -----

  function ListedTabs(m: map<Slot, TabRow>, w: string, liveTabs: set<string>): map<Slot, TabRow> {
    map s | s in m && !(s.snapshot == LIVE && m[s].windowId == w && s.key !in liveTabs) :: m[s]
  }

  function ListedSecrets(m: map<Slot, SealedRow>, w: string, liveTabs: set<string>): map<Slot, SealedRow> {
    map s | s in m && !(s.snapshot == LIVE && m[s].windowId == w && s.key !in liveTabs) :: m[s]
  }

  function OtherTabs(m: map<Slot, TabRow>, w: string): map<Slot, TabRow> {
    map s | s in m && !(s.snapshot == LIVE && m[s].windowId == w) :: m[s]
  }

  function OtherSecrets(m: map<Slot, SealedRow>, w: string): map<Slot, SealedRow> {
    map s | s in m && !(s.snapshot == LIVE && m[s].windowId == w) :: m[s]
  }

  function OtherGroups(m: map<Slot, GroupRow>, w: string): map<Slot, GroupRow> {
    map s | s in m && !(s.snapshot == LIVE && m[s].windowId == w) :: m[s]
  }

  function ReapWindow(t: Tables, body: StateBody, w: string): Tables {
    if w in LiveWindows(body) then
      t.(tabs := ListedTabs(t.tabs, w, LiveTabs(body)), secrets := ListedSecrets(t.secrets, w, LiveTabs(body)))
    else
      t.(windows := t.windows - {Slot(LIVE, w)}, tabs := OtherTabs(t.tabs, w), secrets := OtherSecrets(t.secrets, w),
         groups := OtherGroups(t.groups, w))
  }

  lemma ReapNone(t: Tables, body: StateBody)
    ensures ReapRows(t, body, {}) == t
  {
    assert SparedWindows(t.windows, body, {}) == t.windows;
    assert SparedTabs(t.tabs, body, {}) == t.tabs;
    assert SparedSecrets(t.secrets, body, {}) == t.secrets;
    assert SparedGroups(t.groups, body, {}) == t.groups;
  }

  lemma SpareWindows(m: map<Slot, WindowRow>, body: StateBody, done: set<string>, w: string)
    ensures SparedWindows(m, body, done + {w})
            == if w in LiveWindows(body) then SparedWindows(m, body, done)
               else SparedWindows(m, body, done) - {Slot(LIVE, w)}
  {
  }

  lemma SpareTabs(m: map<Slot, TabRow>, body: StateBody, done: set<string>, w: string)
    ensures SparedTabs(m, body, done + {w})
            == if w in LiveWindows(body) then ListedTabs(SparedTabs(m, body, done), w, LiveTabs(body))
               else OtherTabs(SparedTabs(m, body, done), w)
  {
  }

  lemma SpareSecrets(m: map<Slot, SealedRow>, body: StateBody, done: set<string>, w: string)
    ensures SparedSecrets(m, body, done + {w})
            == if w in LiveWindows(body) then ListedSecrets(SparedSecrets(m, body, done), w, LiveTabs(body))
               else OtherSecrets(SparedSecrets(m, body, done), w)
  {
  }

  lemma SpareGroups(m: map<Slot, GroupRow>, body: StateBody, done: set<string>, w: string)
    ensures SparedGroups(m, body, done + {w})
            == if w in LiveWindows(body) then SparedGroups(m, body, done)
               else OtherGroups(SparedGroups(m, body, done), w)
  {
  }

  /** Reaping window by window, in any order, is reaping the set. */
  lemma ReapMore(t: Tables, body: StateBody, done: set<string>, w: string)
    ensures ReapRows(t, body, done + {w}) == ReapWindow(ReapRows(t, body, done), body, w)
  {
    SpareWindows(t.windows, body, done, w);
    SpareTabs(t.tabs, body, done, w);
    SpareSecrets(t.secrets, body, done, w);
    SpareGroups(t.groups, body, done, w);
  }

  // ----- Ranking ids -----

  method Largest(ids: set<int>) returns (m: int)
    requires ids != {}
    ensures m == Max(ids)
  {
    assert exists i :: i in ids by { if forall i :: i !in ids { assert false; } }
    m :| m in ids;
    var rest := ids - {m};
    while rest != {}
      invariant m in ids && rest <= ids
      invariant forall i :: i in ids - rest ==> i <= m
      decreases |rest|
    {
      assert exists i :: i in rest by { if forall i :: i !in rest { assert false; } }
      var i :| i in rest;
      ghost var seen := ids - rest;
      rest := rest - {i};
      if m < i { m := i; }
      assert forall j :: j in ids - rest ==> j in seen || j == i;
    }
    assert ids - rest == ids;
  }

  method FreshId(ids: set<int>) returns (id: int)
    ensures id == NextId(ids)
  {
    if ids == {} { id := 1; } else { id := Largest(ids); id := id + 1; }
  }

  predicate Ranks<V>(m: map<int, V>, ids: set<int>, at: V -> int, best: int) {
    ids <= m.Keys && best in ids && forall i :: i in ids ==> at(m[i]) <= at(m[best])
  }

  /** `ORDER BY … DESC LIMIT 1`. */
  method Latest<V>(m: map<int, V>, ids: set<int>, at: V -> int) returns (best: int)
    requires ids != {} && ids <= m.Keys
    ensures Ranks(m, ids, at, best)
  {
    assert exists i :: i in ids by { if forall i :: i !in ids { assert false; } }
    best :| best in ids;
    var rest := ids - {best};
    while rest != {}
      invariant best in ids && rest <= ids
      invariant forall i :: i in ids - rest ==> at(m[i]) <= at(m[best])
      decreases |rest|
    {
      assert exists i :: i in rest by { if forall i :: i !in rest { assert false; } }
      var i :| i in rest;
      rest := rest - {i};
      if at(m[best]) < at(m[i]) { best := i; }
    }
    assert ids - rest == ids;
  }

  lemma Spare(all: set<int>, doomed: set<int>, best: int)
    requires doomed <= all && best in doomed
    ensures all - (doomed - {best}) == (all - doomed) + {best}
    ensures |all - (doomed - {best})| == |all - doomed| + 1
  {
    assert all - (doomed - {best}) == (all - doomed) + {best};
  }

  /** `ORDER BY captured_at DESC LIMIT -1 OFFSET keep`: what is left after the newest `keep`. */
  method PastNewest(snapshots: map<int, SnapshotRow>, keep: int) returns (doomed: set<int>)
    ensures Doomed(snapshots, keep, doomed)
  {
    var all := Prunable(snapshots);
    doomed := all;
    var n := 0;
    while n < keep && doomed != {}
      invariant doomed <= all && 0 <= n <= Keep(keep) && |all - doomed| == n
      invariant forall d, k :: d in doomed && k in all - doomed ==> snapshots[d].capturedAt <= snapshots[k].capturedAt
    {
      var best := Latest(snapshots, doomed, (r: SnapshotRow) => r.capturedAt);
      Spare(all, doomed, best);
      doomed := doomed - {best};
      n := n + 1;
    }
    if doomed == {} { assert all - doomed == all; }
  }

  // ----- The database -----

  class Db {
    var windows: map<Slot, WindowRow>
    var tabs: map<Slot, TabRow>
    var secrets: map<Slot, SealedRow>
    var groups: map<Slot, GroupRow>
    var apps: map<Slot, AppRow>
    var snapshots: map<int, SnapshotRow>
    var keys: map<int, KeyRow>
    var runs: map<int, RunRow>

    function View(): Tables
      reads this
    {
      Tables(windows, tabs, secrets, groups, apps, snapshots, keys, runs)
    }

    constructor (now: int)
      ensures View() == Created(now)
    {
      windows, tabs, secrets, groups, apps := map[], map[], map[], map[], map[];
      snapshots, keys, runs := map[LIVE := SnapshotRow(now, Current, false, 0, 0)], map[], map[];
    }

    method CreateKey(now: int, newDek: Dek) returns (keyId: int, dek: Dek)
      modifies this`keys
      ensures (View(), keyId, dek) == Store.CreateKey(old(View()), now, newDek)
      ensures keyId !in old(keys) && keyId in keys && keys == old(keys)[keyId := keys[keyId]] && dek == newDek
      ensures keys[keyId].dek == newDek && keys[keyId].createdAt == now && keys[keyId].retiredAt.None?
    {
      keyId := FreshId(keys.Keys);
      keys := keys[keyId := KeyRow(newDek, now, None)];
      dek := newDek;
    }

    method ActiveDek(now: int, newDek: Dek) returns (keyId: int, dek: Dek)
      modifies this`keys
      ensures (View(), keyId, dek) == Store.ActiveDek(old(View()), now, newDek)
      ensures keyId in keys && keys[keyId].dek == dek
    {
      var unretired := Unretired(View());
      if unretired != {} {
        keyId := Largest(unretired);
        if now - keys[keyId].createdAt < ROTATE_AFTER_MS { return keyId, keys[keyId].dek; }
        keys := keys[keyId := keys[keyId].(retiredAt := Some(now))];
      }
      keyId, dek := CreateKey(now, newDek);
    }

    method CollectKeys() returns (n: nat)
      modifies this`keys
      ensures View() == Gc(old(View()))
      ensures n == |old(keys)| - |keys|
    {
      var doomed := set k | k in keys && keys[k].retiredAt.Some? && k !in Referenced(View());
      assert Gc(View()).keys == keys - doomed;
      assert |(keys - doomed).Keys| == |keys.Keys| - |doomed| by { assert (keys - doomed).Keys == keys.Keys - doomed; }
      n := |doomed|;
      keys := keys - doomed;
    }

    method RemoveTab(tabKey: string)
      modifies this`tabs, this`secrets
      ensures View() == Store.RemoveTab(old(View()), tabKey)
    {
      tabs := tabs - {Slot(LIVE, tabKey)};
      secrets := secrets - {Slot(LIVE, tabKey)};
    }

    method StorePrivateEncrypted(d: TabDelta, env: Env)
      requires GoodEnv(env)
      modifies this`keys, this`secrets
      ensures View() == StorePrivate(old(View()), d, env)
      ensures var s := Slot(LIVE, d.tabKey);
        && s in secrets && secrets == old(secrets)[s := secrets[s]]
        && SecretShows(OpenRow(keys, d.tabKey, secrets[s]), d, env.stamp + env.ttlHours * 3_600_000)
    {
      var keyId, dek := ActiveDek(env.now, env.newDek);
      SealedOpens(keys, d, dek, keyId, env);
      secrets := secrets[Slot(LIVE, d.tabKey) := SealedRowOf(d, dek, keyId, env)];
    }

    /** The only place tab data enters storage. */
    method IngestTab(d: TabDelta, env: Env, src: Source)
      requires GoodEnv(env)
      modifies this`keys, this`tabs, this`secrets
      ensures View() == Store.IngestTab(old(View()), d, env, src)
      ensures d.op == Upsert && !d.isPrivate ==>
        && Slot(LIVE, d.tabKey) in tabs && TabShows(tabs[Slot(LIVE, d.tabKey)], d)
        && tabs == old(tabs)[Slot(LIVE, d.tabKey) := tabs[Slot(LIVE, d.tabKey)]] && secrets == old(secrets)
      ensures d.op == Remove ==>
        tabs == old(tabs) - {Slot(LIVE, d.tabKey)} && secrets == old(secrets) - {Slot(LIVE, d.tabKey)}
      ensures d.op == Upsert && d.isPrivate ==> tabs == old(tabs) && (!src.capturePrivate ==> secrets == old(secrets))
      ensures d.op == Upsert && d.isPrivate && src.capturePrivate ==> var s := Slot(LIVE, d.tabKey);
        && s in secrets && secrets == old(secrets)[s := secrets[s]]
        && SecretShows(OpenRow(keys, d.tabKey, secrets[s]), d, env.stamp + env.ttlHours * 3_600_000)
    {
      if d.op == Remove {
        RemoveTab(d.tabKey);
      } else if d.isPrivate {
        if src.capturePrivate { StorePrivateEncrypted(d, env); }
      } else {
        match NormalTabOf(d)
        case Some(row) => tabs := tabs[Slot(LIVE, d.tabKey) := row];
        case None =>
      }
    }

    method IngestWindows(ws: seq<WindowDelta>, src: Source)
      modifies this`windows
      ensures View() == Store.IngestWindows(old(View()), ws, src)
    {
      for i := 0 to |ws|
        invariant View() == Store.IngestWindows(old(View()), ws[..i], src)
      {
        assert ws[..i+1][..i] == ws[..i];
        var s := Slot(LIVE, ws[i].windowId);
        match ws[i].op
        case Remove => windows := windows - {s};
        case Upsert => windows := windows[s := WindowRowOf(ws[i], src, Get(windows, s))];
      }
      assert ws[..|ws|] == ws;
    }

    method IngestTabs(ts: seq<TabDelta>, envs: seq<Env>, src: Source)
      requires |envs| == |ts| && forall e :: e in envs ==> GoodEnv(e)
      modifies this`keys, this`tabs, this`secrets
      ensures View() == Store.IngestTabs(old(View()), ts, envs, src)
    {
      for i := 0 to |ts|
        invariant View() == Store.IngestTabs(old(View()), ts[..i], envs[..i], src)
      {
        assert ts[..i+1][..i] == ts[..i] && envs[..i+1][..i] == envs[..i];
        assert envs[i] in envs;
        IngestTab(ts[i], envs[i], src);
      }
      assert ts[..|ts|] == ts && envs[..|ts|] == envs;
    }

    method IngestGroups(gs: seq<GroupDelta>)
      modifies this`groups
      ensures View() == Store.IngestGroups(old(View()), gs)
    {
      for i := 0 to |gs|
        invariant View() == Store.IngestGroups(old(View()), gs[..i])
      {
        assert gs[..i+1][..i] == gs[..i];
        var s := Slot(LIVE, gs[i].groupKey);
        match gs[i].op
        case Remove => groups := groups - {s};
        case Upsert => groups := groups[s := GroupRow(gs[i].windowId, gs[i].title, gs[i].color, gs[i].collapsed)];
      }
      assert gs[..|gs|] == gs;
    }

    method DropUnlistedTabs(w: string, liveTabs: set<string>)
      modifies this`tabs
      ensures tabs == ListedTabs(old(tabs), w, liveTabs)
    {
      var found := set s | s in tabs && s.snapshot == LIVE && tabs[s].windowId == w :: s.key;
      var rest := found;
      while rest != {}
        invariant rest <= found
        invariant tabs ==
            map s | s in old(tabs) && !(s.snapshot == LIVE && s.key in found - rest && s.key !in liveTabs)
              :: old(tabs)[s]
        decreases |rest|
      {
        assert exists k :: k in rest by { if forall k :: k !in rest { assert false; } }
        var k :| k in rest;
        rest := rest - {k};
        if k !in liveTabs { tabs := tabs - {Slot(LIVE, k)}; }
      }
      assert forall s :: s in old(tabs) && s.snapshot == LIVE ==> (s.key in found <==> old(tabs)[s].windowId == w);
    }

    method DropUnlistedSecrets(w: string, liveTabs: set<string>)
      modifies this`secrets
      ensures secrets == ListedSecrets(old(secrets), w, liveTabs)
    {
      var found := set s | s in secrets && s.snapshot == LIVE && secrets[s].windowId == w :: s.key;
      var rest := found;
      while rest != {}
        invariant rest <= found
        invariant secrets ==
            map s | s in old(secrets) && !(s.snapshot == LIVE && s.key in found - rest && s.key !in liveTabs)
              :: old(secrets)[s]
        decreases |rest|
      {
        assert exists k :: k in rest by { if forall k :: k !in rest { assert false; } }
        var k :| k in rest;
        rest := rest - {k};
        if k !in liveTabs { secrets := secrets - {Slot(LIVE, k)}; }
      }
      assert forall s :: s in old(secrets) && s.snapshot == LIVE ==>
          (s.key in found <==> old(secrets)[s].windowId == w);
    }

    method ReapOne(body: StateBody, w: string)
      modifies this`windows, this`tabs, this`secrets, this`groups
      ensures View() == ReapWindow(old(View()), body, w)
    {
      if w in LiveWindows(body) {
        DropUnlistedTabs(w, LiveTabs(body));
        DropUnlistedSecrets(w, LiveTabs(body));
      } else {
        tabs := OtherTabs(tabs, w);
        secrets := OtherSecrets(secrets, w);
        groups := OtherGroups(groups, w);
        windows := windows - {Slot(LIVE, w)};
      }
    }

    /** `reap_missing_for_browser`. */
    method ReapMissing(body: StateBody, browser: string, profile: string)
      modifies this`windows, this`tabs, this`secrets, this`groups
      ensures View() == ReapRows(old(View()), body, OwnedWindows(old(View()), browser, profile))
    {
      var owned := OwnedWindows(View(), browser, profile);
      var rest := owned;
      ReapNone(View(), body);
      assert owned - rest == {};
      while rest != {}
        invariant rest <= owned
        invariant View() == ReapRows(old(View()), body, owned - rest)
        decreases |rest|
      {
        assert exists w :: w in rest by { if forall w :: w !in rest { assert false; } }
        var w :| w in rest;
        ReapMore(old(View()), body, owned - rest, w);
        assert owned - rest + {w} == owned - (rest - {w});
        rest := rest - {w};
        ReapOne(body, w);
      }
      assert owned - rest == owned;
    }

    /** `apply_state`. */
    method ApplyState(body: StateBody, envs: seq<Env>, authoritative: bool, src: Source)
      requires |envs| == |body.tabs| && forall e :: e in envs ==> GoodEnv(e)
      modifies this`windows, this`tabs, this`secrets, this`groups, this`keys
      ensures View() == ApplyMessage(old(View()), body, envs, authoritative, src)
    {
      IngestWindows(body.windows, src);
      IngestTabs(body.tabs, envs, src);
      IngestGroups(body.groups);
      if authoritative { ReapMissing(body, src.browser, src.profile); }
    }

    method SweepExpiredPrivate(now: int) returns (n: nat)
      modifies this`secrets
      ensures View() == Sweep(old(View()), now)
      ensures n == |old(secrets)| - |secrets|
    {
      var expired := set s | s in secrets && secrets[s].expiresAt < now;
      assert Unswept(secrets, now) == secrets - expired;
      assert |(secrets - expired).Keys| == |secrets.Keys| - |expired| by {
        assert (secrets - expired).Keys == secrets.Keys - expired;
      }
      n := |expired|;
      secrets := secrets - expired;
    }

    method PurgeAllPrivate() returns (n: nat)
      modifies this`secrets
      ensures View() == Purge(old(View())) && n == |old(secrets)|
    {
      n := |secrets|;
      secrets := map[];
    }

    method InsertSnapshot(id: int, row: SnapshotRow)
      modifies this`snapshots
      ensures snapshots == old(snapshots)[id := row]
    {
      snapshots := snapshots[id := row];
    }

    method CopyTables(id: int)
      modifies this`windows, this`tabs, this`secrets, this`groups, this`apps
      ensures View() == CopyRows(old(View()), id)
    {
      windows := Copied(windows, LIVE, id);
      tabs := Copied(tabs, LIVE, id);
      secrets := Copied(secrets, LIVE, id);
      groups := Copied(groups, LIVE, id);
      apps := Copied(apps, LIVE, id);
    }

    /** The next snapshot id, given to a row and to copies of the live tables. */
    method CopyLive(row: SnapshotRow) returns (id: int)
      modifies this`windows, this`tabs, this`secrets, this`groups, this`apps, this`snapshots
      ensures id == NextId(old(snapshots).Keys) && View() == Copy(old(View()), id, row)
    {
      id := FreshId(snapshots.Keys);
      InsertSnapshot(id, row);
      CopyTables(id);
    }

    method CountLive() returns (tabCount: nat, appCount: nat)
      ensures tabCount == |At(tabs, LIVE)| + |At(secrets, LIVE)| && appCount == |At(apps, LIVE)|
    {
      tabCount := |At(tabs, LIVE)| + |At(secrets, LIVE)|;
      appCount := |At(apps, LIVE)|;
    }

    /** `create_from_live`: count, insert the snapshot row, then copy table by table. */
    method CreateFromLive(kind: Kind, now: int) returns (made: Option<int>)
      modifies this`windows, this`tabs, this`secrets, this`groups, this`apps, this`snapshots
      ensures (View(), made) == Store.CreateFromLive(old(View()), kind, now)
    {
      var tabCount, appCount := CountLive();
      TakeIs(View(), kind, now, tabCount, appCount);
      if tabCount == 0 && appCount == 0 { return None; }
      var id := CopyLive(SnapshotRow(now, kind, false, appCount, tabCount));
      made := Some(id);
    }

    /** `delete`, which refuses the live state. */
    method Delete(id: int) returns (ok: bool)
      modifies this
      ensures ok == Store.Delete(old(View()), id).Some?
      ensures View() == if ok then Store.Delete(old(View()), id).value else old(View())
    {
      if id == LIVE { return false; }
      windows := Dropped(windows, id);
      tabs := Dropped(tabs, id);
      secrets := Dropped(secrets, id);
      groups := Dropped(groups, id);
      apps := Dropped(apps, id);
      snapshots := snapshots - {id};
      ok := true;
    }

    /** `prune`. */
    method Prune(keep: int) returns (n: nat, ghost doomed: set<int>)
      modifies this
      ensures Doomed(old(snapshots), keep, doomed) && n == |doomed|
      ensures View() == DeleteAll(old(View()), doomed)
    {
      var past := PastNewest(snapshots, keep);
      doomed := past;
      n := |past|;
      var rest := past;
      DeleteNone(View());
      assert past - rest == {};
      while rest != {}
        invariant rest <= past && LIVE !in past
        invariant View() == DeleteAll(old(View()), past - rest)
        decreases |rest|
      {
        assert exists i :: i in rest by { if forall i :: i !in rest { assert false; } }
        var id :| id in rest;
        DeleteMore(old(View()), past - rest, id);
        assert past - rest + {id} == past - (rest - {id});
        rest := rest - {id};
        var ok := Delete(id);
      }
      assert past - rest == past;
    }

    method FindNewestRestorable() returns (id: Option<int>)
      ensures NewestRestorable(snapshots, id)
      ensures id.Some? ==> Candidate(snapshots, id.value)
    {
      var all := Restorable(snapshots);
      if all == {} { return None; }
      var best := Latest(snapshots, all, (r: SnapshotRow) => r.capturedAt);
      id := Some(best);
    }

    /** `begin_run`: look back, take an undo point unless one is shared, record the run. */
    method BeginRun(snapshotId: int, mode: string, at: Times) returns (id: int, ghost pick: Option<int>)
      modifies this
      ensures Shares(old(runs), snapshotId, at.looked, pick)
      ensures (View(), id) == Store.BeginRun(old(View()), snapshotId, mode, at, pick)
    {
      var recent := Recent(runs, snapshotId, at.looked);
      var undo;
      if recent != {} {
        var best := Latest(runs, recent, (r: RunRow) => r.startedAt);
        undo := runs[best].undo;
        pick := Some(best);
      } else {
        undo := CreateFromLive(PreRestore, at.copied);
        pick := None;
      }
      id := FreshId(runs.Keys);
      runs := runs[id := RunRow(snapshotId, at.started, mode, undo)];
    }
  }

  lemma CountsAre(t: Tables)
    ensures var live := Session(t, LIVE);
      |live.secrets| == |At(t.secrets, LIVE)| && |live.tabs| == |At(t.tabs, LIVE)| && |live.apps| == |At(t.apps, LIVE)|
  {
    var rows := At(t.secrets, LIVE);
    assert OpenAll(t.keys, rows).Keys == rows.Keys;
    assert |OpenAll(t.keys, rows).Keys| == |OpenAll(t.keys, rows)| && |rows.Keys| == |rows|;
  }

  lemma RowIs(t: Tables, kind: Kind, now: int, tabs: nat, apps: nat)
    requires tabs == |At(t.tabs, LIVE)| + |At(t.secrets, LIVE)| && apps == |At(t.apps, LIVE)|
    ensures var live := Session(t, LIVE);
      RowOf(live, kind, now) == SnapshotRow(now, kind, false, apps, tabs)
      && (NoneOpen(live) <==> tabs == 0 && apps == 0)
  {
    CountsAre(t);
    RowFrom(Session(t, LIVE), kind, now, tabs, apps);
  }

  lemma RowFrom(live: Live, kind: Kind, now: int, tabs: nat, apps: nat)
    requires tabs == |live.tabs| + |live.secrets| && apps == |live.apps|
    ensures RowOf(live, kind, now) == SnapshotRow(now, kind, false, apps, tabs)
            && (NoneOpen(live) <==> tabs == 0 && apps == 0)
  {
  }

  ghost function Taken(t: Tables, row: SnapshotRow): (Tables, Option<int>) {
    if row.tabCount == 0 && row.appCount == 0 then (t, None)
    else (Copy(t, NextId(t.snapshots.Keys), row), Some(NextId(t.snapshots.Keys)))
  }

  lemma TakeIs(t: Tables, kind: Kind, now: int, tabs: nat, apps: nat)
    requires tabs == |At(t.tabs, LIVE)| + |At(t.secrets, LIVE)| && apps == |At(t.apps, LIVE)|
    ensures Store.CreateFromLive(t, kind, now) == Taken(t, SnapshotRow(now, kind, false, apps, tabs))
  {
    RowIs(t, kind, now, tabs, apps);
  }

  lemma WithoutNone<V>(m: map<Slot, V>)
    ensures Without(m, {}) == m
  {
  }

  lemma DeleteNone(t: Tables)
    ensures DeleteAll(t, {}) == t
  {
    WithoutNone(t.windows);
    WithoutNone(t.tabs);
    WithoutNone(t.secrets);
    WithoutNone(t.groups);
    WithoutNone(t.apps);
    assert t.snapshots - {} == t.snapshots;
  }

  lemma WithoutMore<V>(m: map<Slot, V>, done: set<int>, id: int)
    ensures Without(m, done + {id}) == Dropped(Without(m, done), id)
  {
  }

  lemma DeleteMore(t: Tables, done: set<int>, id: int)
    requires id != LIVE
    ensures Store.Delete(DeleteAll(t, done), id) == Some(DeleteAll(t, done + {id}))
  {
    WithoutMore(t.windows, done, id);
    WithoutMore(t.tabs, done, id);
    WithoutMore(t.secrets, done, id);
    WithoutMore(t.groups, done, id);
    WithoutMore(t.apps, done, id);
    assert t.snapshots - done - {id} == t.snapshots - (done + {id});
  }
}
