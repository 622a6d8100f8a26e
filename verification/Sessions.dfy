/**
 Encryption, key rotation and composite keys do not show: every operation on the tables does
 to each snapshot, read as plain text, what LiveTables.dfy says. The invariant that makes
 this true is that every private row's key is kept and opens the row.
 */
module Sessions {
  import opened Options
  import opened Protocol
  import opened LiveTables
  import opened Crypto
  import opened Store

  // ----- The invariant -----

  predicate OneActiveKey(keys: map<int, KeyRow>) {
    forall i, j :: i in keys && j in keys && keys[i].retiredAt.None? && keys[j].retiredAt.None? ==> i == j
  }

  predicate Opens(keys: map<int, KeyRow>, s: Slot, r: SealedRow) {
    r.keyId in keys && OpenRow(keys, s.key, r).payload.Some?
  }

  predicate AllOpen(keys: map<int, KeyRow>, secrets: map<Slot, SealedRow>) {
    forall s :: s in secrets ==> Opens(keys, s, secrets[s])
  }

  predicate Belong<V>(m: map<Slot, V>, ids: set<int>) {
    forall s :: s in m ==> s.snapshot in ids
  }

  /** Every row is live or belongs to a snapshot on record. */
  predicate NoOrphans(t: Tables) {
    var ids := t.snapshots.Keys;
    && LIVE in ids
    && Belong(t.windows, ids) && Belong(t.tabs, ids) && Belong(t.secrets, ids)
    && Belong(t.groups, ids) && Belong(t.apps, ids)
  }

  predicate Sound(t: Tables) {
    OneActiveKey(t.keys) && AllOpen(t.keys, t.secrets) && NoOrphans(t)
  }

  // ----- Rows of one snapshot -----

  lemma AtPut<V>(m: map<Slot, V>, s: Slot, v: V, id: int)
    ensures At(m[s := v], id) == if s.snapshot == id then At(m, id)[s.key := v] else At(m, id)
  {
  }

  lemma AtRemove<V>(m: map<Slot, V>, s: Slot, id: int)
    ensures At(m - {s}, id) == if s.snapshot == id then At(m, id) - {s.key} else At(m, id)
  {
  }

  lemma AtCopied<V>(m: map<Slot, V>, from: int, to: int, id: int)
    requires from != to && At(m, to) == map[]
    ensures At(Copied(m, from, to), id) == if id == to then At(m, from) else At(m, id)
  {
    if id == to {
      forall k ensures k in At(Copied(m, from, to), id) <==> k in At(m, from) {
        assert k !in At(m, to);
        assert Slot(from, k) in m ==> Slot(to, Slot(from, k).key) in Copied(m, from, to);
      }
    }
  }

  lemma AtAbsent<V>(m: map<Slot, V>, ids: set<int>, id: int)
    requires Belong(m, ids) && id !in ids
    ensures At(m, id) == map[]
  {
    forall k ensures k !in At(m, id) {
      assert Slot(id, k) in m ==> Slot(id, k).snapshot in ids;
    }
  }

  // ----- Keys -----

  /** Keys are only ever added or retired while rows refer to them. */
  predicate Extends(before: map<int, KeyRow>, after: map<int, KeyRow>) {
    forall k :: k in before ==> k in after && after[k].dek == before[k].dek
  }

  lemma CreateKeyIs(t: Tables, now: int, newDek: Dek)
    requires Unretired(t) == {}
    ensures var (t', id, dek) := CreateKey(t, now, newDek);
      && t' == t.(keys := t'.keys) && Extends(t.keys, t'.keys) && Unretired(t') == {id} && dek == newDek
      && id !in t.keys && t'.keys.Keys == t.keys.Keys + {id}
      && t'.keys[id].dek == newDek && t'.keys[id].createdAt == now
      && forall k :: k in t.keys ==> t'.keys[k] == t.keys[k]
  {
    var (t', id, dek) := CreateKey(t, now, newDek);
    forall i ensures i in Unretired(t') <==> i == id {
      assert i !in Unretired(t);
    }
  }

  lemma RetireLast(t: Tables, id: int, now: int)
    requires OneActiveKey(t.keys) && id in Unretired(t)
    ensures Unretired(t) == {id} && Unretired(Retire(t, id, now)) == {}
  {
    forall i | i in Unretired(t) ensures i == id {
    }
    forall i ensures i !in Unretired(Retire(t, id, now)) {
      assert i in Unretired(Retire(t, id, now)) ==> i in Unretired(t);
    }
  }

  /** A key in use made less than thirty days ago. */
  ghost predicate Young(t: Tables, id: int, now: int) {
    id in t.keys && t.keys[id].retiredAt.None? && now - t.keys[id].createdAt < 30 * 24 * 3_600_000
  }

  /**
   A young key is used again and nothing changes. Without one a new key is made, of this moment;
   the one in use, if there was one, is retired now and kept; and all others stay as they are.
   */
  lemma ActiveDekIs(t: Tables, now: int, newDek: Dek)
    requires OneActiveKey(t.keys)
    ensures var (t', id, dek) := ActiveDek(t, now, newDek);
      && t' == t.(keys := t'.keys) && Extends(t.keys, t'.keys)
      && Unretired(t') == {id} && id in t'.keys && t'.keys[id].dek == dek
      && ((exists i :: Young(t, i, now)) ==> t' == t && Young(t, id, now))
      && ((forall i :: !Young(t, i, now)) ==>
            && id !in t.keys && t'.keys.Keys == t.keys.Keys + {id} && dek == newDek && t'.keys[id].createdAt == now
            && forall k :: k in t.keys ==>
                 && t'.keys[k].createdAt == t.keys[k].createdAt
                 && t'.keys[k].retiredAt == if t.keys[k].retiredAt.None? then Some(now) else t.keys[k].retiredAt)
  {
    if Unretired(t) == {} {
      CreateKeyIs(t, now, newDek);
      forall i ensures !Young(t, i, now) {
        assert i !in Unretired(t);
      }
      forall k | k in t.keys ensures t.keys[k].retiredAt.Some? {
        assert k !in Unretired(t);
      }
    } else {
      var id := Max(Unretired(t));
      RetireLast(t, id, now);
      forall i | Young(t, i, now) ensures i == id {
        assert i in Unretired(t);
      }
      if !Young(t, id, now) { ReplaceIs(t, id, now, newDek); }
    }
  }

  lemma ReplaceIs(t: Tables, old_: int, now: int, newDek: Dek)
    requires OneActiveKey(t.keys) && old_ in Unretired(t)
    ensures var (t', id, dek) := CreateKey(Retire(t, old_, now), now, newDek);
      && t' == t.(keys := t'.keys) && Extends(t.keys, t'.keys)
      && Unretired(t') == {id} && id in t'.keys && t'.keys[id].dek == dek
      && id !in t.keys && t'.keys.Keys == t.keys.Keys + {id} && dek == newDek && t'.keys[id].createdAt == now
      && forall k :: k in t.keys ==>
           && t'.keys[k].createdAt == t.keys[k].createdAt
           && t'.keys[k].retiredAt == if t.keys[k].retiredAt.None? then Some(now) else t.keys[k].retiredAt
  {
    RetireLast(t, old_, now);
    CreateKeyIs(Retire(t, old_, now), now, newDek);
    forall k | k in t.keys && k != old_ ensures t.keys[k].retiredAt.Some? {
      assert k !in Unretired(t);
    }
  }

  lemma OneUnretired(t: Tables, id: int)
    requires Unretired(t) == {id}
    ensures OneActiveKey(t.keys)
  {
    forall i, j | i in t.keys && j in t.keys && t.keys[i].retiredAt.None? && t.keys[j].retiredAt.None? ensures i == j {
      assert i in Unretired(t) && j in Unretired(t);
    }
  }

  lemma StillOpens(before: map<int, KeyRow>, after: map<int, KeyRow>, s: Slot, r: SealedRow)
    requires Extends(before, after) && Opens(before, s, r)
    ensures Opens(after, s, r) && OpenRow(after, s.key, r) == OpenRow(before, s.key, r)
  {
  }

  lemma SessionKeys(t: Tables, t': Tables, id: int)
    requires t' == t.(keys := t'.keys) && Extends(t.keys, t'.keys) && AllOpen(t.keys, t.secrets)
    ensures AllOpen(t'.keys, t'.secrets) && Session(t', id) == Session(t, id)
  {
    forall s | s in t.secrets ensures Opens(t'.keys, s, t.secrets[s]) {
      StillOpens(t.keys, t'.keys, s, t.secrets[s]);
    }
    var rows := At(t.secrets, id);
    forall k | k in rows ensures OpenRow(t'.keys, k, rows[k]) == OpenRow(t.keys, k, rows[k]) {
      StillOpens(t.keys, t'.keys, Slot(id, k), rows[k]);
    }
    assert OpenAll(t'.keys, rows) == OpenAll(t.keys, rows);
  }

  // ----- Ingest -----

  lemma SessionWindow(t: Tables, d: WindowDelta, src: Source, id: int)
    requires Sound(t)
    ensures var t' := IngestWindow(t, d, src);
      Sound(t') && Session(t', id) == if id == LIVE then ApplyWindow(Session(t, LIVE), d, src) else Session(t, id)
  {
    var s := Slot(LIVE, d.windowId);
    match d.op
    case Remove =>
      SessionWindowRemove(t, d.windowId, id);
    case Upsert =>
      assert Get(t.windows, s) == Lookup(Session(t, LIVE).windows, d.windowId);
      SessionWindowPut(t, d.windowId, WindowRowOf(d, src, Get(t.windows, s)), id);
  }

  lemma SessionWindowPut(t: Tables, k: string, row: WindowRow, id: int)
    requires Sound(t)
    ensures var t' := t.(windows := t.windows[Slot(LIVE, k) := row]);
      && Sound(t')
      && Session(t', id)
         == (if id == LIVE then Session(t, LIVE).(windows := Session(t, LIVE).windows[k := row]) else Session(t, id))
  {
    AtPut(t.windows, Slot(LIVE, k), row, id);
  }

  lemma SessionWindowRemove(t: Tables, k: string, id: int)
    requires Sound(t)
    ensures var t' := t.(windows := t.windows - {Slot(LIVE, k)});
      && Sound(t')
      && Session(t', id)
         == (if id == LIVE then Session(t, LIVE).(windows := Session(t, LIVE).windows - {k}) else Session(t, id))
  {
    AtRemove(t.windows, Slot(LIVE, k), id);
  }

  lemma SessionGroup(t: Tables, d: GroupDelta, id: int)
    requires Sound(t)
    ensures var t' := IngestGroup(t, d);
      Sound(t') && Session(t', id) == if id == LIVE then ApplyGroup(Session(t, LIVE), d) else Session(t, id)
  {
    match d.op
    case Remove => SessionGroupRemove(t, d.groupKey, id);
    case Upsert => SessionGroupPut(t, d.groupKey, GroupRow(d.windowId, d.title, d.color, d.collapsed), id);
  }

  lemma SessionGroupPut(t: Tables, k: string, row: GroupRow, id: int)
    requires Sound(t)
    ensures var t' := t.(groups := t.groups[Slot(LIVE, k) := row]);
      && Sound(t')
      && Session(t', id)
         == (if id == LIVE then Session(t, LIVE).(groups := Session(t, LIVE).groups[k := row]) else Session(t, id))
  {
    AtPut(t.groups, Slot(LIVE, k), row, id);
  }

  lemma SessionGroupRemove(t: Tables, k: string, id: int)
    requires Sound(t)
    ensures var t' := t.(groups := t.groups - {Slot(LIVE, k)});
      && Sound(t')
      && Session(t', id)
         == (if id == LIVE then Session(t, LIVE).(groups := Session(t, LIVE).groups - {k}) else Session(t, id))
  {
    AtRemove(t.groups, Slot(LIVE, k), id);
  }

  lemma OpenAllPut(keys: map<int, KeyRow>, rows: map<string, SealedRow>, k: string, r: SealedRow)
    ensures OpenAll(keys, rows[k := r]) == OpenAll(keys, rows)[k := OpenRow(keys, k, r)]
  {
  }

  lemma OpenAllRemove(keys: map<int, KeyRow>, rows: map<string, SealedRow>, k: string)
    ensures OpenAll(keys, rows - {k}) == OpenAll(keys, rows) - {k}
  {
  }

  lemma SessionPut(t: Tables, k: string, r: SealedRow, id: int)
    ensures Session(t.(secrets := t.secrets[Slot(LIVE, k) := r]), id)
            == if id == LIVE then Session(t, LIVE).(secrets := Session(t, LIVE).secrets[k := OpenRow(t.keys, k, r)])
               else Session(t, id)
  {
    AtPut(t.secrets, Slot(LIVE, k), r, id);
    OpenAllPut(t.keys, At(t.secrets, LIVE), k, r);
  }

  lemma SealedOpens(keys: map<int, KeyRow>, d: TabDelta, dek: Dek, keyId: int, env: Env)
    requires GoodEnv(env) && keyId in keys && keys[keyId].dek == dek
    ensures OpenRow(keys, d.tabKey, SealedRowOf(d, dek, keyId, env)) == PrivateTabOf(d, ExpiresAt(env))
  {
    OpensOnlyInPlace(dek, d.tabKey, keyId, PayloadOf(d), env.nonce, dek, d.tabKey, keyId);
  }

  /** Sealing under an active key of tables whose keys only grew. */
  lemma SessionSealed(t: Tables, t1: Tables, d: TabDelta, dek: Dek, keyId: int, env: Env, id: int)
    requires Sound(t) && GoodEnv(env)
    requires t1 == t.(keys := t1.keys) && Extends(t.keys, t1.keys) && keyId in t1.keys && t1.keys[keyId].dek == dek
    ensures Session(t1.(secrets := t1.secrets[Slot(LIVE, d.tabKey) := SealedRowOf(d, dek, keyId, env)]), id)
         == (if id == LIVE
             then Session(t, LIVE).(secrets := Session(t, LIVE).secrets[d.tabKey := PrivateTabOf(d, ExpiresAt(env))])
             else Session(t, id))
  {
    SessionKeys(t, t1, id);
    SessionKeys(t, t1, LIVE);
    SealedOpens(t1.keys, d, dek, keyId, env);
    SessionPut(t1, d.tabKey, SealedRowOf(d, dek, keyId, env), id);
  }

  lemma SoundSealed(t: Tables, t1: Tables, d: TabDelta, dek: Dek, keyId: int, env: Env)
    requires Sound(t) && GoodEnv(env) && OneActiveKey(t1.keys)
    requires t1 == t.(keys := t1.keys) && Extends(t.keys, t1.keys) && keyId in t1.keys && t1.keys[keyId].dek == dek
    ensures Sound(t1.(secrets := t1.secrets[Slot(LIVE, d.tabKey) := SealedRowOf(d, dek, keyId, env)]))
  {
    var r := SealedRowOf(d, dek, keyId, env);
    SessionKeys(t, t1, LIVE);
    SealedOpens(t1.keys, d, dek, keyId, env);
    assert Opens(t1.keys, Slot(LIVE, d.tabKey), r);
  }

  lemma SessionStore(t: Tables, d: TabDelta, env: Env, id: int)
    requires Sound(t) && GoodEnv(env)
    ensures var t' := StorePrivate(t, d, env);
      && Sound(t')
      && Session(t', id)
         == (if id == LIVE
             then Session(t, LIVE).(secrets := Session(t, LIVE).secrets[d.tabKey := PrivateTabOf(d, ExpiresAt(env))])
             else Session(t, id))
  {
    var (t1, keyId, dek) := ActiveDek(t, env.now, env.newDek);
    ActiveDekIs(t, env.now, env.newDek);
    OneUnretired(t1, keyId);
    SoundSealed(t, t1, d, dek, keyId, env);
    SessionSealed(t, t1, d, dek, keyId, env, id);
  }

  lemma SessionRemove(t: Tables, tabKey: string, id: int)
    requires Sound(t)
    ensures var t' := RemoveTab(t, tabKey);
      && Sound(t')
      && Session(t', id)
         == (if id == LIVE
             then Session(t, LIVE).(tabs := Session(t, LIVE).tabs - {tabKey},
                                                secrets := Session(t, LIVE).secrets - {tabKey})
             else Session(t, id))
  {
    AtRemove(t.tabs, Slot(LIVE, tabKey), id);
    AtRemove(t.secrets, Slot(LIVE, tabKey), id);
    OpenAllRemove(t.keys, At(t.secrets, LIVE), tabKey);
  }

  lemma SessionNormal(t: Tables, tabKey: string, row: TabRow, id: int)
    requires Sound(t)
    ensures var t' := t.(tabs := t.tabs[Slot(LIVE, tabKey) := row]);
      && Sound(t')
      && Session(t', id)
         == (if id == LIVE then Session(t, LIVE).(tabs := Session(t, LIVE).tabs[tabKey := row]) else Session(t, id))
  {
    AtPut(t.tabs, Slot(LIVE, tabKey), row, id);
  }

  lemma SessionTab(t: Tables, d: TabDelta, env: Env, src: Source, id: int)
    requires Sound(t) && GoodEnv(env)
    ensures var t' := IngestTab(t, d, env, src);
      && Sound(t')
      && Session(t', id) == (if id == LIVE then ApplyTab(Session(t, LIVE), d, ExpiresAt(env), src) else Session(t, id))
  {
    if d.op == Remove {
      SessionRemove(t, d.tabKey, id);
    } else if d.isPrivate {
      if src.capturePrivate { SessionStore(t, d, env, id); }
    } else {
      SessionNormal(t, d.tabKey, NormalTabOf(d).value, id);
    }
  }

  // ----- Messages -----

  function Expiry(envs: seq<Env>): (r: seq<int>)
    ensures |r| == |envs| && forall i :: 0 <= i < |envs| ==> r[i] == ExpiresAt(envs[i])
  {
    seq(|envs|, i requires 0 <= i < |envs| => ExpiresAt(envs[i]))
  }

  function Wins(ws: seq<WindowDelta>): seq<Delta> { seq(|ws|, i requires 0 <= i < |ws| => Win(ws[i])) }

  function Tabs(ts: seq<TabDelta>, expiry: seq<int>): seq<Delta>
    requires |expiry| == |ts|
  {
    seq(|ts|, i requires 0 <= i < |ts| => Tab(ts[i], expiry[i]))
  }

  function Grps(gs: seq<GroupDelta>): seq<Delta> { seq(|gs|, i requires 0 <= i < |gs| => Grp(gs[i])) }

  lemma {:induction false} FoldConcat(l: Live, a: seq<Delta>, b: seq<Delta>, src: Source)
    ensures Fold(l, a + b, src) == Fold(Fold(l, a, src), b, src)
  {
    if b == [] {
      assert a + b == a;
    } else {
      var n := |b| - 1;
      assert (a + b)[..|a| + n] == a + b[..n];
      FoldConcat(l, a, b[..n], src);
    }
  }

  lemma FoldSnoc(l: Live, a: seq<Delta>, d: Delta, src: Source)
    ensures Fold(l, a + [d], src) == Apply(Fold(l, a, src), d, src)
  {
    assert (a + [d])[..|a|] == a;
  }

  lemma FoldWins(l: Live, ws: seq<WindowDelta>, w: WindowDelta, src: Source)
    ensures Fold(l, Wins(ws + [w]), src) == ApplyWindow(Fold(l, Wins(ws), src), w, src)
  {
    assert Wins(ws + [w]) == Wins(ws) + [Win(w)];
    FoldSnoc(l, Wins(ws), Win(w), src);
  }

  lemma FoldTabs(l: Live, ts: seq<TabDelta>, expiry: seq<int>, t: TabDelta, at: int, src: Source)
    requires |expiry| == |ts|
    ensures Fold(l, Tabs(ts + [t], expiry + [at]), src) == ApplyTab(Fold(l, Tabs(ts, expiry), src), t, at, src)
  {
    assert Tabs(ts + [t], expiry + [at]) == Tabs(ts, expiry) + [Tab(t, at)];
    FoldSnoc(l, Tabs(ts, expiry), Tab(t, at), src);
  }

  lemma FoldGrps(l: Live, gs: seq<GroupDelta>, g: GroupDelta, src: Source)
    ensures Fold(l, Grps(gs + [g]), src) == ApplyGroup(Fold(l, Grps(gs), src), g)
  {
    assert Grps(gs + [g]) == Grps(gs) + [Grp(g)];
    FoldSnoc(l, Grps(gs), Grp(g), src);
  }

  /** What an ingest step leaves: sound tables, one session as given, the others alone. */
  predicate Leaves(t: Tables, t': Tables, id: int, live: Live) {
    Sound(t') && Session(t', id) == if id == LIVE then live else Session(t, id)
  }

  lemma IngestWindowsIs(t: Tables, ws: seq<WindowDelta>, src: Source)
    requires ws != []
    ensures var n := |ws| - 1;
      ws[..n] + [ws[n]] == ws && IngestWindows(t, ws, src) == IngestWindow(IngestWindows(t, ws[..n], src), ws[n], src)
  {
  }

  lemma {:induction false} SessionWindows(t: Tables, ws: seq<WindowDelta>, src: Source, id: int)
    requires Sound(t)
    ensures Leaves(t, IngestWindows(t, ws, src), id, Fold(Session(t, LIVE), Wins(ws), src))
  {
    if ws != [] {
      var n := |ws| - 1;
      IngestWindowsIs(t, ws, src);
      SessionWindows(t, ws[..n], src, id);
      WindowsStep(t, IngestWindows(t, ws[..n], src), ws[..n], ws[n], src, id);
    }
  }

  lemma WindowsStep(t: Tables, t1: Tables, ws: seq<WindowDelta>, w: WindowDelta, src: Source, id: int)
    requires Leaves(t, t1, id, Fold(Session(t, LIVE), Wins(ws), src))
    ensures Leaves(t, IngestWindow(t1, w, src), id, Fold(Session(t, LIVE), Wins(ws + [w]), src))
  {
    SessionWindow(t1, w, src, id);
    FoldWins(Session(t, LIVE), ws, w, src);
  }

  lemma IngestTabsIs(t: Tables, ts: seq<TabDelta>, envs: seq<Env>, src: Source)
    requires ts != [] && |envs| == |ts| && forall e :: e in envs ==> GoodEnv(e)
    ensures var n := |ts| - 1; GoodEnv(envs[n])
    ensures var n := |ts| - 1;
      && ts[..n] + [ts[n]] == ts && envs[..n] + [envs[n]] == envs
      && IngestTabs(t, ts, envs, src) == IngestTab(IngestTabs(t, ts[..n], envs[..n], src), ts[n], envs[n], src)
  {
    assert envs[|ts|-1] in envs;
  }

  lemma {:induction false} SessionTabs(t: Tables, ts: seq<TabDelta>, envs: seq<Env>, src: Source, id: int)
    requires Sound(t) && |envs| == |ts| && forall e :: e in envs ==> GoodEnv(e)
    ensures Leaves(t, IngestTabs(t, ts, envs, src), id, Fold(Session(t, LIVE), Tabs(ts, Expiry(envs)), src))
  {
    if ts != [] {
      var n := |ts| - 1;
      assert envs[n] in envs;
      IngestTabsIs(t, ts, envs, src);
      SessionTabs(t, ts[..n], envs[..n], src, id);
      TabsStep(t, IngestTabs(t, ts[..n], envs[..n], src), ts[..n], envs[..n], ts[n], envs[n], src, id);
    }
  }

  lemma TabsStep(t: Tables, t1: Tables, ts: seq<TabDelta>, envs: seq<Env>, d: TabDelta, env: Env, src: Source, id: int)
    requires |envs| == |ts| && GoodEnv(env)
    requires Leaves(t, t1, id, Fold(Session(t, LIVE), Tabs(ts, Expiry(envs)), src))
    ensures Leaves(t, IngestTab(t1, d, env, src), id, Fold(Session(t, LIVE), Tabs(ts + [d], Expiry(envs + [env])), src))
  {
    SessionTab(t1, d, env, src, id);
    FoldTabs(Session(t, LIVE), ts, Expiry(envs), d, ExpiresAt(env), src);
    assert Expiry(envs + [env]) == Expiry(envs) + [ExpiresAt(env)];
  }

  lemma IngestGroupsIs(t: Tables, gs: seq<GroupDelta>)
    requires gs != []
    ensures var n := |gs| - 1;
      gs[..n] + [gs[n]] == gs && IngestGroups(t, gs) == IngestGroup(IngestGroups(t, gs[..n]), gs[n])
  {
  }

  lemma {:induction false} SessionGroups(t: Tables, gs: seq<GroupDelta>, src: Source, id: int)
    requires Sound(t)
    ensures Leaves(t, IngestGroups(t, gs), id, Fold(Session(t, LIVE), Grps(gs), src))
  {
    if gs != [] {
      var n := |gs| - 1;
      IngestGroupsIs(t, gs);
      SessionGroups(t, gs[..n], src, id);
      GroupsStep(t, IngestGroups(t, gs[..n]), gs[..n], gs[n], src, id);
    }
  }

  lemma GroupsStep(t: Tables, t1: Tables, gs: seq<GroupDelta>, g: GroupDelta, src: Source, id: int)
    requires Leaves(t, t1, id, Fold(Session(t, LIVE), Grps(gs), src))
    ensures Leaves(t, IngestGroup(t1, g), id, Fold(Session(t, LIVE), Grps(gs + [g]), src))
  {
    SessionGroup(t1, g, id);
    FoldGrps(Session(t, LIVE), gs, g, src);
  }

  lemma DeltasAre(l: Live, body: StateBody, expiry: seq<int>, src: Source)
    requires |expiry| == |body.tabs|
    ensures Fold(l, Deltas(body, expiry), src)
            == Fold(Fold(Fold(l, Wins(body.windows), src), Tabs(body.tabs, expiry), src), Grps(body.groups), src)
  {
    var ws, ts, gs := Wins(body.windows), Tabs(body.tabs, expiry), Grps(body.groups);
    assert Deltas(body, expiry) == ws + ts + gs;
    FoldConcat(l, ws, ts, src);
    FoldConcat(l, ws + ts, gs, src);
  }

  lemma LeavesThen(t: Tables, t1: Tables, t2: Tables, id: int, l1: Live, l2: Live)
    requires Leaves(t, t1, id, l1) && Leaves(t1, t2, id, l2)
    ensures Leaves(t, t2, id, l2)
  {
  }

  lemma SessionIngest(t: Tables, body: StateBody, envs: seq<Env>, src: Source, id: int)
    requires Sound(t) && |envs| == |body.tabs| && forall e :: e in envs ==> GoodEnv(e)
    ensures Leaves(t, Ingest(t, body, envs, src), id, Fold(Session(t, LIVE), Deltas(body, Expiry(envs)), src))
  {
    var t1 := IngestWindows(t, body.windows, src);
    var t2 := IngestTabs(t1, body.tabs, envs, src);
    var t3 := IngestGroups(t2, body.groups);
    var live := Session(t, LIVE);
    var l1 := Fold(live, Wins(body.windows), src);
    var l2 := Fold(l1, Tabs(body.tabs, Expiry(envs)), src);
    var l3 := Fold(l2, Grps(body.groups), src);
    SessionWindows(t, body.windows, src, id);
    SessionWindows(t, body.windows, src, LIVE);
    SessionTabs(t1, body.tabs, envs, src, id);
    SessionTabs(t1, body.tabs, envs, src, LIVE);
    SessionGroups(t2, body.groups, src, id);
    DeltasAre(live, body, Expiry(envs), src);
    LeavesThen(t, t1, t2, id, l1, l2);
    LeavesThen(t, t2, t3, id, l2, l3);
  }

  /** Taking rows away keeps the tables sound. */
  lemma SoundFewer(t: Tables, t': Tables)
    requires Sound(t) && t'.keys == t.keys && t'.snapshots == t.snapshots
    requires t'.windows.Keys <= t.windows.Keys && t'.tabs.Keys <= t.tabs.Keys && t'.groups.Keys <= t.groups.Keys
    requires t'.apps.Keys <= t.apps.Keys
    requires forall s :: s in t'.secrets ==> s in t.secrets && t'.secrets[s] == t.secrets[s]
    ensures Sound(t')
  {
    assert forall s :: s in t'.windows ==> s in t.windows;
    assert forall s :: s in t'.tabs ==> s in t.tabs;
    assert forall s :: s in t'.groups ==> s in t.groups;
    assert forall s :: s in t'.apps ==> s in t.apps;
  }

  lemma AtSparedWindows(m: map<Slot, WindowRow>, body: StateBody, owned: set<string>, id: int)
    ensures At(SparedWindows(m, body, owned), id)
            == if id == LIVE then ReapWindows(At(m, LIVE), body, owned) else At(m, id)
  {
  }

  lemma AtSparedTabs(m: map<Slot, TabRow>, body: StateBody, owned: set<string>, id: int)
    ensures At(SparedTabs(m, body, owned), id) == if id == LIVE then ReapTabs(At(m, LIVE), body, owned) else At(m, id)
  {
  }

  lemma AtSparedGroups(m: map<Slot, GroupRow>, body: StateBody, owned: set<string>, id: int)
    ensures At(SparedGroups(m, body, owned), id)
            == if id == LIVE then ReapGroups(At(m, LIVE), body, owned) else At(m, id)
  {
  }

  lemma AtSparedSecrets(m: map<Slot, SealedRow>, keys: map<int, KeyRow>, body: StateBody, owned: set<string>, id: int)
    ensures OpenAll(keys, At(SparedSecrets(m, body, owned), id))
            == if id == LIVE then ReapSecrets(OpenAll(keys, At(m, LIVE)), body, owned) else OpenAll(keys, At(m, id))
  {
  }

  lemma SessionReap(t: Tables, body: StateBody, owned: set<string>, id: int)
    requires Sound(t)
    ensures Leaves(t, ReapRows(t, body, owned), id, Reap(Session(t, LIVE), body, owned))
  {
    SoundFewer(t, ReapRows(t, body, owned));
    AtSparedWindows(t.windows, body, owned, id);
    AtSparedTabs(t.tabs, body, owned, id);
    AtSparedSecrets(t.secrets, t.keys, body, owned, id);
    AtSparedGroups(t.groups, body, owned, id);
  }

  lemma OwnedIs(t: Tables, browser: string, profile: string)
    ensures OwnedWindows(t, browser, profile) == Owned(Session(t, LIVE), browser, profile)
  {
    var rows := Session(t, LIVE).windows;
    forall w ensures w in OwnedWindows(t, browser, profile) <==> w in Owned(Session(t, LIVE), browser, profile) {
      if w in rows && rows[w].browser == browser && rows[w].profile == profile {
        assert Slot(LIVE, w) in t.windows && Slot(LIVE, w).key == w;
      }
    }
  }

  /** A message does to the live session what it does in plain text, and nothing to any other. */
  lemma SessionMessage(t: Tables, body: StateBody, envs: seq<Env>, authoritative: bool, src: Source, id: int)
    requires Sound(t) && |envs| == |body.tabs| && forall e :: e in envs ==> GoodEnv(e)
    ensures Leaves(t, ApplyMessage(t, body, envs, authoritative, src), id,
                   ApplyState(Session(t, LIVE), body, Expiry(envs), authoritative, src))
  {
    SessionIngest(t, body, envs, src, id);
    SessionIngest(t, body, envs, src, LIVE);
    var folded := Ingest(t, body, envs, src);
    if authoritative {
      OwnedIs(folded, src.browser, src.profile);
      SessionReap(folded, body, OwnedWindows(folded, src.browser, src.profile), id);
    }
  }

  // ----- Keys, sweeps and snapshots -----

  /** Some session would read differently without the key. */
  ghost predicate Needed(t: Tables, k: int) {
    exists id :: Session(t.(keys := t.keys - {k}), id) != Session(t, id)
  }

  lemma NeededIs(t: Tables, k: int)
    requires Sound(t)
    ensures Needed(t, k) <==> k in Referenced(t)
  {
    var u := t.(keys := t.keys - {k});
    if k in Referenced(t) {
      var s :| s in t.secrets && t.secrets[s].keyId == k;
      assert Opens(t.keys, s, t.secrets[s]);
      assert Session(u, s.snapshot).secrets[s.key].payload.None? && Session(t, s.snapshot).secrets[s.key].payload.Some?;
    } else {
      forall id ensures Session(u, id) == Session(t, id) {
        var rows := At(t.secrets, id);
        forall n | n in rows ensures OpenRow(u.keys, n, rows[n]) == OpenRow(t.keys, n, rows[n]) {
          assert t.secrets[Slot(id, n)].keyId in Referenced(t);
        }
        assert OpenAll(u.keys, rows) == OpenAll(t.keys, rows);
      }
    }
  }

  /** A key is collected exactly if it is retired and every session of every snapshot reads the same without it. */
  lemma GcDropsUnneeded(t: Tables, k: int)
    requires Sound(t) && k in t.keys
    ensures k !in Gc(t).keys <==> t.keys[k].retiredAt.Some? && !Needed(t, k)
  {
    NeededIs(t, k);
  }

  lemma SessionGc(t: Tables, id: int)
    requires Sound(t)
    ensures Sound(Gc(t)) && Session(Gc(t), id) == Session(t, id)
  {
    var t' := Gc(t);
    forall s | s in t.secrets ensures t.secrets[s].keyId in t'.keys
              && t'.keys[t.secrets[s].keyId] == t.keys[t.secrets[s].keyId] {
      assert Opens(t.keys, s, t.secrets[s]);
      assert t.secrets[s].keyId in Referenced(t);
    }
    forall s | s in t.secrets ensures Opens(t'.keys, s, t.secrets[s]) {
      assert Opens(t.keys, s, t.secrets[s]);
    }
    var rows := At(t.secrets, id);
    forall k | k in rows ensures OpenRow(t'.keys, k, rows[k]) == OpenRow(t.keys, k, rows[k]) {
      assert Slot(id, k) in t.secrets;
    }
    assert OpenAll(t'.keys, rows) == OpenAll(t.keys, rows);
  }

  function Unexpired(m: map<string, PrivateTab>, now: int): map<string, PrivateTab> {
    map k | k in m && !(m[k].expiresAt < now) :: m[k]
  }

  lemma AtUnswept(m: map<Slot, SealedRow>, keys: map<int, KeyRow>, now: int, id: int)
    ensures OpenAll(keys, At(Unswept(m, now), id)) == Unexpired(OpenAll(keys, At(m, id)), now)
  {
  }

  lemma SessionSweep(t: Tables, now: int, id: int)
    requires Sound(t)
    ensures Sound(Sweep(t, now))
    ensures Session(Sweep(t, now), id) == Session(t, id).(secrets := Unexpired(Session(t, id).secrets, now))
  {
    SoundFewer(t, Sweep(t, now));
    AtUnswept(t.secrets, t.keys, now, id);
  }

  lemma SessionPurge(t: Tables, id: int)
    requires Sound(t)
    ensures Sound(Purge(t)) && Session(Purge(t), id) == Session(t, id).(secrets := map[])
  {
    assert Session(Purge(t), id).secrets == map[];
  }

  lemma AtPlaced<V>(m: map<Slot, V>, rows: map<string, V>, id: int)
    ensures At(Dropped(m, LIVE) + Placed(rows, LIVE), id) == if id == LIVE then rows else At(m, id)
  {
    forall k ensures Slot(LIVE, k) in Placed(rows, LIVE) <==> k in rows {
    }
    var a, b := At(Dropped(m, LIVE) + Placed(rows, LIVE), id), if id == LIVE then rows else At(m, id);
    forall k ensures Lookup(a, k) == Lookup(b, k) {
      assert Slot(LIVE, k) in Placed(rows, LIVE) <==> k in rows;
    }
    SameMap(a, b);
  }

  lemma SessionWatch(t: Tables, apps: map<string, AppRow>, id: int)
    requires Sound(t)
    ensures Sound(Watch(t, apps))
    ensures Session(Watch(t, apps), id) == if id == LIVE then Session(t, id).(apps := apps) else Session(t, id)
  {
    AtPlaced(t.apps, apps, id);
    assert Belong(Watch(t, apps).apps, t.snapshots.Keys);
  }

  lemma SessionCopy(t: Tables, to: int, row: SnapshotRow, id: int)
    requires Sound(t) && to !in t.snapshots
    ensures var t' := CopyRows(t.(snapshots := t.snapshots[to := row]), to);
      Sound(t') && Session(t', id) == Session(t, if id == to then LIVE else id)
  {
    var t' := CopyRows(t.(snapshots := t.snapshots[to := row]), to);
    var ids := t.snapshots.Keys;
    AtAbsent(t.windows, ids, to);
    AtAbsent(t.tabs, ids, to);
    AtAbsent(t.secrets, ids, to);
    AtAbsent(t.groups, ids, to);
    AtAbsent(t.apps, ids, to);
    AtCopied(t.windows, LIVE, to, id);
    AtCopied(t.tabs, LIVE, to, id);
    AtCopied(t.secrets, LIVE, to, id);
    AtCopied(t.groups, LIVE, to, id);
    AtCopied(t.apps, LIVE, to, id);
    CopySound(t, to, row);
  }

  /** A copied private row opens: its associated data names the tab and the key, not the snapshot. */
  lemma CopySound(t: Tables, to: int, row: SnapshotRow)
    requires Sound(t) && to !in t.snapshots
    ensures Sound(CopyRows(t.(snapshots := t.snapshots[to := row]), to))
  {
    var t' := CopyRows(t.(snapshots := t.snapshots[to := row]), to);
    forall s | s in t'.secrets ensures Opens(t'.keys, s, t'.secrets[s]) {
      if s.snapshot == to {
        assert s !in t.secrets;
        assert Slot(LIVE, s.key) in t.secrets && t'.secrets[s] == t.secrets[Slot(LIVE, s.key)];
        assert Opens(t.keys, Slot(LIVE, s.key), t.secrets[Slot(LIVE, s.key)]);
      } else {
        assert s in t.secrets;
      }
    }
    assert forall s :: s in t'.windows ==> s.snapshot == to || s in t.windows;
    assert forall s :: s in t'.tabs ==> s.snapshot == to || s in t.tabs;
    assert forall s :: s in t'.groups ==> s.snapshot == to || s in t.groups;
    assert forall s :: s in t'.apps ==> s.snapshot == to || s in t.apps;
  }

  lemma AtWithout<V>(m: map<Slot, V>, ids: set<int>, id: int)
    ensures At(Without(m, ids), id) == if id in ids then map[] else At(m, id)
  {
  }

  lemma SoundDeleted(t: Tables, ids: set<int>)
    requires Sound(t) && LIVE !in ids
    ensures Sound(DeleteAll(t, ids))
  {
  }

  lemma SessionDelete(t: Tables, ids: set<int>, id: int)
    requires Sound(t) && LIVE !in ids
    ensures Sound(DeleteAll(t, ids)) && Session(DeleteAll(t, ids), id) == if id in ids then NOTHING else Session(t, id)
  {
    SoundDeleted(t, ids);
    AtWithout(t.windows, ids, id);
    AtWithout(t.tabs, ids, id);
    AtWithout(t.secrets, ids, id);
    AtWithout(t.groups, ids, id);
    AtWithout(t.apps, ids, id);
    if id in ids { assert OpenAll(t.keys, map[]) == map[]; }
  }

  lemma DeleteOne(t: Tables, id: int)
    requires id != LIVE
    ensures Delete(t, id).Some? && Delete(t, id).value == DeleteAll(t, {id})
  {
  }
}
