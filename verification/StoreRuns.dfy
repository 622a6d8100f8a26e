/**
 Whole runs of the store: messages, key rotation, snapshots, pruning, sweeping, purging,
 collecting keys and beginning restores, in any order. The store refines one that keeps every
 session in plain text, which gives readability of private rows, isolation of snapshots and
 exactness of pruning over all runs.
 */
module StoreRuns {
  import opened Options
  import opened Protocol
  import opened LiveTables
  import opened Store
  import opened Sessions

  datatype Event =
    | Message(body: StateBody, envs: seq<Env>, authoritative: bool, src: Source)
    | Watched(apps: map<string, AppRow>)
    | Taken(kind: Kind, now: int)
    | Deleted(id: int)
    | Pruned(keep: int, doomed: set<int>)
    | Swept(now: int)
    | Purged
    | Collected
    | Begun(snapshotId: int, mode: string, at: Times, pick: Option<int>)

  /** What a caller and the clock can produce; ties in a query may be settled either way. */
  predicate Possible(snapshots: map<int, SnapshotRow>, runs: map<int, RunRow>, e: Event) {
    match e
    case Message(body, envs, _, _) => |envs| == |body.tabs| && forall v :: v in envs ==> GoodEnv(v)
    case Pruned(keep, doomed) => Doomed(snapshots, keep, doomed)
    case Begun(id, _, at, pick) => Shares(runs, id, at.looked, pick)
    case _ => true
  }

  ghost function Next(t: Tables, e: Event): Tables
    requires Possible(t.snapshots, t.runs, e)
  {
    match e
    case Message(body, envs, authoritative, src) => ApplyMessage(t, body, envs, authoritative, src)
    case Watched(apps) => Watch(t, apps)
    case Taken(kind, now) => CreateFromLive(t, kind, now).0
    case Deleted(id) => if Delete(t, id).Some? then Delete(t, id).value else t
    case Pruned(_, doomed) => DeleteAll(t, doomed)
    case Swept(now) => Sweep(t, now)
    case Purged => Purge(t)
    case Collected => Gc(t)
    case Begun(id, mode, at, pick) => BeginRun(t, id, mode, at, pick).0
  }

  // ----- The same store in plain text -----

  datatype Plain = Plain(sessions: map<int, Live>, snapshots: map<int, SnapshotRow>, runs: map<int, RunRow>)

  predicate Whole(p: Plain) { LIVE in p.snapshots && p.sessions.Keys == p.snapshots.Keys }

  function Abstract(t: Tables): Plain {
    Plain(map id | id in t.snapshots :: Session(t, id), t.snapshots, t.runs)
  }

  function CopyLive(p: Plain, to: int, row: SnapshotRow): Plain
    requires LIVE in p.sessions
  {
    p.(sessions := p.sessions[to := p.sessions[LIVE]], snapshots := p.snapshots[to := row])
  }

  ghost function Take(p: Plain, kind: Kind, now: int): (Plain, Option<int>)
    requires LIVE in p.sessions
  {
    var live := p.sessions[LIVE];
    if NoneOpen(live) then (p, None)
    else
      var id := NextId(p.snapshots.Keys);
      (CopyLive(p, id, RowOf(live, kind, now)), Some(id))
  }

  ghost function Begin(p: Plain, snapshotId: int, mode: string, at: Times, pick: Option<int>): Plain
    requires Whole(p) && Shares(p.runs, snapshotId, at.looked, pick)
  {
    var (p', undo) := if pick.Some? then (p, p.runs[pick.value].undo) else Take(p, PreRestore, at.copied);
    p'.(runs := p'.runs[NextId(p'.runs.Keys) := RunRow(snapshotId, at.started, mode, undo)])
  }

  function Forget(p: Plain, ids: set<int>): Plain {
    p.(sessions := p.sessions - ids, snapshots := p.snapshots - ids)
  }

  function SweepAll(sessions: map<int, Live>, now: int): map<int, Live> {
    map id | id in sessions :: sessions[id].(secrets := Unexpired(sessions[id].secrets, now))
  }

  function PurgeAll(sessions: map<int, Live>): map<int, Live> {
    map id | id in sessions :: sessions[id].(secrets := map[])
  }

  ghost function PlainNext(p: Plain, e: Event): Plain
    requires Whole(p) && Possible(p.snapshots, p.runs, e)
  {
    match e
    case Message(body, envs, authoritative, src) =>
      p.(sessions := p.sessions[LIVE := ApplyState(p.sessions[LIVE], body, Expiry(envs), authoritative, src)])
    case Watched(apps) => p.(sessions := p.sessions[LIVE := p.sessions[LIVE].(apps := apps)])
    case Taken(kind, now) => Take(p, kind, now).0
    case Deleted(id) => if id == LIVE then p else Forget(p, {id})
    case Pruned(_, doomed) => Forget(p, doomed)
    case Swept(now) => p.(sessions := SweepAll(p.sessions, now))
    case Purged => p.(sessions := PurgeAll(p.sessions))
    case Collected => p
    case Begun(id, mode, at, pick) => Begin(p, id, mode, at, pick)
  }

  // ----- Refinement, event by event -----

  predicate Refines(t: Tables, p: Plain) { Sound(t) && Abstract(t) == p && Whole(p) }

  lemma AbstractIs(t: Tables, p: Plain)
    requires Sound(t) && p.snapshots == t.snapshots && p.runs == t.runs && p.sessions.Keys == t.snapshots.Keys
    requires forall id :: id in p.sessions ==> p.sessions[id] == Session(t, id)
    ensures Refines(t, p)
  {
    assert Abstract(t).sessions == p.sessions;
  }

  /** Only the live session changes. */
  lemma RefinesLive(t: Tables, t': Tables, live: Live)
    requires Sound(t') && t'.snapshots == t.snapshots && t'.runs == t.runs
    requires forall id :: Session(t', id) == if id == LIVE then live else Session(t, id)
    ensures Refines(t', Abstract(t).(sessions := Abstract(t).sessions[LIVE := live]))
  {
    AbstractIs(t', Abstract(t).(sessions := Abstract(t).sessions[LIVE := live]));
  }

  lemma RefinesMessage(t: Tables, body: StateBody, envs: seq<Env>, authoritative: bool, src: Source)
    requires Sound(t) && |envs| == |body.tabs| && forall v :: v in envs ==> GoodEnv(v)
    ensures var live := ApplyState(Session(t, LIVE), body, Expiry(envs), authoritative, src);
      Refines(ApplyMessage(t, body, envs, authoritative, src),
              Abstract(t).(sessions := Abstract(t).sessions[LIVE := live]))
  {
    var t' := ApplyMessage(t, body, envs, authoritative, src);
    var live := ApplyState(Session(t, LIVE), body, Expiry(envs), authoritative, src);
    MessageKeeps(t, body, envs, authoritative, src);
    forall id ensures Session(t', id) == if id == LIVE then live else Session(t, id) {
      SessionMessage(t, body, envs, authoritative, src, id);
    }
    SessionMessage(t, body, envs, authoritative, src, LIVE);
    RefinesLive(t, t', live);
  }

  lemma {:induction false} WindowsKeep(t: Tables, ws: seq<WindowDelta>, src: Source)
    ensures IngestWindows(t, ws, src).snapshots == t.snapshots && IngestWindows(t, ws, src).runs == t.runs
  {
    if ws != [] { WindowsKeep(t, ws[..|ws|-1], src); }
  }

  lemma {:induction false} TabsKeep(t: Tables, ts: seq<TabDelta>, envs: seq<Env>, src: Source)
    requires |envs| == |ts| && forall e :: e in envs ==> GoodEnv(e)
    ensures IngestTabs(t, ts, envs, src).snapshots == t.snapshots && IngestTabs(t, ts, envs, src).runs == t.runs
  {
    if ts != [] {
      assert envs[|ts|-1] in envs;
      TabsKeep(t, ts[..|ts|-1], envs[..|ts|-1], src);
    }
  }

  lemma {:induction false} GroupsKeep(t: Tables, gs: seq<GroupDelta>)
    ensures IngestGroups(t, gs).snapshots == t.snapshots && IngestGroups(t, gs).runs == t.runs
  {
    if gs != [] { GroupsKeep(t, gs[..|gs|-1]); }
  }

  lemma MessageKeeps(t: Tables, body: StateBody, envs: seq<Env>, authoritative: bool, src: Source)
    requires |envs| == |body.tabs| && forall v :: v in envs ==> GoodEnv(v)
    ensures var t' := ApplyMessage(t, body, envs, authoritative, src); t'.snapshots == t.snapshots && t'.runs == t.runs
  {
    var t1 := IngestWindows(t, body.windows, src);
    var t2 := IngestTabs(t1, body.tabs, envs, src);
    WindowsKeep(t, body.windows, src);
    TabsKeep(t1, body.tabs, envs, src);
    GroupsKeep(t2, body.groups);
  }

  lemma RefinesWatch(t: Tables, apps: map<string, AppRow>)
    requires Sound(t)
    ensures Refines(Watch(t, apps),
                    Abstract(t).(sessions := Abstract(t).sessions[LIVE := Session(t, LIVE).(apps := apps)]))
  {
    var live := Session(t, LIVE).(apps := apps);
    forall id ensures Session(Watch(t, apps), id) == if id == LIVE then live else Session(t, id) {
      SessionWatch(t, apps, id);
    }
    SessionWatch(t, apps, LIVE);
    RefinesLive(t, Watch(t, apps), live);
  }

  lemma AbstractWhole(t: Tables)
    requires Sound(t)
    ensures Whole(Abstract(t)) && Abstract(t).sessions[LIVE] == Session(t, LIVE)
  {
  }

  lemma RefinesCopy(t: Tables, to: int, row: SnapshotRow)
    requires Sound(t) && to !in t.snapshots
    ensures LIVE in Abstract(t).sessions
    ensures Refines(Copy(t, to, row), CopyLive(Abstract(t), to, row))
  {
    AbstractWhole(t);
    var t', p' := Copy(t, to, row), CopyLive(Abstract(t), to, row);
    forall id | id in p'.sessions ensures p'.sessions[id] == Session(t', id) {
      SessionCopy(t, to, row, id);
    }
    CopySound(t, to, row);
    AbstractIs(t', p');
  }

  lemma RefinesTake(t: Tables, kind: Kind, now: int)
    requires Sound(t)
    ensures LIVE in Abstract(t).sessions
    ensures Refines(CreateFromLive(t, kind, now).0, Take(Abstract(t), kind, now).0)
    ensures CreateFromLive(t, kind, now).1 == Take(Abstract(t), kind, now).1
  {
    AbstractWhole(t);
    var live := Session(t, LIVE);
    if !NoneOpen(live) { RefinesCopy(t, NextId(t.snapshots.Keys), RowOf(live, kind, now)); }
  }

  lemma RefinesForget(t: Tables, ids: set<int>)
    requires Sound(t) && LIVE !in ids
    ensures Refines(DeleteAll(t, ids), Forget(Abstract(t), ids))
  {
    var t', p' := DeleteAll(t, ids), Forget(Abstract(t), ids);
    forall id | id in p'.sessions ensures p'.sessions[id] == Session(t', id) {
      SessionDelete(t, ids, id);
    }
    SessionDelete(t, ids, LIVE);
    AbstractIs(t', p');
  }

  lemma RefinesSweep(t: Tables, now: int)
    requires Sound(t)
    ensures Refines(Sweep(t, now), Abstract(t).(sessions := SweepAll(Abstract(t).sessions, now)))
  {
    var t' := Sweep(t, now);
    var p' := Abstract(t).(sessions := SweepAll(Abstract(t).sessions, now));
    forall id | id in p'.sessions ensures p'.sessions[id] == Session(t', id) {
      SessionSweep(t, now, id);
    }
    SessionSweep(t, now, LIVE);
    AbstractIs(t', p');
  }

  lemma RefinesPurge(t: Tables)
    requires Sound(t)
    ensures Refines(Purge(t), Abstract(t).(sessions := PurgeAll(Abstract(t).sessions)))
  {
    var t' := Purge(t);
    var p' := Abstract(t).(sessions := PurgeAll(Abstract(t).sessions));
    forall id | id in p'.sessions ensures p'.sessions[id] == Session(t', id) {
      SessionPurge(t, id);
    }
    SessionPurge(t, LIVE);
    AbstractIs(t', p');
  }

  lemma RefinesGc(t: Tables)
    requires Sound(t)
    ensures Refines(Gc(t), Abstract(t))
  {
    var p := Abstract(t);
    forall id | id in p.sessions ensures p.sessions[id] == Session(Gc(t), id) {
      SessionGc(t, id);
    }
    SessionGc(t, LIVE);
    AbstractIs(Gc(t), p);
  }

  lemma RefinesRuns(t: Tables, p: Plain, runs: map<int, RunRow>)
    requires Refines(t, p)
    ensures Refines(t.(runs := runs), p.(runs := runs))
  {
    var t' := t.(runs := runs);
    forall id ensures Session(t', id) == Session(t, id) {
    }
    assert Abstract(t').sessions == Abstract(t).sessions;
  }

  lemma RefinesBegin(t: Tables, snapshotId: int, mode: string, at: Times, pick: Option<int>)
    requires Sound(t) && Shares(t.runs, snapshotId, at.looked, pick)
    ensures Refines(BeginRun(t, snapshotId, mode, at, pick).0, Begin(Abstract(t), snapshotId, mode, at, pick))
  {
    if pick.None? { RefinesTake(t, PreRestore, at.copied); }
    var (t', undo) := if pick.Some? then (t, t.runs[pick.value].undo) else CreateFromLive(t, PreRestore, at.copied);
    var (p', _) := if pick.Some? then (Abstract(t), undo) else Take(Abstract(t), PreRestore, at.copied);
    RefinesRuns(t', p', t'.runs[NextId(t'.runs.Keys) := RunRow(snapshotId, at.started, mode, undo)]);
  }

  /** Every event does to the tables, read as plain text, what it does to the plain store. */
  lemma RefinesNext(t: Tables, e: Event)
    requires Sound(t) && Possible(t.snapshots, t.runs, e)
    ensures Refines(Next(t, e), PlainNext(Abstract(t), e))
  {
    match e
    case Message(body, envs, authoritative, src) => RefinesMessage(t, body, envs, authoritative, src);
    case Watched(apps) => RefinesWatch(t, apps);
    case Taken(kind, now) => RefinesTake(t, kind, now);
    case Deleted(id) => if id != LIVE { RefinesForget(t, {id}); DeleteOne(t, id); }
    case Pruned(_, doomed) => RefinesForget(t, doomed);
    case Swept(now) => RefinesSweep(t, now);
    case Purged => RefinesPurge(t);
    case Collected => RefinesGc(t);
    case Begun(id, mode, at, pick) => RefinesBegin(t, id, mode, at, pick);
  }
}
