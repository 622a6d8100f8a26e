/**
 What holds over every run of the store: private rows stay readable in their own place and
 nowhere else, snapshots never change, and pruning keeps exactly what it should.
 */
module StoreSafety {
  import opened Options
  import opened LiveTables
  import opened Crypto
  import opened Store
  import opened Sessions
  import opened StoreRuns

  // ----- Runs -----

  ghost predicate Runnable(t: Tables, es: seq<Event>)
    decreases es
  {
    es == [] || (Possible(t.snapshots, t.runs, es[0]) && Runnable(Next(t, es[0]), es[1..]))
  }

  ghost function Run(t: Tables, es: seq<Event>): Tables
    requires Runnable(t, es)
    decreases es
  {
    if es == [] then t else Run(Next(t, es[0]), es[1..])
  }

  lemma PlainNextWhole(p: Plain, e: Event)
    requires Whole(p) && Possible(p.snapshots, p.runs, e)
    ensures Whole(PlainNext(p, e))
  {
  }

  ghost predicate PlainRunnable(p: Plain, es: seq<Event>)
    requires Whole(p)
    decreases es
  {
    es == [] || (Possible(p.snapshots, p.runs, es[0]) &&
      (PlainNextWhole(p, es[0]); PlainRunnable(PlainNext(p, es[0]), es[1..])))
  }

  ghost function PlainRun(p: Plain, es: seq<Event>): (q: Plain)
    requires Whole(p) && PlainRunnable(p, es)
    ensures Whole(q)
    decreases es
  {
    if es == [] then p
    else
      PlainNextWhole(p, es[0]);
      PlainRun(PlainNext(p, es[0]), es[1..])
  }

  lemma {:induction false} RunRefines(t: Tables, es: seq<Event>)
    requires Sound(t) && Runnable(t, es)
    ensures Whole(Abstract(t)) && PlainRunnable(Abstract(t), es)
    ensures Refines(Run(t, es), PlainRun(Abstract(t), es))
    decreases es
  {
    AbstractWhole(t);
    if es == [] {
    } else {
      RefinesNext(t, es[0]);
      RunRefines(Next(t, es[0]), es[1..]);
    }
  }

  // ----- Private rows -----

  /** A database as it is created: the live snapshot row and nothing else. */
  function Created(now: int): Tables {
    Tables(map[], map[], map[], map[], map[], map[LIVE := SnapshotRow(now, Current, false, 0, 0)], map[], map[])
  }

  /**
   Over every run there is at most one unretired key, every private row's key is still there,
   and the row opens, under its own tab key and key id, to exactly the payload the plain store
   holds for it.
   */
  lemma PrivateRowsReadable(now: int, es: seq<Event>, s: Slot)
    requires Runnable(Created(now), es)
    requires s in Run(Created(now), es).secrets
    ensures var t := Run(Created(now), es); var r := t.secrets[s];
      && OneActiveKey(t.keys) && r.keyId in t.keys
      && Whole(Abstract(Created(now))) && PlainRunnable(Abstract(Created(now)), es)
      && var p := PlainRun(Abstract(Created(now)), es);
      && s.snapshot in p.sessions && s.key in p.sessions[s.snapshot].secrets
      && Open(t.keys[r.keyId].dek, Aad(s.key, r.keyId), r.nonce, r.ciphertext)
         == p.sessions[s.snapshot].secrets[s.key].payload
      && p.sessions[s.snapshot].secrets[s.key].payload.Some?
  {
    var t := Run(Created(now), es);
    RunRefines(Created(now), es);
    assert Opens(t.keys, s, t.secrets[s]);
    assert s.snapshot in t.snapshots;
    assert Session(t, s.snapshot).secrets[s.key] == OpenRow(t.keys, s.key, t.secrets[s]);
  }

  /** The row of a readable blob, moved to another tab or relabelled with another key id, never opens. */
  lemma MovedNeverOpens(t: Tables, s: Slot, tabKey: string, keyId: int)
    requires Sound(t) && s in t.secrets && (tabKey != s.key || keyId != t.secrets[s].keyId)
    ensures OpenRow(t.keys, tabKey, t.secrets[s].(keyId := keyId)).payload == None
  {
    var r := t.secrets[s];
    assert Opens(t.keys, s, r);
    if keyId in t.keys && Aad(tabKey, keyId) == Aad(s.key, r.keyId) {
      AadInjective(tabKey, keyId, s.key, r.keyId);
      assert false;
    }
  }

  // ----- Snapshots never change -----

  predicate Spares(e: Event, id: int) {
    !(e.Deleted? && e.id == id) && !(e.Pruned? && id in e.doomed)
  }

  /** A private row goes when everything is purged, or when it is swept after its time. */
  predicate Survives(es: seq<Event>, row: PrivateTab) {
    forall e :: e in es ==> !e.Purged? && !(e.Swept? && row.expiresAt < e.now)
  }

  function Surviving(m: map<string, PrivateTab>, es: seq<Event>): map<string, PrivateTab> {
    map k | k in m && Survives(es, m[k]) :: m[k]
  }

  function Aged(l: Live, es: seq<Event>): Live { l.(secrets := Surviving(l.secrets, es)) }

  lemma AgedNone(l: Live)
    ensures Aged(l, []) == l
  {
    assert Surviving(l.secrets, []) == l.secrets;
  }

  lemma AgedCons(l: Live, es: seq<Event>)
    requires es != []
    ensures Aged(l, es) == Aged(Aged(l, es[..1]), es[1..])
  {
    assert es == es[..1] + es[1..];
    assert forall e :: e in es <==> e in es[..1] || e in es[1..];
    assert Surviving(l.secrets, es) == Surviving(Surviving(l.secrets, es[..1]), es[1..]);
  }

  lemma AgedOne(p: Plain, e: Event, id: int)
    requires Whole(p) && Possible(p.snapshots, p.runs, e) && id in p.snapshots && id != LIVE && Spares(e, id)
    ensures var q := PlainNext(p, e);
      id in q.sessions && q.sessions[id] == Aged(p.sessions[id], [e]) && q.snapshots[id] == p.snapshots[id]
  {
    var l, q := p.sessions[id], PlainNext(p, e);
    assert forall x :: x in [e] <==> x == e;
    if e.Swept? {
      assert Unexpired(l.secrets, e.now) == Surviving(l.secrets, [e]);
    } else if e.Purged? {
      assert Surviving(l.secrets, [e]) == map[];
    } else {
      assert Surviving(l.secrets, [e]) == l.secrets;
    }
  }

  /**
   Whatever else happens, a snapshot that is not itself deleted keeps its plain text tables for
   good and loses private rows only to their expiry or to a purge.
   */
  lemma {:induction false} SnapshotsAreFrozen(p: Plain, es: seq<Event>, id: int)
    requires Whole(p) && PlainRunnable(p, es) && id in p.snapshots && id != LIVE
    requires forall e :: e in es ==> Spares(e, id)
    ensures var q := PlainRun(p, es);
      id in q.snapshots && q.snapshots[id] == p.snapshots[id] && q.sessions[id] == Aged(p.sessions[id], es)
    decreases es
  {
    if es == [] {
      AgedNone(p.sessions[id]);
    } else {
      assert es[0] in es;
      AgedOne(p, es[0], id);
      PlainNextWhole(p, es[0]);
      SnapshotsAreFrozen(PlainNext(p, es[0]), es[1..], id);
      assert es[..1] == [es[0]];
      AgedCons(p.sessions[id], es);
    }
  }

  /** The copy made of the live state is that state, for as long as it is kept. */
  lemma SnapshotIsLiveAtCreation(t: Tables, kind: Kind, now: int, es: seq<Event>)
    requires Sound(t) && CreateFromLive(t, kind, now).1.Some?
    requires Runnable(CreateFromLive(t, kind, now).0, es)
    requires forall e :: e in es ==> Spares(e, CreateFromLive(t, kind, now).1.value)
    ensures var (t', id) := CreateFromLive(t, kind, now);
      && id.value !in t.snapshots && id.value in Run(t', es).snapshots
      && Session(Run(t', es), id.value) == Aged(Session(t, LIVE), es)
  {
    var (t', made) := CreateFromLive(t, kind, now);
    var id := made.value;
    RefinesTake(t, kind, now);
    AbstractWhole(t);
    AbstractWhole(t');
    RunRefines(t', es);
    SnapshotsAreFrozen(Abstract(t'), es, id);
    assert Abstract(t').sessions[id] == Session(t, LIVE);
    AbstractWhole(Run(t', es));
    assert Abstract(Run(t', es)).sessions[id] == Session(Run(t', es), id);
  }

  // ----- What a snapshot records -----

  /** The row is of that time and kind, unpinned, and counts the tabs, of either kind, and the applications. */
  predicate Records(row: SnapshotRow, live: Live, kind: Kind, now: int) {
    && row.capturedAt == now && row.kind == kind && !row.pinned
    && row.tabCount == |live.tabs| + |live.secrets| && row.appCount == |live.apps|
  }

  /** One row is added, under a new id. */
  predicate AddsRow(before: map<int, SnapshotRow>, after: map<int, SnapshotRow>, id: int) {
    && (forall i :: i in before ==> i < id) && id in after && after == before[id := after[id]]
  }

  /**
   Nothing is taken exactly when neither a tab, of either kind, nor an application is live;
   otherwise one snapshot is recorded.
   */
  lemma SnapshotRecords(t: Tables, kind: Kind, now: int)
    ensures var (t', id) := CreateFromLive(t, kind, now); var live := Session(t, LIVE);
      && (id.None? <==> live.tabs == map[] && live.secrets == map[] && live.apps == map[])
      && (id.None? ==> t' == t)
      && (id.Some? ==>
            && AddsRow(t.snapshots, t'.snapshots, id.value)
            && Records(t'.snapshots[id.value], live, kind, now))
  {
    var live := Session(t, LIVE);
    NothingIs(live);
    if NoneOpen(live) { NoneTaken(t, kind, now); } else { OneTaken(t, kind, now); }
  }

  lemma NoneTaken(t: Tables, kind: Kind, now: int)
    requires NoneOpen(Session(t, LIVE))
    ensures CreateFromLive(t, kind, now) == (t, None)
  {
  }

  lemma OneTaken(t: Tables, kind: Kind, now: int)
    requires !NoneOpen(Session(t, LIVE))
    ensures var (t', id) := CreateFromLive(t, kind, now);
      id.Some? && AddsRow(t.snapshots, t'.snapshots, id.value)
      && Records(t'.snapshots[id.value], Session(t, LIVE), kind, now)
  {
    CopyRecords(t, NextId(t.snapshots.Keys), RowOf(Session(t, LIVE), kind, now));
  }

  lemma CopyRecords(t: Tables, id: int, row: SnapshotRow)
    ensures Copy(t, id, row).snapshots == t.snapshots[id := row]
  {
  }

  lemma NothingIs(live: Live)
    ensures NoneOpen(live) <==> live.tabs == map[] && live.secrets == map[] && live.apps == map[]
  {
    EmptyIs(live.tabs);
    EmptyIs(live.secrets);
    EmptyIs(live.apps);
  }

  lemma EmptyIs<V>(m: map<string, V>)
    ensures |m| == 0 <==> m == map[]
  {
    assert |m| == |m.Keys|;
    if |m| == 0 { assert m.Keys == {}; }
  }

  /** What a sign-in may offer: a snapshot, not the live state, and not an undo point. */
  predicate Candidate(snapshots: map<int, SnapshotRow>, id: int) {
    id in snapshots && id != LIVE && snapshots[id].kind != Current && snapshots[id].kind != PreRestore
  }

  lemma NewestIs(snapshots: map<int, SnapshotRow>, id: Option<int>)
    ensures NewestRestorable(snapshots, id) <==>
      match id
      case None => forall j :: !Candidate(snapshots, j)
      case Some(i) =>
        Candidate(snapshots, i)
        && forall j :: Candidate(snapshots, j) ==> snapshots[j].capturedAt <= snapshots[i].capturedAt
  {
    forall j ensures j in Restorable(snapshots) <==> Candidate(snapshots, j) {
    }
  }

  lemma NewestAdded(snapshots: map<int, SnapshotRow>, id: int, row: SnapshotRow, found: Option<int>)
    requires id !in snapshots && id != LIVE && row.kind != Current && row.kind != PreRestore
    requires forall j :: Candidate(snapshots, j) ==> snapshots[j].capturedAt < row.capturedAt
    ensures NewestRestorable(snapshots[id := row], found) <==> found == Some(id)
  {
    var after := snapshots[id := row];
    NewestIs(after, found);
    assert Candidate(after, id);
    assert forall j :: Candidate(after, j) ==> j == id || Candidate(snapshots, j);
  }

  /** A session just taken is the one that is found, unless a candidate claims to be as new. */
  lemma LastTakenIsFound(t: Tables, kind: Kind, now: int, found: Option<int>)
    requires Sound(t) && kind != Current && kind != PreRestore && CreateFromLive(t, kind, now).1.Some?
    requires forall j :: Candidate(t.snapshots, j) ==> t.snapshots[j].capturedAt < now
    ensures var (t', id) := CreateFromLive(t, kind, now); NewestRestorable(t'.snapshots, found) <==> found == id
  {
    var (t', id) := CreateFromLive(t, kind, now);
    SnapshotRecords(t, kind, now);
    NewestAdded(t.snapshots, id.value, t'.snapshots[id.value], found);
  }

  /** An undo point is never offered as a session to restore, however long it is kept. */
  lemma UndoPointIsNeverFound(t: Tables, now: int, es: seq<Event>, found: Option<int>)
    requires Sound(t) && CreateFromLive(t, PreRestore, now).1.Some?
    requires Runnable(CreateFromLive(t, PreRestore, now).0, es)
    requires forall e :: e in es ==> Spares(e, CreateFromLive(t, PreRestore, now).1.value)
    requires NewestRestorable(Run(CreateFromLive(t, PreRestore, now).0, es).snapshots, found)
    ensures found != CreateFromLive(t, PreRestore, now).1
  {
    var (t', made) := CreateFromLive(t, PreRestore, now);
    SnapshotRecords(t, PreRestore, now);
    KeptAsRecorded(t, PreRestore, now, es);
    NewestIs(Run(t', es).snapshots, found);
  }

  lemma KeptAsRecorded(t: Tables, kind: Kind, now: int, es: seq<Event>)
    requires Sound(t) && CreateFromLive(t, kind, now).1.Some?
    requires Runnable(CreateFromLive(t, kind, now).0, es)
    requires forall e :: e in es ==> Spares(e, CreateFromLive(t, kind, now).1.value)
    ensures var (t', id) := CreateFromLive(t, kind, now);
      && id.value in t'.snapshots && id.value in Run(t', es).snapshots
      && Run(t', es).snapshots[id.value] == t'.snapshots[id.value]
  {
    var (t', made) := CreateFromLive(t, kind, now);
    RefinesTake(t, kind, now);
    AbstractWhole(t);
    AbstractWhole(t');
    RunRefines(t', es);
    SnapshotsAreFrozen(Abstract(t'), es, made.value);
  }

  /** One run is recorded, under a new id, with its snapshot, its start, its mode and its undo point. */
  lemma RunRecords(t: Tables, snapshotId: int, mode: string, at: Times, pick: Option<int>)
    requires Shares(t.runs, snapshotId, at.looked, pick)
    ensures var (t', id) := BeginRun(t, snapshotId, mode, at, pick);
      && (forall i :: i in t.runs ==> i < id) && id in t'.runs && t'.runs == t.runs[id := t'.runs[id]]
      && t'.runs[id].snapshotId == snapshotId && t'.runs[id].startedAt == at.started && t'.runs[id].mode == mode
      && t'.runs[id].undo
         == if pick.Some? then t.runs[pick.value].undo else CreateFromLive(t, PreRestore, at.copied).1
  {
    RunsKept(t, PreRestore, at.copied);
  }

  lemma RunsKept(t: Tables, kind: Kind, now: int)
    ensures CreateFromLive(t, kind, now).0.runs == t.runs
  {
  }

  // ----- Pruning -----

  /** The unpinned snapshots captured strictly later. */
  function Newer(snapshots: map<int, SnapshotRow>, id: int): set<int>
    requires id in snapshots
  {
    set j | j in Prunable(snapshots) && snapshots[j].capturedAt > snapshots[id].capturedAt
  }

  predicate Untied(snapshots: map<int, SnapshotRow>, id: int)
    requires id in snapshots
  {
    forall j :: j in Prunable(snapshots) && j != id ==> snapshots[j].capturedAt != snapshots[id].capturedAt
  }

  lemma Fewer(a: set<int>, b: set<int>)
    requires a <= b
    ensures |a| <= |b|
  {
    if a != {} {
      assert exists i :: i in a by { if forall i :: i !in a { assert false; } }
      var i :| i in a;
      Fewer(a - {i}, b - {i});
    }
  }

  /**
   Pruning keeps the live state, everything pinned, and an unpinned snapshot exactly when fewer
   than `keep` unpinned ones are newer (with ties, when the query happened to rank it so).
   */
  lemma PruneKeeps(t: Tables, keep: int, doomed: set<int>, id: int)
    requires Sound(t) && Doomed(t.snapshots, keep, doomed) && id in t.snapshots
    ensures var t' := DeleteAll(t, doomed);
      && Sound(t')
      && (id == LIVE || t.snapshots[id].pinned ==> id in t'.snapshots)
      && (id in Prunable(t.snapshots) && id in t'.snapshots ==> |Newer(t.snapshots, id)| < Keep(keep))
      && (id in Prunable(t.snapshots) && Untied(t.snapshots, id)
          ==> (id in t'.snapshots <==> |Newer(t.snapshots, id)| < Keep(keep)))
      && (id in t'.snapshots ==> t'.snapshots[id] == t.snapshots[id] && Session(t', id) == Session(t, id))
      && (id !in t'.snapshots ==> Session(t', id) == NOTHING)
  {
    var all := Prunable(t.snapshots);
    var kept := all - doomed;
    var newer := Newer(t.snapshots, id);
    SessionDelete(t, doomed, id);
    if id in kept {
      if |kept| == Keep(keep) {
        assert newer <= kept - {id};
        Fewer(newer, kept - {id});
      } else {
        assert kept == all;
        assert newer <= all - {id};
        Fewer(newer, all - {id});
      }
    } else if id in doomed {
      if Untied(t.snapshots, id) {
        assert kept <= newer;
        Fewer(kept, newer);
      }
    }
  }
}
